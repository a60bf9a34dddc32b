/** The SSH banner, packet and KEXINIT reader. */
module SshReader {
  import opened Wrappers
  import opened Sequences
  import opened Sockets

  const KEXINIT: nat := 20
  const MAX_BANNER: nat := 8192
  const MAX_PACKET: nat := 65536
  const MIN_PADDING: nat := 4
  const MAX_PADDING: nat := 255
  const BLOCK_SIZE: nat := 8
  const COOKIE_BYTES: nat := 16
  const LF: nat := 10
  const CR: nat := 13
  const SSH: Bytes := [0x53, 0x53, 0x48, 0x2D]

  /** `SSH-2.0-qureddy`, CR, LF. */
  const CLIENT_BANNER: Bytes := [
    0x53, 0x53, 0x48, 0x2D, 0x32, 0x2E, 0x30, 0x2D, 0x71, 0x75, 0x72, 0x65, 0x64, 0x64, 0x79, 0x0D, 0x0A]

  datatype SshError =
    | ConnectionClosed | Raised | BannerTooLong | ImplausibleLength | Misaligned | BadPadding
    | NotKexinit | TruncatedLength | TruncatedList

  /** A value read from a stream, and the bytes left. */
  datatype Taken<T> = Taken(value: T, rest: Bytes)

  /** A reader did what its stream function says: the value and exactly the bytes it covers, or the error. */
  predicate Agrees<T(==)>(expected: Result<Taken<T>, SshError>, r: Result<T, SshError>, left: Bytes) {
    match expected
    case Ok(taken) => r == Ok(taken.value) && left == taken.rest
    case Err(e) => r == Err(e)
  }

  // ----- exact reads -----

  method RecvN(sock: Socket, n: nat) returns (r: Result<Bytes, SshError>)
    modifies sock`stream, sock`calls
    ensures r.Ok? ==> old(sock.stream) == r.value + sock.stream && |r.value| == n
    ensures r.Err? ==> r.error.Raised? || (r.error.ConnectionClosed? && |old(sock.stream)| < n)
    ensures r == Err(Raised) <==> RaisedSince(sock.network, old(sock.calls), sock.calls)
    ensures old(sock.calls) <= sock.calls
  {
    var buf: Bytes := [];
    ghost var start := sock.stream;
    while |buf| < n
      invariant |buf| <= n && start == buf + sock.stream
      invariant old(sock.calls) <= sock.calls && !RaisedSince(sock.network, old(sock.calls), sock.calls)
      decreases n - |buf|
    {
      var chunk := sock.Recv(n - |buf|);
      if chunk.None? {
        return Err(Raised);
      }
      if chunk.value == [] {
        return Err(ConnectionClosed);
      }
      assert start == (buf + chunk.value) + sock.stream;
      buf := buf + chunk.value;
    }
    return Ok(buf);
  }

  // ----- banner -----

  /** `b.split(separator, 1)[0]`. */
  function Before(b: Bytes, separator: Bytes): (r: Bytes)
    ensures r <= b
  {
    if |b| < |separator| then b
    else if b[..|separator|] == separator then []
    else if b == [] then []
    else [b[0]] + Before(b[1..], separator)
  }

  function LineText(line: Bytes): Bytes {
    Before(Before(line, [CR, LF]), [LF])
  }

  predicate IsBanner(text: Bytes) {
    SSH <= text
  }

  /** Reading byte by byte: `line` is what the present line holds, `total` counts all bytes. */
  function ScanBanner(stream: Bytes, line: Bytes, total: nat): Result<Taken<Bytes>, SshError>
    decreases |stream|
  {
    if stream == [] then Err(ConnectionClosed)
    else if total + 1 > MAX_BANNER then Err(BannerTooLong)
    else
      var next, rest := line + [stream[0]], stream[1..];
      if stream[0] != LF then ScanBanner(rest, next, total + 1)
      else if IsBanner(LineText(next)) then Ok(Taken(LineText(next), rest))
      else ScanBanner(rest, [], total + 1)
  }

  method ReadBanner(sock: Socket) returns (r: Result<Bytes, SshError>)
    modifies sock`stream, sock`calls
    ensures r != Err(Raised) ==> Agrees(ScanBanner(old(sock.stream), [], 0), r, sock.stream)
    ensures r == Err(Raised) <==> RaisedSince(sock.network, old(sock.calls), sock.calls)
    ensures old(sock.calls) <= sock.calls
  {
    var total := 0;
    ghost var start := sock.stream;
    while true
      invariant ScanBanner(start, [], 0) == ScanBanner(sock.stream, [], total)
      invariant old(sock.calls) <= sock.calls && !RaisedSince(sock.network, old(sock.calls), sock.calls)
      decreases |sock.stream|
    {
      var line: Bytes := [];
      ghost var before := sock.stream;
      while line == [] || line[|line| - 1] != LF
        invariant old(sock.calls) <= sock.calls && !RaisedSince(sock.network, old(sock.calls), sock.calls)
        invariant line == [] ==> sock.stream == before
        invariant line != [] ==> |sock.stream| < |before|
        invariant line == [] || line[|line| - 1] != LF ==>
          ScanBanner(start, [], 0) == ScanBanner(sock.stream, line, total)
        invariant line != [] && line[|line| - 1] == LF ==>
          ScanBanner(start, [], 0) == if IsBanner(LineText(line)) then Ok(Taken(LineText(line), sock.stream))
                                      else ScanBanner(sock.stream, [], total)
        decreases |sock.stream|, if line == [] || line[|line| - 1] != LF then 1 else 0
      {
        ghost var was := sock.stream;
        var chunk := sock.Recv(1);
        if chunk.None? {
          return Err(Raised);
        }
        if chunk.value == [] {
          return Err(ConnectionClosed);
        }
        assert chunk.value == [was[0]] && sock.stream == was[1..];
        line := line + chunk.value;
        total := total + 1;
        if total > MAX_BANNER {
          return Err(BannerTooLong);
        }
      }
      var text := LineText(line);
      if IsBanner(text) {
        return Ok(text);
      }
    }
  }

  // ----- packet -----

  function ValidateFraming(packet: nat, padding: nat): Option<SshError> {
    if (packet + 4) % BLOCK_SIZE != 0 then Some(Misaligned)
    else if padding < MIN_PADDING || padding > MAX_PADDING then Some(BadPadding)
    else if packet < padding + 1 then Some(BadPadding)
    else None
  }

  function TakePacket(stream: Bytes): Result<Taken<Bytes>, SshError> {
    if |stream| < 4 then Err(ConnectionClosed) else
      var n := Read32(stream[..4]);
      if !(1 <= n <= MAX_PACKET) then Err(ImplausibleLength)
      else if |stream| < 4 + n then Err(ConnectionClosed)
      else
        var body := stream[4..4 + n];
        var error := ValidateFraming(n, body[0]);
        if error.Some? then Err(error.value) else Ok(Taken(body[1..n - body[0]], stream[4 + n..]))
  }

  method ReadPacketPayload(sock: Socket) returns (r: Result<Bytes, SshError>)
    modifies sock`stream, sock`calls
    ensures r != Err(Raised) ==> Agrees(TakePacket(old(sock.stream)), r, sock.stream)
    ensures r == Err(Raised) <==> RaisedSince(sock.network, old(sock.calls), sock.calls)
    ensures old(sock.calls) <= sock.calls
  {
    ghost var start := sock.stream;
    var header := RecvN(sock, 4);
    if header.Err? {
      return header;
    }
    assert start[..4] == header.value && start[4..] == sock.stream;
    var n := Read32(header.value);
    if !(1 <= n <= MAX_PACKET) {
      return Err(ImplausibleLength);
    }
    var body := RecvN(sock, n);
    if body.Err? {
      return body;
    }
    assert start[4..4 + n] == body.value && start[4 + n..] == sock.stream;
    var padding := body.value[0];
    var error := ValidateFraming(n, padding);
    if error.Some? {
      return Err(error.value);
    }
    return Ok(body.value[1..|body.value| - padding]);
  }

  // ----- name lists -----

  /** `b.decode("ascii", errors="replace")`. */
  function DecodeAscii(b: Bytes): (s: string)
    ensures |s| == |b|
  {
    seq(|b|, i requires 0 <= i < |b| => if b[i] < 128 then b[i] as char else '\U{FFFD}')
  }

  /** `s.split(",")`. */
  function Split(s: string): (parts: seq<string>)
    ensures parts != []
  {
    if s == "" then [""]
    else
      var rest := Split(s[1..]);
      if s[0] == ',' then [""] + rest else [[s[0]] + rest[0]] + rest[1..]
  }

  function Names(raw: string): seq<string> {
    if raw == "" then [] else Split(raw)
  }

  datatype Listed = Listed(names: seq<string>, offset: nat)

  function ReadNamelist(payload: Bytes, offset: nat): Result<Listed, SshError> {
    if offset + 4 > |payload| then Err(TruncatedLength) else
      var n, start := Read32(payload[offset..offset + 4]), offset + 4;
      if start + n > |payload| then Err(TruncatedList)
      else Ok(Listed(Names(DecodeAscii(payload[start..start + n])), start + n))
  }

  /** `count` name lists from an offset on; the first error stops the reading. */
  function ReadNamelists(payload: Bytes, offset: nat, count: nat): (r: Result<seq<seq<string>>, SshError>)
    ensures r.Ok? ==> |r.value| == count
    decreases count
  {
    if count == 0 then Ok([]) else
      var first := ReadNamelist(payload, offset);
      if first.Err? then Err(first.error) else
        var others := ReadNamelists(payload, first.value.offset, count - 1);
        if others.Err? then others else Ok([first.value.names] + others.value)
  }

  datatype Offer = Offer(
    kex: seq<string>, hostKeys: seq<string>, ciphers: seq<string>, macs: seq<string>)

  function ParseKexinit(payload: Bytes): Result<Offer, SshError> {
    if payload == [] || payload[0] != KEXINIT then Err(NotKexinit) else
      var lists := ReadNamelists(payload, 1 + COOKIE_BYTES, 6);
      if lists.Err? then Err(lists.error) else
        var l := lists.value;
        Ok(Offer(l[0], l[1], FirstOccurrences(l[2] + l[3]), FirstOccurrences(l[4] + l[5])))
  }

  const STRICT_KEX: string := "kex-strict-s-v00@openssh.com"

  /** Negotiation markers that are no key exchange algorithms. */
  predicate IsPseudoKex(name: string) {
    name == "ext-info-s" || name == "ext-info-c" || name == STRICT_KEX
  }

  function RealKex(names: seq<string>): (kept: seq<string>)
    ensures forall n :: n in kept <==> n in names && !IsPseudoKex(n)
  {
    if names == [] then []
    else if IsPseudoKex(names[0]) then RealKex(names[1..])
    else [names[0]] + RealKex(names[1..])
  }

  /** What the probe reports: banner text, lists, and whether strict key exchange is offered. */
  datatype Posture = Posture(banner: string, offer: Offer, strict: bool)

  function Report(banner: Bytes, offer: Offer): Posture {
    Posture(DecodeAscii(banner), offer.(kex := RealKex(offer.kex)), (STRICT_KEX in offer.kex))
  }

  function TakeOffer(stream: Bytes): Result<Taken<Posture>, SshError> {
    var banner := ScanBanner(stream, [], 0);
    if banner.Err? then Err(banner.error) else
      var packet := TakePacket(banner.value.rest);
      if packet.Err? then Err(packet.error) else
        var offer := ParseKexinit(packet.value.value);
        if offer.Err? then Err(offer.error)
        else Ok(Taken(Report(banner.value.value, offer.value), packet.value.rest))
  }

  /** `read_kexinit_offer` on an open socket: whatever the chunking, the result is that of the
      stream, exactly the banner and the packet have been consumed, and the client's own banner went
      out only after the server's was read. */
  method ReadKexinitOffer(sock: Socket) returns (r: Result<Posture, SshError>)
    modifies sock
    ensures r != Err(Raised) ==> Agrees(TakeOffer(old(sock.stream)), r, sock.stream)
    ensures r == Err(Raised) <==> RaisedSince(sock.network, old(sock.calls), sock.calls)
    ensures r.Ok? ==> sock.sent == old(sock.sent) + CLIENT_BANNER
    ensures ScanBanner(old(sock.stream), [], 0).Err? ==> sock.sent == old(sock.sent)
  {
    var banner := ReadBanner(sock);
    if banner.Err? {
      return Err(banner.error);
    }
    var sent := sock.SendAll(CLIENT_BANNER);
    if !sent {
      return Err(Raised);
    }
    var payload := ReadPacketPayload(sock);
    if payload.Err? {
      return Err(payload.error);
    }
    var offer := ParseKexinit(payload.value);
    if offer.Err? {
      return Err(offer.error);
    }
    return Ok(Report(banner.value, offer.value));
  }
}
