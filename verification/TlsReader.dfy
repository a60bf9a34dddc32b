/** The bounded TLS record reader and the one-suite ClientHello of the native suite selector. */
module TlsReader {
  import opened Numbers
  import opened Wrappers
  import opened Sockets

  const MAX_RECORDS: nat := 8
  const MAX_RECORD_BYTES: nat := 16 * 1024
  const RECORD_HEADER: nat := 5
  const HANDSHAKE_HEADER: nat := 4
  const CLIENT_HELLO: nat := 1
  const SERVER_HELLO: nat := 2
  const ALERT: nat := 21
  const HANDSHAKE: nat := 22
  const MIN_SERVER_HELLO_BODY: nat := 38

  // ----- ServerHello -----

  /** The suite a complete handshake message selects, if it is a ServerHello. */
  function ServerHelloSuite(h: Bytes): Option<nat> {
    if |h| < HANDSHAKE_HEADER || h[0] != SERVER_HELLO then None else
      var length := Read24(h[1..4]);
      if length != |h| - HANDSHAKE_HEADER || length < MIN_SERVER_HELLO_BODY then None else
        var body := h[4..];
        var offset := 35 + body[34];
        if offset + 2 > |body| then None else Some(Read16(body[offset..offset + 2]))
  }

  /** The parts of a ServerHello: version and random, session id, suite, and what follows. */
  datatype Hello = Hello(head: Bytes, session: Bytes, suite: nat, rest: Bytes)

  predicate ValidHello(p: Hello) {
    && |p.head| == 34 && |p.session| < 256 && p.suite < 0x1_0000
    && IsBytes(p.head) && IsBytes(p.session) && IsBytes(p.rest)
    && MIN_SERVER_HELLO_BODY <= 37 + |p.session| + |p.rest| < 0x100_0000
  }

  /** A ServerHello message as section 7.4.1.3 of RFC 5246 lays it out. */
  function PrintHello(p: Hello): Bytes
    requires ValidHello(p)
  {
    [SERVER_HELLO] + U24(37 + |p.session| + |p.rest|)
    + (p.head + [|p.session|] + p.session + U16(p.suite) + p.rest)
  }

  lemma PrintedHelloIsRead(p: Hello)
    requires ValidHello(p)
    ensures ServerHelloSuite(PrintHello(p)) == Some(p.suite)
  {
    var h := PrintHello(p);
    var body := p.head + [|p.session|] + p.session + U16(p.suite) + p.rest;
    var n := 35 + |p.session|;
    assert h[1..4] == U24(|body|) && h[4..] == body;
    Read24Inverts(|body|, [0, 0, 0]);
    Read16Inverts(p.suite, [0, 0]);
    assert body[34] == |p.session|;
    assert body[n..n + 2] == U16(p.suite);
  }

  /** The reader accepts exactly the printed ServerHellos, and reads their suite. */
  lemma ReadHelloIsPrinted(h: Bytes, suite: nat) returns (p: Hello)
    requires IsBytes(h) && ServerHelloSuite(h) == Some(suite)
    ensures ValidHello(p) && p.suite == suite && h == PrintHello(p)
  {
    var body := h[4..];
    var n := 35 + body[34];
    assert IsBytes(body) && IsBytes(h[1..4]) && IsBytes(body[n..n + 2]);
    Read16Inverts(0, body[n..n + 2]);
    Read24Inverts(0, h[1..4]);
    p := Hello(body[..34], body[35..n], suite, body[n + 2..]);
    assert body == body[..34] + [body[34]] + body[35..n] + body[n..n + 2] + body[n + 2..];
    assert h == [h[0]] + h[1..4] + body;
  }

  // ----- records -----

  datatype Record = Record(kind: nat, payload: Bytes)

  datatype Parsed = Parsed(record: Record, rest: Bytes)

  /** The first record of a stream. */
  function ParseRecord(stream: Bytes): Option<Parsed> {
    if |stream| < RECORD_HEADER then None else
      var length := Read16(stream[3..5]);
      if length > MAX_RECORD_BYTES || |stream| < RECORD_HEADER + length then None
      else Some(Parsed(Record(stream[0], stream[5..5 + length]), stream[5 + length..]))
  }

  datatype Reading = Got(record: Record) | Malformed | Raised

  /** A header read that delivers less than it could. */
  predicate IsCut(network: Network, call: nat, available: nat) {
    Delivery(network, call, RECORD_HEADER, available) < Min(RECORD_HEADER, available)
  }

  /** The number of the last call once `need` bytes are read, or the stream has ended. */
  function PayloadCalls(network: Network, calls: nat, need: nat, available: nat): (last: nat)
    ensures last >= if need == 0 then calls else calls + 1
    decreases need
  {
    if need == 0 then calls
    else
      var k := Delivery(network, calls + 1, need, available);
      if k == 0 then calls + 1 else PayloadCalls(network, calls + 1, need - k, available - k)
  }

  /** The number of the last call for one record whose header arrives whole. */
  function RecordCalls(network: Network, calls: nat, stream: Bytes): (last: nat)
    ensures last > calls
  {
    if |stream| < RECORD_HEADER then calls + 1
    else
      var length := Read16(stream[3..5]);
      if length > MAX_RECORD_BYTES then calls + 1
      else PayloadCalls(network, calls + 1, length, |stream| - RECORD_HEADER)
  }

  datatype Collected = Whole(payload: Bytes) | Ended | Failed

  /** The payload loop: `need` bytes, however they are chunked, unless the stream ends or a call raises. */
  method ReadPayload(sock: Socket, need: nat) returns (c: Collected)
    modifies sock`stream, sock`calls
    ensures c.Whole? ==> old(sock.stream) == c.payload + sock.stream && |c.payload| == need
    ensures c.Ended? ==> |old(sock.stream)| < need
    ensures var last := PayloadCalls(sock.network, old(sock.calls), need, |old(sock.stream)|);
      && (c.Failed? <==> RaisedSince(sock.network, old(sock.calls), last))
      && (!c.Failed? ==> sock.calls == last)
  {
    hide *;
    var payload: Bytes := [];
    ghost var start, first := sock.stream, sock.calls;
    ghost var last := PayloadCalls(sock.network, first, need, |start|);
    NoCallYet(sock.network, first);
    PayloadUnfolds(sock.network, sock.calls, need, |sock.stream|);
    while |payload| < need
      invariant |payload| <= need && start == payload + sock.stream
      invariant first <= sock.calls && !RaisedSince(sock.network, first, sock.calls)
      invariant last == PayloadCalls(sock.network, sock.calls, need - |payload|, |sock.stream|)
      invariant last >= sock.calls && (|payload| == need ==> last == sock.calls)
      decreases need - |payload|
    {
      ghost var before, available := sock.calls, |sock.stream|;
      var chunk := sock.Recv(need - |payload|);
      PayloadUnfolds(sock.network, before, need - |payload|, available);
      DeliveryBounds(sock.network, before + 1, need - |payload|, available);
      OneMoreCall(sock.network, first, before, last);
      if chunk.None? {
        return Failed;
      }
      if chunk.value == [] {
        return Ended;
      }
      assert start == (payload + chunk.value) + sock.stream;
      payload := payload + chunk.value;
      PayloadUnfolds(sock.network, sock.calls, need - |payload|, |sock.stream|);
    }
    return Whole(payload);
  }

  lemma DeliveryBounds(network: Network, call: nat, n: nat, available: nat)
    ensures var k := Delivery(network, call, n, available); k <= n && k <= available && (k == 0 <==> n == 0 || available == 0)
  {
  }

  lemma NoCallYet(network: Network, calls: nat)
    ensures !RaisedSince(network, calls, calls)
  {
  }

  lemma OneMoreCall(network: Network, from: nat, call: nat, last: nat)
    requires from <= call < last
    ensures RaisedSince(network, from, call + 1) <==> RaisedSince(network, from, call) || network.raises(call + 1)
    ensures network.raises(call + 1) ==> RaisedSince(network, from, last)
  {
  }

  lemma PayloadUnfolds(network: Network, calls: nat, need: nat, available: nat)
    ensures need == 0 ==> PayloadCalls(network, calls, need, available) == calls
    ensures need > 0 ==>
      var k := Delivery(network, calls + 1, need, available);
      && PayloadCalls(network, calls, need, available)
           == (if k == 0 then calls + 1 else PayloadCalls(network, calls + 1, need - k, available - k))
      && PayloadCalls(network, calls, need, available) > calls
  {
  }

  /** One record from a socket. A header that comes in pieces is treated as malformed; in every
      other case chunking decides nothing but the number of calls. */
  method ReadRecord(sock: Socket) returns (r: Reading)
    modifies sock`stream, sock`calls
    ensures r.Got? ==> ParseRecord(old(sock.stream)) == Some(Parsed(r.record, sock.stream))
    ensures r.Malformed? ==>
      ParseRecord(old(sock.stream)) == None || IsCut(sock.network, old(sock.calls) + 1, |old(sock.stream)|)
    ensures IsCut(sock.network, old(sock.calls) + 1, |old(sock.stream)|) ==> !r.Got?
    ensures !IsCut(sock.network, old(sock.calls) + 1, |old(sock.stream)|) ==>
      var last := RecordCalls(sock.network, old(sock.calls), old(sock.stream));
      && (r.Raised? <==> RaisedSince(sock.network, old(sock.calls), last))
      && (!r.Raised? ==> sock.calls == last)
  {
    hide Read16, PayloadCalls;
    ghost var start, first := sock.stream, sock.calls;
    var header := sock.Recv(RECORD_HEADER);
    if header.None? {
      return Raised;
    }
    if |header.value| != RECORD_HEADER {
      return Malformed;
    }
    var length := Read16(header.value[3..5]);
    assert start[..5] == header.value && start[5..] == sock.stream;
    assert start[3..5] == header.value[3..5];
    if length > MAX_RECORD_BYTES {
      return Malformed;
    }
    var payload := ReadPayload(sock, length);
    match payload
    case Failed => return Raised;
    case Ended => return Malformed;
    case Whole(bytes) =>
      assert start[5..5 + length] == bytes && start[5 + length..] == sock.stream;
      return Got(Record(header.value[0], bytes));
  }

  // ----- selection -----

  /** `(selected, conclusive)`. */
  datatype Verdict = Verdict(selected: bool, conclusive: bool)

  const INCONCLUSIVE := Verdict(false, false)
  const REFUSED := Verdict(false, true)

  /** Whether the collected handshake bytes hold a whole message. */
  predicate WholeMessage(h: Bytes) {
    |h| >= HANDSHAKE_HEADER && |h| >= Read24(h[1..4]) + HANDSHAKE_HEADER
  }

  /** The verdict on collected bytes that hold a whole message: does it select the suite? */
  function Judge(h: Bytes, suite: nat): Verdict
    requires WholeMessage(h)
  {
    var selected := ServerHelloSuite(h[..Read24(h[1..4]) + HANDSHAKE_HEADER]) == Some(suite);
    Verdict(selected, selected)
  }

  /** What `_read_selected_suite` answers on a stream, with `left` records to go. `expired` is the
      clock: whether the deadline has passed when it is looked at with `left` records to go. */
  function Scan(stream: Bytes, suite: nat, handshake: Bytes, left: nat, expired: nat -> bool): Verdict
    decreases left
  {
    if left == 0 then INCONCLUSIVE else
      var parsed := ParseRecord(stream);
      if parsed.None? then INCONCLUSIVE
      else if parsed.value.record.kind == ALERT then REFUSED
      else if parsed.value.record.kind != HANDSHAKE then INCONCLUSIVE
      else
        var h := handshake + parsed.value.record.payload;
        if WholeMessage(h) then Judge(h, suite)
        else if |h| >= HANDSHAKE_HEADER && expired(left) then INCONCLUSIVE
        else Scan(parsed.value.rest, suite, h, left - 1, expired)
  }

  /** No call raises and no header is cut for as long as `Scan` goes on reading. How payloads are
      chunked does not matter. */
  ghost predicate Calm(network: Network, calls: nat, stream: Bytes, handshake: Bytes, left: nat, expired: nat -> bool)
    decreases left
  {
    left == 0 ||
      (var last, parsed := RecordCalls(network, calls, stream), ParseRecord(stream);
       && !IsCut(network, calls + 1, |stream|) && !RaisedSince(network, calls, last)
       && (parsed.Some? && parsed.value.record.kind == HANDSHAKE ==>
             var h := handshake + parsed.value.record.payload;
             WholeMessage(h) || (|h| >= HANDSHAKE_HEADER && expired(left))
             || Calm(network, last, parsed.value.rest, h, left - 1, expired)))
  }

  /** What is answered on a socket: an exception or a cut header makes it inconclusive. */
  ghost function Observed(network: Network, calls: nat, stream: Bytes, suite: nat, expired: nat -> bool): Verdict {
    if Calm(network, calls, stream, [], MAX_RECORDS, expired) then Scan(stream, suite, [], MAX_RECORDS, expired)
    else INCONCLUSIVE
  }

  /** `_read_selected_suite`; exceptions are suppressed one level up and count as inconclusive. */
  method ReadSelectedSuite(sock: Socket, suite: nat, expired: nat -> bool) returns (verdict: Verdict)
    modifies sock`stream, sock`calls
    ensures verdict == Observed(sock.network, old(sock.calls), old(sock.stream), suite, expired)
  {
    hide ParseRecord, ServerHelloSuite, Read24, RecordCalls, IsCut, RaisedSince;
    var handshake: Bytes := [];
    ghost var start, first := sock.stream, sock.calls;
    for turn := 0 to MAX_RECORDS
      invariant Scan(start, suite, [], MAX_RECORDS, expired)
             == Scan(sock.stream, suite, handshake, MAX_RECORDS - turn, expired)
      invariant Calm(sock.network, first, start, [], MAX_RECORDS, expired)
            <==> Calm(sock.network, sock.calls, sock.stream, handshake, MAX_RECORDS - turn, expired)
    {
      var r := ReadRecord(sock);
      if !r.Got? {
        return INCONCLUSIVE;
      }
      if r.record.kind == ALERT {
        return REFUSED;
      }
      if r.record.kind != HANDSHAKE {
        return INCONCLUSIVE;
      }
      handshake := handshake + r.record.payload;
      if |handshake| < HANDSHAKE_HEADER {
        continue;
      }
      var length := Read24(handshake[1..4]) + HANDSHAKE_HEADER;
      if |handshake| < length {
        if expired(MAX_RECORDS - turn) {
          return INCONCLUSIVE;
        }
        continue;
      }
      var selected := ServerHelloSuite(handshake[..length]);
      return Verdict(selected == Some(suite), selected.Some? && selected == Some(suite));
    }
    return INCONCLUSIVE;
  }

  // ----- independence from fragmentation -----

  predicate Fragments(fragments: seq<Bytes>) {
    forall i :: 0 <= i < |fragments| ==> |fragments[i]| <= MAX_RECORD_BYTES
  }

  /** One record on the wire, with any record version. */
  function PrintRecord(kind: nat, version: (nat, nat), payload: Bytes): Bytes
    requires |payload| <= MAX_RECORD_BYTES
  {
    [kind, version.0, version.1] + U16(|payload|) + payload
  }

  /** Handshake records, each with its own record version. */
  function PrintHandshake(versions: seq<(nat, nat)>, fragments: seq<Bytes>): Bytes
    requires Fragments(fragments) && |versions| == |fragments|
  {
    if fragments == [] then []
    else PrintRecord(HANDSHAKE, versions[0], fragments[0]) + PrintHandshake(versions[1..], fragments[1..])
  }

  function Concat(fragments: seq<Bytes>): Bytes {
    if fragments == [] then [] else fragments[0] + Concat(fragments[1..])
  }

  lemma PrintedRecordIsParsed(kind: nat, version: (nat, nat), payload: Bytes, rest: Bytes)
    requires |payload| <= MAX_RECORD_BYTES
    ensures ParseRecord(PrintRecord(kind, version, payload) + rest) == Some(Parsed(Record(kind, payload), rest))
  {
    var stream := PrintRecord(kind, version, payload) + rest;
    assert stream[3..5] == U16(|payload|);
    Read16Inverts(|payload|, [0, 0]);
    assert stream[5..5 + |payload|] == payload && stream[5 + |payload|..] == rest;
  }

  /** Whatever is parsed is a printed record, whole and within the limit. */
  lemma ParsedRecordIsPrinted(stream: Bytes, parsed: Parsed) returns (version: (nat, nat))
    requires IsBytes(stream) && ParseRecord(stream) == Some(parsed)
    ensures |parsed.record.payload| <= 16384
    ensures stream == PrintRecord(parsed.record.kind, version, parsed.record.payload) + parsed.rest
  {
    hide U16, Read16;
    version := (stream[1], stream[2]);
    assert IsBytes(stream[3..5]);
    Read16Inverts(0, stream[3..5]);
    var payload := parsed.record.payload;
    assert stream == stream[..3] + stream[3..5] + stream[5..5 + |payload|] + stream[5 + |payload|..];
    assert stream[..3] == [stream[0], stream[1], stream[2]];
  }

  lemma WholeStaysWhole(h: Bytes, more: Bytes, suite: nat)
    requires WholeMessage(h)
    ensures WholeMessage(h + more) && Judge(h + more, suite) == Judge(h, suite)
  {
    var n := Read24(h[1..4]) + HANDSHAKE_HEADER;
    assert (h + more)[1..4] == h[1..4] && (h + more)[..n] == h[..n];
  }

  ghost predicate NeverExpires(expired: nat -> bool) {
    forall left :: !expired(left)
  }

  /** Reading handshake records depends on their concatenation only. */
  lemma {:induction false} ScanConcat(
      versions: seq<(nat, nat)>, fragments: seq<Bytes>, tail: Bytes, suite: nat, handshake: Bytes, left: nat, expired: nat -> bool)
    requires Fragments(fragments) && |versions| == |fragments| <= left && NeverExpires(expired) && !WholeMessage(handshake)
    ensures var h := handshake + Concat(fragments);
      Scan(PrintHandshake(versions, fragments) + tail, suite, handshake, left, expired)
        == if WholeMessage(h) then Judge(h, suite) else Scan(tail, suite, h, left - |fragments|, expired)
    decreases |fragments|
  {
    hide ParseRecord, PrintRecord, WholeMessage, Judge;
    if fragments == [] {
      assert PrintHandshake(versions, fragments) + tail == tail && handshake + Concat(fragments) == handshake;
    } else {
      var first, rest := fragments[0], fragments[1..];
      var stream := PrintHandshake(versions[1..], rest) + tail;
      assert PrintHandshake(versions, fragments) + tail == PrintRecord(HANDSHAKE, versions[0], first) + stream;
      PrintedRecordIsParsed(HANDSHAKE, versions[0], first, stream);
      var h := handshake + first;
      assert h + Concat(rest) == handshake + Concat(fragments);
      if WholeMessage(h) {
        WholeStaysWhole(h, Concat(rest), suite);
      } else {
        ScanConcat(versions[1..], rest, tail, suite, h, left - 1, expired);
      }
    }
  }

  /** Fragmentation independence: however the same handshake bytes are split over one to eight
      records, the verdict is the same. */
  lemma FragmentationIndependence(
      versions: seq<(nat, nat)>, a: seq<Bytes>, versions': seq<(nat, nat)>, b: seq<Bytes>, suite: nat, expired: nat -> bool)
    requires Fragments(a) && Fragments(b) && |versions| == |a| <= 8 && |versions'| == |b| <= 8
    requires Concat(a) == Concat(b) && NeverExpires(expired)
    ensures Scan(PrintHandshake(versions, a), suite, [], MAX_RECORDS, expired)
         == Scan(PrintHandshake(versions', b), suite, [], MAX_RECORDS, expired)
    ensures WholeMessage(Concat(a)) ==>
      Scan(PrintHandshake(versions, a), suite, [], MAX_RECORDS, expired) == Judge(Concat(a), suite)
  {
    assert PrintHandshake(versions, a) + [] == PrintHandshake(versions, a);
    assert PrintHandshake(versions', b) + [] == PrintHandshake(versions', b);
    assert [] + Concat(a) == Concat(a) && [] + Concat(b) == Concat(b);
    ScanConcat(versions, a, [], suite, [], MAX_RECORDS, expired);
    ScanConcat(versions', b, [], suite, [], MAX_RECORDS, expired);
    assert ParseRecord([]) == None;
  }

  /** A ServerHello for the offered suite is recognised in any fragmentation, whatever follows it. */
  lemma OfferedSuiteIsSelected(
      versions: seq<(nat, nat)>, fragments: seq<Bytes>, tail: Bytes, p: Hello, more: Bytes, expired: nat -> bool)
    requires Fragments(fragments) && |versions| == |fragments| <= 8 && NeverExpires(expired)
    requires ValidHello(p) && Concat(fragments) == PrintHello(p) + more
    ensures Scan(PrintHandshake(versions, fragments) + tail, p.suite, [], MAX_RECORDS, expired) == Verdict(true, true)
  {
    var h := PrintHello(p);
    PrintedHelloIsRead(p);
    assert [] + Concat(fragments) == Concat(fragments);
    assert WholeMessage(h) && h[..Read24(h[1..4]) + HANDSHAKE_HEADER] == h;
    WholeStaysWhole(h, more, p.suite);
    ScanConcat(versions, fragments, tail, p.suite, [], MAX_RECORDS, expired);
  }

  /** On sockets too: two peers that send the same handshake bytes, in any records and any chunks,
      get the same verdict, provided no call raises and no header is cut. */
  lemma SocketFragmentation(
      n: Network, c: nat, versions: seq<(nat, nat)>, a: seq<Bytes>,
      n': Network, c': nat, versions': seq<(nat, nat)>, b: seq<Bytes>, suite: nat, expired: nat -> bool)
    requires Fragments(a) && Fragments(b) && |versions| == |a| <= 8 && |versions'| == |b| <= 8
    requires Concat(a) == Concat(b) && NeverExpires(expired)
    requires Calm(n, c, PrintHandshake(versions, a), [], MAX_RECORDS, expired)
    requires Calm(n', c', PrintHandshake(versions', b), [], MAX_RECORDS, expired)
    ensures Observed(n, c, PrintHandshake(versions, a), suite, expired)
         == Observed(n', c', PrintHandshake(versions', b), suite, expired)
  {
    FragmentationIndependence(versions, a, versions', b, suite, expired);
  }

  /** In particular a single record with a ServerHello for the offered suite is selected however its
      payload is chunked, as long as its header arrives whole and no call raises. */
  lemma AnyPayloadChunking(
      network: Network, calls: nat, version: (nat, nat), p: Hello, more: Bytes, tail: Bytes, expired: nat -> bool)
    requires ValidHello(p) && |PrintHello(p) + more| <= MAX_RECORD_BYTES && NeverExpires(expired)
    requires forall c :: !network.raises(c)
    requires !IsCut(network, calls + 1, |PrintRecord(HANDSHAKE, version, PrintHello(p) + more) + tail|)
    ensures Observed(network, calls, PrintRecord(HANDSHAKE, version, PrintHello(p) + more) + tail, p.suite, expired)
         == Verdict(true, true)
  {
    hide PrintHello, ValidHello, ServerHelloSuite, Scan, ParseRecord, RecordCalls;
    var payload := PrintHello(p) + more;
    var stream := PrintRecord(HANDSHAKE, version, payload) + tail;
    assert PrintHandshake([version], [payload]) == PrintRecord(HANDSHAKE, version, payload) by {
      assert PrintHandshake([version][1..], [payload][1..]) == [];
    }
    assert Concat([payload]) == payload by {
      assert Concat([payload][1..]) == [] && payload + [] == payload;
    }
    OfferedSuiteIsSelected([version], [payload], tail, p, more, expired);
    PrintedRecordIsParsed(HANDSHAKE, version, payload, tail);
    HelloIsWhole(p, more);
    assert [] + payload == payload;
  }

  lemma HelloIsWhole(p: Hello, more: Bytes)
    requires ValidHello(p)
    ensures WholeMessage(PrintHello(p) + more)
  {
    var h := PrintHello(p);
    var body := p.head + [|p.session|] + p.session + U16(p.suite) + p.rest;
    assert h[1..4] == U24(|body|) && h[4..] == body;
    Read24Inverts(|body|, [0, 0, 0]);
    assert (h + more)[1..4] == h[1..4];
  }

  /** What a stream must start with for a verdict: at most `left` handshake records. */
  datatype Evidence = Evidence(fragments: seq<Bytes>, rest: Bytes)

  /** The stream is the given handshake records, in their own record versions, and then the rest. */
  predicate StartsWith(stream: Bytes, e: Evidence)
    decreases |e.fragments|
  {
    if e.fragments == [] then stream == e.rest
    else
      var parsed := ParseRecord(stream);
      && parsed.Some? && parsed.value.record == Record(HANDSHAKE, e.fragments[0])
      && StartsWith(parsed.value.rest, Evidence(e.fragments[1..], e.rest))
  }

  /** These records leave the verdict open: no whole message yet, and no deadline passed where it is looked at. */
  predicate Undecided(handshake: Bytes, fragments: seq<Bytes>, left: nat, expired: nat -> bool)
    decreases |fragments|
  {
    fragments == [] ||
      (var h := handshake + fragments[0];
       && left > 0 && !WholeMessage(h) && !(|h| >= HANDSHAKE_HEADER && expired(left))
       && Undecided(h, fragments[1..], left - 1, expired))
  }

  /** Every conclusive verdict has its reason on the wire: handshake records whose bytes hold a whole
      ServerHello with exactly the offered suite, or an alert before any whole message. */
  lemma {:induction false} ConclusiveIsJustified(
      stream: Bytes, suite: nat, handshake: Bytes, left: nat, expired: nat -> bool) returns (e: Evidence)
    requires Scan(stream, suite, handshake, left, expired).conclusive && !WholeMessage(handshake)
    ensures StartsWith(stream, e) && |e.fragments| <= left
    ensures var v := Scan(stream, suite, handshake, left, expired); var h := handshake + Concat(e.fragments);
      && (v.selected ==> WholeMessage(h) && Judge(h, suite).selected)
      && (!v.selected ==>
          !WholeMessage(h) && ParseRecord(e.rest).Some? && ParseRecord(e.rest).value.record.kind == ALERT)
    ensures var n := |e.fragments|;
      if Scan(stream, suite, handshake, left, expired).selected
      then n > 0 && Undecided(handshake, e.fragments[..n - 1], left, expired)
      else n < left && Undecided(handshake, e.fragments, left, expired)
    decreases left
  {
    hide ParseRecord, WholeMessage, ServerHelloSuite;
    var parsed := ParseRecord(stream).value;
    if parsed.record.kind == ALERT {
      e := Evidence([], stream);
      assert handshake + Concat([]) == handshake;
    } else {
      var h := handshake + parsed.record.payload;
      if WholeMessage(h) {
        e := Evidence([parsed.record.payload], parsed.rest);
        OneFragment(stream, parsed, e);
        assert h + [] == h;
      } else {
        var later := ConclusiveIsJustified(parsed.rest, suite, h, left - 1, expired);
        e := Evidence([parsed.record.payload] + later.fragments, later.rest);
        MoreFragments(stream, parsed, later);
        var n := |later.fragments|;
        assert n > 0 ==> e.fragments[..n][1..] == later.fragments[..n - 1];
      }
      assert handshake + Concat(e.fragments) == h + Concat(e.fragments[1..]);
    }
  }

  lemma OneFragment(stream: Bytes, parsed: Parsed, e: Evidence)
    requires ParseRecord(stream) == Some(parsed) && parsed.record.kind == HANDSHAKE
    requires e == Evidence([parsed.record.payload], parsed.rest)
    ensures StartsWith(stream, e) && Concat(e.fragments) == parsed.record.payload && Concat(e.fragments[1..]) == []
  {
    assert e.fragments[1..] == [];
  }

  lemma MoreFragments(stream: Bytes, parsed: Parsed, later: Evidence)
    requires ParseRecord(stream) == Some(parsed) && parsed.record.kind == HANDSHAKE
    requires StartsWith(parsed.rest, later)
    ensures var fragments := [parsed.record.payload] + later.fragments;
      && StartsWith(stream, Evidence(fragments, later.rest)) && fragments[1..] == later.fragments
      && Concat(fragments) == parsed.record.payload + Concat(later.fragments)
  {
    var fragments := [parsed.record.payload] + later.fragments;
    assert fragments[1..] == later.fragments;
  }

  /** Records that leave the verdict open are passed over. */
  lemma {:induction false} UndecidedIsPassed(
      stream: Bytes, e: Evidence, suite: nat, handshake: Bytes, left: nat, expired: nat -> bool)
    requires StartsWith(stream, e) && |e.fragments| <= left && Undecided(handshake, e.fragments, left, expired)
    ensures Scan(stream, suite, handshake, left, expired)
         == Scan(e.rest, suite, handshake + Concat(e.fragments), left - |e.fragments|, expired)
    decreases |e.fragments|
  {
    hide ParseRecord, WholeMessage, Judge;
    if e.fragments == [] {
      assert handshake + Concat([]) == handshake;
    } else {
      var h, parsed := handshake + e.fragments[0], ParseRecord(stream).value;
      UndecidedIsPassed(parsed.rest, Evidence(e.fragments[1..], e.rest), suite, h, left - 1, expired);
      assert h + Concat(e.fragments[1..]) == handshake + Concat(e.fragments);
    }
  }

  /** An alert comes before the verdict is decided otherwise. */
  ghost predicate IsAlerted(stream: Bytes, expired: nat -> bool) {
    exists e :: StartsWith(stream, e) && |e.fragments| < 8 && Undecided([], e.fragments, MAX_RECORDS, expired)
                && ParseRecord(e.rest).Some? && ParseRecord(e.rest).value.record.kind == 21
  }

  /** A suite is refused conclusively exactly when an alert comes before the verdict is decided otherwise. */
  lemma RefusedIff(stream: Bytes, suite: nat, expired: nat -> bool)
    ensures Scan(stream, suite, [], MAX_RECORDS, expired) == Verdict(false, true) <==> IsAlerted(stream, expired)
  {
    hide ParseRecord, StartsWith, Undecided, Concat;
    if Scan(stream, suite, [], MAX_RECORDS, expired) == Verdict(false, true) {
      var e := ConclusiveIsJustified(stream, suite, [], MAX_RECORDS, expired);
    }
    if IsAlerted(stream, expired) {
      var e :| StartsWith(stream, e) && |e.fragments| < 8 && Undecided([], e.fragments, MAX_RECORDS, expired)
               && ParseRecord(e.rest).Some? && ParseRecord(e.rest).value.record.kind == 21;
      UndecidedIsPassed(stream, e, suite, [], MAX_RECORDS, expired);
    }
  }

  /** So on a socket: not selected and conclusive means that nothing disturbed the reading and an alert
      came before any whole message. */
  lemma ObservedRefusalIff(network: Network, calls: nat, stream: Bytes, suite: nat, expired: nat -> bool)
    ensures Observed(network, calls, stream, suite, expired) == Verdict(false, true) <==>
      Calm(network, calls, stream, [], MAX_RECORDS, expired) && IsAlerted(stream, expired)
  {
    hide Calm, Scan, IsAlerted;
    RefusedIff(stream, suite, expired);
  }

  /** The ordinary refusal: an alert record after handshake records without a whole message, or after none. */
  lemma AlertIsRefusal(versions: seq<(nat, nat)>, fragments: seq<Bytes>, version: (nat, nat), payload: Bytes, tail: Bytes,
                       suite: nat, expired: nat -> bool)
    requires Fragments(fragments) && |versions| == |fragments| < 8 && |payload| <= MAX_RECORD_BYTES
    requires NeverExpires(expired) && !WholeMessage(Concat(fragments))
    ensures Scan(PrintHandshake(versions, fragments) + PrintRecord(21, version, payload) + tail, suite, [], MAX_RECORDS, expired)
         == Verdict(false, true)
  {
    hide ParseRecord, PrintRecord, WholeMessage, PrintHandshake;
    var rest := PrintRecord(21, version, payload) + tail;
    assert PrintHandshake(versions, fragments) + PrintRecord(21, version, payload) + tail
        == PrintHandshake(versions, fragments) + rest;
    assert [] + Concat(fragments) == Concat(fragments);
    assert !WholeMessage([]) by { NothingIsWhole(); }
    ScanConcat(versions, fragments, rest, suite, [], MAX_RECORDS, expired);
    PrintedRecordIsParsed(21, version, payload, tail);
  }

  lemma NothingIsWhole()
    ensures !WholeMessage([])
  {
  }

  /** A fatal handshake_failure refuses, byte for byte, however its payload is chunked. */
  lemma FatalAlertIsRefusal(network: Network, calls: nat, suite: nat, expired: nat -> bool)
    requires forall c :: !network.raises(c)
    requires !IsCut(network, calls + 1, 7)
    ensures Observed(network, calls, [0x15, 0x03, 0x01, 0x00, 0x02, 0x02, 0x28], suite, expired) == Verdict(false, true)
  {
    var stream: Bytes := [0x15, 0x03, 0x01, 0x00, 0x02, 0x02, 0x28];
    assert stream[3..5] == [0, 2] && stream[5..7] == [2, 0x28] && stream[7..] == [];
    assert ParseRecord(stream) == Some(Parsed(Record(0x15, [2, 0x28]), []));
  }

  /** A selected suite was named by a ServerHello in the collected bytes, and by nothing else. */
  lemma SelectedIsServerHello(stream: Bytes, suite: nat, expired: nat -> bool) returns (e: Evidence, p: Hello)
    requires IsBytes(stream) && Scan(stream, suite, [], MAX_RECORDS, expired).selected
    ensures StartsWith(stream, e) && |e.fragments| <= 8
    ensures ValidHello(p) && p.suite == suite && PrintHello(p) <= Concat(e.fragments)
    ensures 0 < |e.fragments| && Undecided([], e.fragments[..|e.fragments| - 1], MAX_RECORDS, expired)
  {
    hide ParseRecord, ServerHelloSuite, Scan, StartsWith, PrintHello, ValidHello, Concat, Undecided;
    SelectedIsConclusive(stream, suite, [], MAX_RECORDS, expired);
    e := ConclusiveIsJustified(stream, suite, [], MAX_RECORDS, expired);
    var h := Concat(e.fragments);
    assert [] + h == h;
    FragmentsAreBytes(stream, e);
    var message := h[..Read24(h[1..4]) + HANDSHAKE_HEADER];
    p := ReadHelloIsPrinted(message, suite);
  }

  /** Records of which the last completes a message are judged by it. */
  lemma {:induction false} CompletedIsJudged(
      stream: Bytes, e: Evidence, suite: nat, handshake: Bytes, left: nat, expired: nat -> bool)
    requires StartsWith(stream, e) && 0 < |e.fragments| <= left
    requires Undecided(handshake, e.fragments[..|e.fragments| - 1], left, expired)
    requires WholeMessage(handshake + Concat(e.fragments))
    ensures Scan(stream, suite, handshake, left, expired) == Judge(handshake + Concat(e.fragments), suite)
    decreases |e.fragments|
  {
    hide ParseRecord, WholeMessage, Judge;
    var n, h, parsed := |e.fragments|, handshake + e.fragments[0], ParseRecord(stream).value;
    assert h + Concat(e.fragments[1..]) == handshake + Concat(e.fragments);
    if n == 1 {
      assert e.fragments[1..] == [] && h + [] == h;
    } else {
      assert e.fragments[..n - 1][0] == e.fragments[0] && e.fragments[..n - 1][1..] == e.fragments[1..][..n - 2];
      CompletedIsJudged(parsed.rest, Evidence(e.fragments[1..], e.rest), suite, h, left - 1, expired);
    }
  }

  /** The first complete message, no deadline missed before, is a ServerHello naming the suite. */
  ghost predicate IsAnswered(stream: Bytes, suite: nat, expired: nat -> bool) {
    exists e, p :: StartsWith(stream, e) && 0 < |e.fragments| <= 8
                   && Undecided([], e.fragments[..|e.fragments| - 1], MAX_RECORDS, expired)
                   && ValidHello(p) && p.suite == suite && PrintHello(p) <= Concat(e.fragments)
  }

  /** A suite is selected exactly when the first complete message is a ServerHello naming it. */
  lemma SelectedIff(stream: Bytes, suite: nat, expired: nat -> bool)
    requires IsBytes(stream)
    ensures Scan(stream, suite, [], MAX_RECORDS, expired).selected <==> IsAnswered(stream, suite, expired)
  {
    hide ParseRecord, ServerHelloSuite, StartsWith, PrintHello, ValidHello, Concat, Undecided, Scan;
    if Scan(stream, suite, [], MAX_RECORDS, expired).selected {
      var e, p := SelectedIsServerHello(stream, suite, expired);
      assert e.fragments[..|e.fragments| - 1] == e.fragments[..|e.fragments| - 1];
    }
    if IsAnswered(stream, suite, expired) {
      var e, p :| StartsWith(stream, e) && 0 < |e.fragments| <= 8
                  && Undecided([], e.fragments[..|e.fragments| - 1], MAX_RECORDS, expired)
                  && ValidHello(p) && p.suite == suite && PrintHello(p) <= Concat(e.fragments);
      var h := Concat(e.fragments);
      assert h == PrintHello(p) + h[|PrintHello(p)|..] && [] + h == h;
      HelloIsJudged(p, h[|PrintHello(p)|..]);
      CompletedIsJudged(stream, e, suite, [], MAX_RECORDS, expired);
    }
  }

  lemma HelloIsJudged(p: Hello, more: Bytes)
    requires ValidHello(p)
    ensures WholeMessage(PrintHello(p) + more) && Judge(PrintHello(p) + more, p.suite) == Verdict(true, true)
  {
    var h := PrintHello(p);
    PrintedHelloIsRead(p);
    assert WholeMessage(h) && h[..Read24(h[1..4]) + HANDSHAKE_HEADER] == h;
    WholeStaysWhole(h, more, p.suite);
  }

  lemma {:induction false} SelectedIsConclusive(
      stream: Bytes, suite: nat, handshake: Bytes, left: nat, expired: nat -> bool)
    ensures Scan(stream, suite, handshake, left, expired).selected ==>
      Scan(stream, suite, handshake, left, expired).conclusive
    decreases left
  {
    if left == 0 || ParseRecord(stream).None? {
    } else {
      var parsed := ParseRecord(stream).value;
      SelectedIsConclusive(parsed.rest, suite, handshake + parsed.record.payload, left - 1, expired);
    }
  }

  lemma {:induction false} FragmentsAreBytes(stream: Bytes, e: Evidence)
    requires IsBytes(stream) && StartsWith(stream, e)
    ensures IsBytes(Concat(e.fragments))
    decreases |e.fragments|
  {
    if e.fragments == [] {
    } else {
      var parsed := ParseRecord(stream).value;
      FragmentsAreBytes(parsed.rest, Evidence(e.fragments[1..], e.rest));
    }
  }

  // ----- the offer -----

  /** What the one-suite ClientHello offers. */
  datatype Offer = Offer(version: nat, suites: seq<nat>, serverName: Bytes)

  /** The server_name extension, section 3 of RFC 6066; None where `struct.pack` overflows. */
  function ServerNameExtension(name: Bytes): Option<Bytes> {
    if |name| + 5 >= 0x1_0000 then None
    else Some(U16(0) + U16(|name| + 5) + U16(|name| + 3) + [0] + U16(|name|) + name)
  }

  function ClientHelloBody(name: Bytes, version: nat, suite: nat): Option<Bytes>
    requires version < 0x1_0000 && suite < 0x1_0000
  {
    var extension := ServerNameExtension(name);
    if extension.None? || |extension.value| >= 0x1_0000 then None
    else Some(U16(version) + Random() + [0] + U16(2) + U16(suite) + [1, 0]
              + U16(|extension.value|) + extension.value)
  }

  /** The fixed random: 32 times the letter Q. */
  function Random(): (b: Bytes)
    ensures |b| == 32
  {
    seq(32, i => 0x51)
  }

  /** `_client_hello` for a name already in its IDNA form. */
  function ClientHello(name: Bytes, version: nat, suite: nat): Option<Bytes>
    requires version < 0x1_0000 && suite < 0x1_0000
  {
    var body := ClientHelloBody(name, version, suite);
    if body.None? || |body.value| + HANDSHAKE_HEADER >= 0x1_0000 then None
    else
      var handshake := [CLIENT_HELLO] + U24(|body.value|) + body.value;
      Some([HANDSHAKE, 3, 1] + U16(|handshake|) + handshake)
  }

  function Suites(b: Bytes): seq<nat>
    decreases |b|
  {
    if |b| < 2 then [] else [Read16(b[..2])] + Suites(b[2..])
  }

  /** A reference ClientHello reader after section 7.4.1.2 of RFC 5246: one record, one handshake
      message, no session, the null compression, one extension holding one host name. */
  function ParseClientHello(stream: Bytes): Option<Offer> {
    var parsed := ParseRecord(stream);
    if parsed.None? || parsed.value.record.kind != HANDSHAKE || parsed.value.rest != [] then None else
      var h := parsed.value.record.payload;
      if |h| < HANDSHAKE_HEADER || h[0] != CLIENT_HELLO || Read24(h[1..4]) != |h| - HANDSHAKE_HEADER then None
      else ParseClientHelloBody(h[4..])
  }

  function ParseClientHelloBody(body: Bytes): Option<Offer> {
    if |body| < 37 || body[34] != 0 then None else
      var n := Read16(body[35..37]);
      if n % 2 != 0 || |body| < 37 + n + 4 || body[37 + n..39 + n] != [1, 0] then None else
        var extensions := body[41 + n..];
        if Read16(body[39 + n..41 + n]) != |extensions| then None else
          var name := ParseServerName(extensions);
          if name.None? then None else Some(Offer(Read16(body[..2]), Suites(body[37..37 + n]), name.value))
  }

  function ParseServerName(e: Bytes): Option<Bytes> {
    if |e| < 9 || Read16(e[..2]) != 0 || Read16(e[2..4]) != |e| - 4 || Read16(e[4..6]) != |e| - 6
       || e[6] != 0 || Read16(e[7..9]) != |e| - 9
    then None else Some(e[9..])
  }

  lemma ServerNameIsParsed(name: Bytes)
    requires |name| + 5 < 0x1_0000
    ensures ParseServerName(ServerNameExtension(name).value) == Some(name)
  {
    hide Read16, U16;
    var e := ServerNameExtension(name).value;
    var zero: Bytes := [0, 0];
    assert e[..2] == U16(0) && e[2..4] == U16(|name| + 5) && e[4..6] == U16(|name| + 3);
    assert e[7..9] == U16(|name|) && e[9..] == name;
    Read16Inverts(0, zero);
    Read16Inverts(|name| + 5, zero);
    Read16Inverts(|name| + 3, zero);
    Read16Inverts(|name|, zero);
  }

  lemma BodyIsParsed(name: Bytes, version: nat, suite: nat)
    requires version < 0x1_0000 && suite < 0x1_0000 && ClientHelloBody(name, version, suite).Some?
    ensures ParseClientHelloBody(ClientHelloBody(name, version, suite).value) == Some(Offer(version, [suite], name))
  {
    hide Read16, U16, ServerNameExtension, ParseServerName;
    var body, e := ClientHelloBody(name, version, suite).value, ServerNameExtension(name).value;
    var zero: Bytes := [0, 0];
    NameFits(name);
    ServerNameIsParsed(name);
    Read16Inverts(2, zero);
    Read16Inverts(version, zero);
    Read16Inverts(suite, zero);
    Read16Inverts(|e|, zero);
    assert body[..2] == U16(version) && body[34] == 0 && body[35..37] == U16(2) && body[37..39] == U16(suite);
    assert body[39..41] == [1, 0] && body[41..43] == U16(|e|) && body[43..] == e;
    OneSuite(U16(suite));
  }

  lemma NameFits(name: Bytes)
    requires ServerNameExtension(name).Some?
    ensures |name| + 5 < 0x1_0000
  {
  }

  lemma OneSuite(b: Bytes)
    requires |b| == 2
    ensures Suites(b) == [Read16(b)]
  {
    assert b[..2] == b && Suites(b[2..]) == [];
  }

  /** The hello offers exactly one suite, under the wanted version, and names the host. */
  lemma OffersOneSuite(name: Bytes, version: nat, suite: nat)
    requires version < 0x1_0000 && suite < 0x1_0000
    ensures ClientHello(name, version, suite).Some? <==> |name| <= 65479
    ensures |name| <= 16328 ==>
      ParseClientHello(ClientHello(name, version, suite).value) == Some(Offer(version, [suite], name))
  {
    if |name| <= 16328 {
      var body := ClientHelloBody(name, version, suite).value;
      OfferIsParsed(name, version, suite, body);
    }
  }

  lemma OfferIsParsed(name: Bytes, version: nat, suite: nat, body: Bytes)
    requires version < 0x1_0000 && suite < 0x1_0000 && |name| <= 16328
    requires ClientHelloBody(name, version, suite) == Some(body)
    ensures ClientHello(name, version, suite).Some?
    ensures ParseClientHello(ClientHello(name, version, suite).value) == Some(Offer(version, [suite], name))
  {
    assert |body| == |name| + 52;
    hide ClientHelloBody, ParseClientHelloBody, ParseRecord, Read24, U24;
    var handshake := [CLIENT_HELLO] + U24(|body|) + body;
    var hello := ClientHello(name, version, suite).value;
    assert hello == PrintRecord(HANDSHAKE, (3, 1), handshake) + [];
    PrintedRecordIsParsed(HANDSHAKE, (3, 1), handshake, []);
    assert handshake[1..4] == U24(|body|) && handshake[4..] == body;
    Read24Inverts(|body|, [0, 0, 0]);
    BodyIsParsed(name, version, suite);
  }

  /** `select_excluded_suite` on a connected socket: the hello goes out, then the answer is read. None
      stands for the error of `struct.pack` on a name too long for the hello. */
  method SelectExcludedSuite(sock: Socket, name: Bytes, version: nat, suite: nat, expired: nat -> bool)
    returns (verdict: Option<Verdict>)
    requires version < 0x1_0000 && suite < 0x1_0000
    modifies sock
    ensures verdict.None? <==> ClientHello(name, version, suite).None?
    ensures verdict.None? ==> sock.sent == old(sock.sent)
    ensures verdict.Some? && sock.network.raises(old(sock.calls) + 1) ==> verdict.value == INCONCLUSIVE
    ensures verdict.Some? && !sock.network.raises(old(sock.calls) + 1) ==>
      && sock.sent == old(sock.sent) + ClientHello(name, version, suite).value
      && verdict.value == Observed(sock.network, old(sock.calls) + 1, old(sock.stream), suite, expired)
  {
    hide ClientHello, Observed;
    var hello := ClientHello(name, version, suite);
    if hello.None? {
      return None;
    }
    var sent := sock.SendAll(hello.value);
    if !sent {
      return Some(INCONCLUSIVE);
    }
    var answer := ReadSelectedSuite(sock, suite, expired);
    return Some(answer);
  }

  // ----- the sweep over the excluded suites -----


  datatype NativeSuite = NativeSuite(name: string, wireId: nat)

  const EXCLUDED_SUITES: seq<NativeSuite> := [
    NativeSuite("RC4-MD5", 0x0004), NativeSuite("RC4-SHA", 0x0005),
    NativeSuite("DES-CBC3-SHA", 0x000A), NativeSuite("DES-CBC-SHA", 0x0015)]

  /** The names of the suites a server selected, in the order of the table. */
  function SelectedNames(suites: seq<NativeSuite>, answer: nat -> Verdict): seq<string> {
    if suites == [] then []
    else SelectedNames(suites[..|suites| - 1], answer)
         + if answer(suites[|suites| - 1].wireId).selected then [suites[|suites| - 1].name] else []
  }

  method ProbeExcludedSuites(answer: nat -> Verdict) returns (accepted: seq<string>, incomplete: bool)
    ensures accepted == SelectedNames(EXCLUDED_SUITES, answer)
    ensures incomplete <==> exists i :: 0 <= i < |EXCLUDED_SUITES| && answer(EXCLUDED_SUITES[i].wireId) == INCONCLUSIVE
  {
    accepted, incomplete := [], false;
    for i := 0 to |EXCLUDED_SUITES|
      invariant accepted == SelectedNames(EXCLUDED_SUITES[..i], answer)
      invariant incomplete <==> exists k :: 0 <= k < i && answer(EXCLUDED_SUITES[k].wireId) == INCONCLUSIVE
    {
      var suite := EXCLUDED_SUITES[i];
      var verdict := answer(suite.wireId);
      assert EXCLUDED_SUITES[..i + 1][..i] == EXCLUDED_SUITES[..i];
      if verdict.selected {
        accepted := accepted + [suite.name];
      } else if !verdict.conclusive {
        incomplete := true;
      }
    }
    assert EXCLUDED_SUITES[..|EXCLUDED_SUITES|] == EXCLUDED_SUITES;
  }

  function Report(selected: bool, name: string): seq<string> {
    if selected then [name] else []
  }

  /** The whole sweep, suite by suite under the number that appendix A.5 of RFC 5246 and its predecessors assign it. */
  lemma SweepReports(answer: nat -> Verdict)
    ensures SelectedNames(EXCLUDED_SUITES, answer)
         == Report(answer(4).selected, "RC4-MD5") + Report(answer(5).selected, "RC4-SHA")
            + Report(answer(10).selected, "DES-CBC3-SHA") + Report(answer(21).selected, "DES-CBC-SHA")
    ensures (exists i :: 0 <= i < |EXCLUDED_SUITES| && answer(EXCLUDED_SUITES[i].wireId) == INCONCLUSIVE)
       <==> INCONCLUSIVE in [answer(4), answer(5), answer(10), answer(21)]
  {
    var s := EXCLUDED_SUITES;
    assert s[..4] == s && s[..4][..3] == s[..3] && s[..3][..2] == s[..2] && s[..2][..1] == s[..1] && s[..1][..0] == [];
    assert SelectedNames(s[..1], answer) == Report(answer(4).selected, "RC4-MD5");
    assert SelectedNames(s[..2], answer) == SelectedNames(s[..1], answer) + Report(answer(5).selected, "RC4-SHA");
    assert SelectedNames(s[..3], answer) == SelectedNames(s[..2], answer) + Report(answer(10).selected, "DES-CBC3-SHA");
    assert SelectedNames(s[..4], answer) == SelectedNames(s[..3], answer) + Report(answer(21).selected, "DES-CBC-SHA");
    assert s[0].wireId == 4 && s[1].wireId == 5 && s[2].wireId == 10 && s[3].wireId == 21;
  }
}
