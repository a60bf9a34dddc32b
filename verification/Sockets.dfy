/** A connected socket, and big-endian integers on the wire. */
module Sockets {
  import opened Numbers
  import opened Wrappers

  type Bytes = seq<nat>

  predicate IsBytes(b: Bytes) {
    forall i :: 0 <= i < |b| ==> b[i] < 256
  }

  /** How the network behaves: how many bytes each call may deliver, and which calls raise. Calls
      of one socket are numbered from 1 on. */
  datatype Network = Network(sizes: nat -> nat, raises: nat -> bool)

  /** How many bytes a call delivers when it is asked for n and so many are available. */
  function Delivery(network: Network, call: nat, n: nat, available: nat): (k: nat)
    ensures k <= Min(n, available) && (k == 0 <==> Min(n, available) == 0)
  {
    var most := Min(n, available);
    if most == 0 then 0 else 1 + network.sizes(call) % most
  }

  /** Some call after number `from`, up to number `until`, raised. */
  ghost predicate RaisedSince(network: Network, from: nat, until: nat) {
    exists c :: from < c <= until && network.raises(c)
  }

  /** `stream` is everything the peer sends before it closes, `sent` what went out to it. */
  class Socket {
    const network: Network
    var stream: Bytes
    var sent: Bytes
    var calls: nat

    constructor (network: Network, stream: Bytes)
      ensures this.network == network && this.stream == stream && sent == [] && calls == 0
    {
      this.network := network;
      this.stream := stream;
      sent := [];
      calls := 0;
    }

    /** `recv(n)`: between one and n bytes while there are any, none at the end, or an exception. */
    method Recv(n: nat) returns (chunk: Option<Bytes>)
      requires n > 0
      modifies `stream, `calls
      ensures calls == old(calls) + 1 && (chunk.None? <==> network.raises(calls))
      ensures chunk.None? ==> stream == old(stream)
      ensures chunk.Some? ==>
        old(stream) == chunk.value + stream && |chunk.value| == Delivery(network, calls, n, |old(stream)|)
    {
      calls := calls + 1;
      if network.raises(calls) {
        return None;
      }
      var k := Delivery(network, calls, n, |stream|);
      chunk := Some(stream[..k]);
      stream := stream[k..];
    }

    /** `sendall(bytes)`: everything goes out, or an exception is raised. */
    method SendAll(bytes: Bytes) returns (ok: bool)
      modifies `sent, `calls
      ensures calls == old(calls) + 1 && (ok <==> !network.raises(calls))
      ensures ok ==> sent == old(sent) + bytes
    {
      calls := calls + 1;
      ok := !network.raises(calls);
      if ok {
        sent := sent + bytes;
      }
    }
  }

  function U16(n: nat): (b: Bytes)
    requires n < 0x1_0000
    ensures |b| == 2 && IsBytes(b)
  {
    [n / 256, n % 256]
  }

  function U24(n: nat): (b: Bytes)
    requires n < 0x100_0000
    ensures |b| == 3 && IsBytes(b)
  {
    U16(n / 256) + [n % 256]
  }

  function U32(n: nat): (b: Bytes)
    requires n < 0x1_0000_0000
    ensures |b| == 4 && IsBytes(b)
  {
    U24(n / 256) + [n % 256]
  }

  function Read16(b: Bytes): nat
    requires |b| == 2
  {
    b[0] * 256 + b[1]
  }

  function Read24(b: Bytes): nat
    requires |b| == 3
  {
    Read16(b[..2]) * 256 + b[2]
  }

  function Read32(b: Bytes): nat
    requires |b| == 4
  {
    Read24(b[..3]) * 256 + b[3]
  }

  lemma Read16Inverts(n: nat, b: Bytes)
    requires n < 0x1_0000 && |b| == 2 && IsBytes(b)
    ensures Read16(U16(n)) == n
    ensures Read16(b) < 0x1_0000 && U16(Read16(b)) == b
  {
    HighAndLow(b[0], b[1]);
  }

  lemma Read24Inverts(n: nat, b: Bytes)
    requires n < 0x100_0000 && |b| == 3 && IsBytes(b)
    ensures Read24(U24(n)) == n
    ensures Read24(b) < 0x100_0000 && U24(Read24(b)) == b
  {
    assert U24(n)[..2] == U16(n / 256);
    Read16Inverts(n / 256, b[..2]);
    HighAndLow(Read16(b[..2]), b[2]);
    assert b == b[..2] + [b[2]];
  }

  lemma HighAndLow(high: nat, low: nat)
    requires low < 256
    ensures (high * 256 + low) / 256 == high && (high * 256 + low) % 256 == low
  {
  }

  lemma Read32Inverts(n: nat)
    requires n < 0x1_0000_0000
    ensures Read32(U32(n)) == n
  {
    assert U32(n)[..3] == U24(n / 256);
    Read24Inverts(n / 256, [0, 0, 0]);
  }

  lemma Read32IsPrinted(b: Bytes)
    requires |b| == 4 && IsBytes(b)
    ensures Read32(b) < 0x1_0000_0000 && U32(Read32(b)) == b
  {
    Read24Inverts(0, b[..3]);
    HighAndLow(Read24(b[..3]), b[3]);
    assert b == b[..3] + [b[3]];
  }
}
