/** The 5-to-8-bit regrouper of the address decoder, for any pair of widths. */
module ConvertBits {
  import opened Wrappers
  import opened Bits
  import opened Positional

  predicate InRange(data: seq<int>, width: nat) {
    forall i :: 0 <= i < |data| ==> 0 <= data[i] < Pow2(width)
  }

  /** What a symbol string denotes: all its bits read as one big-endian number. */
  function Number(data: seq<int>, width: nat): nat
    requires InRange(data, width)
  {
    Value(Pow2(width), data)
  }

  /** What regrouping means: the same bits in groups of `to`, the incomplete last group dropped. */
  function Regroup(data: seq<int>, from: nat, to: nat): (r: Option<seq<nat>>)
    requires from > 0 && to > 0
  {
    if !InRange(data, from) then None else
      var total := |data| * from;
      var rest := total % to;
      if rest >= from || Low(Number(data, from), rest) != 0 then None
      else Some(Fixed(Pow2(to), total / to, Shr(Number(data, from), rest)))
  }

  /** `out` carries the bits of `data` and nothing but fewer than `from` zero bits is left over. */
  predicate Canonical(data: seq<int>, from: nat, to: nat, out: seq<nat>) {
    var padding := |data| * from - |out| * to;
    && InRange(data, from) && IsDigits(Pow2(to), out)
    && 0 <= padding < from && padding < to
    && Number(data, from) == Shl(Value(Pow2(to), out), padding)
  }

  /** `out` holds every bit of the accumulator above its `bits` lowest ones. */
  predicate Drained(out: seq<nat>, accumulator: nat, bits: nat, to: nat) {
    IsDigits(Pow2(to), out) && Value(Pow2(to), out) == Shr(accumulator, bits)
  }

  method ConvertBits(data: seq<int>, from: nat, to: nat) returns (r: Option<seq<nat>>)
    requires from > 0 && to > 0
    ensures r == Regroup(data, from, to)
  {
    var accumulator: nat, bits: nat, out: seq<nat> := 0, 0, [];
    for i := 0 to |data|
      invariant InRange(data[..i], from) && accumulator == Number(data[..i], from)
      invariant bits < to && |out| * to + bits == i * from
      invariant Drained(out, accumulator, bits, to)
    {
      var value := data[i];
      if value < 0 || Shr(value, from) != 0 {
        NotBelow(value, from);
        return None;
      }
      Below(value, from);
      assert data[..i + 1] == data[..i] + [value];
      ValueOfAppend(Pow2(from), data[..i], value);
      OrFills(from, accumulator, value);
      ShiftedIn(out, accumulator, from, value, bits, to);
      OneMore(i, from);
      accumulator := Or(Shl(accumulator, from), value);
      bits := bits + from;
      while bits >= to
        invariant |out| * to + bits == (i + 1) * from
        invariant Drained(out, accumulator, bits, to)
      {
        bits := bits - to;
        TakeDigit(out, accumulator, bits, to);
        OneMore(|out|, to);
        out := out + [Low(Shr(accumulator, bits), to)];
      }
    }
    assert data[..|data|] == data;
    LastGroup(accumulator, bits, to);
    TotalBits(|data| * from, to, |out|, bits);
    FixedOfValue(Pow2(to), out);
    if bits >= from || Low(Shl(accumulator, to - bits), to) != 0 {
      return None;
    }
    return Some(out);
  }

  lemma OneMore(n: nat, k: nat)
    ensures (n + 1) * k == n * k + k
  {
  }

  lemma TotalBits(total: nat, to: nat, groups: nat, bits: nat)
    requires bits < to && groups * to + bits == total
    ensures total / to == groups && total % to == bits
  {
    DivMod(groups, to, bits);
  }

  lemma NotBelow(v: int, width: nat)
    requires v < 0 || Shr(v, width) != 0
    ensures !(0 <= v < Pow2(width))
  {
  }

  lemma Below(v: nat, width: nat)
    requires Shr(v, width) == 0
    ensures v < Pow2(width)
  {
    DivisionTheorem(Pow2(width), v);
  }

  /** Shifting `from` fresh bits in leaves the bits above the unconsumed ones as they were. */
  lemma ShiftedIn(out: seq<nat>, accumulator: nat, from: nat, value: nat, bits: nat, to: nat)
    requires value < Pow2(from) && Drained(out, accumulator, bits, to)
    ensures Drained(out, Join(from, accumulator, value), bits + from, to)
  {
    Pow2Adds(bits, from);
    DivDiv(Join(from, accumulator, value), Pow2(from), Pow2(bits));
    DivMod(accumulator, Pow2(from), value);
  }

  lemma ShiftTwice(n: nat, bits: nat, to: nat)
    ensures Shr(n, bits + to) == Shr(Shr(n, bits), to)
  {
    Pow2Adds(to, bits);
    DivDiv(n, Pow2(bits), Pow2(to));
  }

  /** The digit the inner loop appends. */
  lemma TakeDigit(out: seq<nat>, accumulator: nat, bits: nat, to: nat)
    requires Drained(out, accumulator, bits + to, to)
    ensures Drained(out + [Low(Shr(accumulator, bits), to)], accumulator, bits, to)
  {
    var n := Shr(accumulator, bits);
    ShiftTwice(accumulator, bits, to);
    AppendRemainder(out, to, n);
  }

  lemma AppendRemainder(out: seq<nat>, to: nat, n: nat)
    requires IsDigits(Pow2(to), out) && Value(Pow2(to), out) == Shr(n, to)
    ensures IsDigits(Pow2(to), out + [Low(n, to)]) && Value(Pow2(to), out + [Low(n, to)]) == n
  {
    DivisionTheorem(Pow2(to), n);
    ValueOfAppend(Pow2(to), out, Low(n, to));
  }

  /** The final mask test asks whether the unconsumed bits are all zero. */
  lemma LastGroup(accumulator: nat, bits: nat, to: nat)
    requires bits < to
    ensures Low(Shl(accumulator, to - bits), to) == 0 <==> Low(accumulator, bits) == 0
  {
    Pow2Adds(bits, to - bits);
    ScaledRemainder(accumulator, Pow2(bits), Pow2(to - bits));
    if accumulator % Pow2(bits) > 0 {
      MulPositive(accumulator % Pow2(bits), Pow2(to - bits));
    }
  }

  /** The regrouper accepts exactly the canonically padded strings. */
  lemma RegroupIsCanonical(data: seq<int>, from: nat, to: nat, out: seq<nat>)
    requires from > 0 && to > 0
    ensures Regroup(data, from, to) == Some(out) <==> Canonical(data, from, to, out)
  {
    if Canonical(data, from, to, out) {
      var padding := |data| * from - |out| * to;
      TotalBits(|data| * from, to, |out|, padding);
      DivMod(Value(Pow2(to), out), Pow2(padding), 0);
      FixedOfValue(Pow2(to), out);
    }
    if Regroup(data, from, to) == Some(out) {
      RegroupAccepts(data, from, to, out);
    }
  }

  lemma RegroupAccepts(data: seq<int>, from: nat, to: nat, out: seq<nat>)
    requires from > 0 && to > 0 && Regroup(data, from, to) == Some(out)
    ensures Canonical(data, from, to, out)
  {
    var n, total := Number(data, from), |data| * from;
    var rest, groups := total % to, total / to;
    DivisionTheorem(to, total);
    DivisionTheorem(Pow2(rest), n);
    assert n < Pow(Pow2(to), groups) * Pow2(rest) by {
      ValueBounded(Pow2(from), data);
      PowOfPow2(from, |data|);
      PowOfPow2(to, groups);
      Pow2Adds(to * groups, rest);
      assert from * |data| == to * groups + rest;
    }
    QuotientBelow(Pow2(rest), n, Pow(Pow2(to), groups));
    ValueOfFixed(Pow2(to), groups, n / Pow2(rest));
  }

  lemma {:induction false} PowOfPow2(width: nat, n: nat)
    ensures Pow(Pow2(width), n) == Pow2(width * n)
  {
    if n > 0 {
      PowOfPow2(width, n - 1);
      assert width * n == width * (n - 1) + width;
      Pow2Adds(width * (n - 1), width);
    } else {
      assert width * n == 0;
    }
  }

  // ----- the padded direction -----

  /** How many groups of `to` bits hold n groups of `from` bits. */
  function PaddedLength(n: nat, from: nat, to: nat): nat
    requires to > 0
  {
    (n * from + to - 1) / to
  }

  /** Zero-padded regrouping, the encoder of BIP-173 (section "Segwit address format"). */
  function Pad(bytes: seq<nat>, from: nat, to: nat): (data: seq<nat>)
    requires to > 0
  {
    var n := PaddedLength(|bytes|, from, to);
    var padding := n * to - |bytes| * from;
    Fixed(Pow2(to), n, if padding < 0 then 0 else Value(Pow2(from), bytes) * Pow2(padding))
  }

  lemma PaddedLengthBounds(n: nat, from: nat, to: nat)
    requires to > 0
    ensures 0 <= PaddedLength(n, from, to) * to - n * from < to
  {
    DivisionTheorem(to, n * from + to - 1);
  }

  /** The padded string is canonical: regrouping it gives the bytes back. */
  lemma PadIsCanonical(bytes: seq<nat>, from: nat, to: nat)
    requires 0 < to <= from && IsDigits(Pow2(from), bytes)
    ensures Canonical(Pad(bytes, from, to), to, from, bytes)
  {
    var n := PaddedLength(|bytes|, from, to);
    PaddedLengthBounds(|bytes|, from, to);
    var padding := n * to - |bytes| * from;
    var v := Value(Pow2(from), bytes);
    ValueBounded(Pow2(from), bytes);
    PowOfPow2(from, |bytes|);
    PowOfPow2(to, n);
    assert from * |bytes| + padding == to * n;
    Pow2Adds(from * |bytes|, padding);
    StrictScale(v, Pow2(from * |bytes|), Pow2(padding));
    ValueOfFixed(Pow2(to), n, v * Pow2(padding));
  }

  lemma StrictScale(a: nat, b: nat, c: nat)
    requires a < b && c > 0
    ensures a * c < b * c
  {
  }

  /** Only the padded string is canonical for given bytes. */
  lemma CanonicalIsPad(data: seq<int>, from: nat, to: nat, bytes: seq<nat>)
    requires 0 < to <= from && Canonical(data, to, from, bytes)
    ensures data == Pad(bytes, from, to)
  {
    var n := PaddedLength(|bytes|, from, to);
    PaddedLengthBounds(|bytes|, from, to);
    OneLength(|data|, n, to, |bytes| * from);
    FixedOfValue(Pow2(to), data);
  }

  /** Only one number of groups leaves less than a group of padding. */
  lemma OneLength(m: nat, n: nat, to: nat, bits: nat)
    requires 0 <= m * to - bits < to && 0 <= n * to - bits < to
    ensures m == n
  {
    if m < n {
      MulMonotone(m + 1, n, to);
      OneMore(m, to);
      assert false;
    } else if n < m {
      MulMonotone(n + 1, m, to);
      OneMore(n, to);
      assert false;
    }
  }

  /** Regrouping and zero-padded regrouping are inverse to each other. */
  lemma RegroupInvertsPad(data: seq<int>, bytes: seq<nat>, from: nat, to: nat)
    requires 0 < to <= from && IsDigits(Pow2(from), bytes)
    ensures Regroup(data, to, from) == Some(bytes) <==> data == Pad(bytes, from, to)
  {
    RegroupIsCanonical(data, to, from, bytes);
    PadIsCanonical(bytes, from, to);
    if Canonical(data, to, from, bytes) {
      CanonicalIsPad(data, from, to, bytes);
    }
  }

  /** No two accepted strings regroup to the same bytes. */
  lemma RegroupInjective(a: seq<int>, b: seq<int>, from: nat, to: nat)
    requires 0 < from <= to
    requires Regroup(a, from, to).Some? && Regroup(a, from, to) == Regroup(b, from, to)
    ensures a == b
  {
    var out := Regroup(a, from, to).value;
    RegroupIsCanonical(a, from, to, out);
    RegroupInvertsPad(a, out, to, from);
    RegroupInvertsPad(b, out, to, from);
  }
}
