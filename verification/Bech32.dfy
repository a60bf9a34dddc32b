/** The BCH checksum over GF(32) and the string layer of bech32 and bech32m. */
module Bech32 {
  import opened Wrappers
  import opened Bits
  import opened Positional
  import opened Alphabets

  const CHARSET: string := "qpzry9x8gf2tvdw0s3jn54khce6mua7l"
  const GENERATOR: seq<nat> := [0x3B6A57B2, 0x26508E6D, 0x1EA119FA, 0x3D4233DD, 0x2A1462B3]
  const SYMBOLS: nat := 32
  const CHECKSUM_LENGTH: nat := 6

  datatype Encoding = Bech32 | Bech32m

  function Constant(encoding: Encoding): nat {
    if encoding.Bech32? then 1 else 0x2BC830A3
  }

  /** The inner loop: the generator rows picked by the low `bits` bits of `top`. */
  function Mix(checksum: nat, top: nat, bits: nat): nat
    requires bits <= |GENERATOR|
  {
    if bits == 0 then checksum
    else Xor(Mix(checksum, top, bits - 1), Row(top, bits - 1))
  }

  function Row(top: nat, bit: nat): nat
    requires bit < |GENERATOR|
  {
    if Low(Shr(top, bit), 1) != 0 then GENERATOR[bit] else 0
  }

  /** One symbol of the checksum recurrence. */
  function Step(checksum: nat, value: nat): nat {
    Mix(Xor(Shl(Low(checksum, 25), 5), value), Shr(checksum, 25), |GENERATOR|)
  }

  function ResidueFrom(checksum: nat, values: seq<nat>): nat {
    if values == [] then checksum
    else Step(ResidueFrom(checksum, values[..|values| - 1]), values[|values| - 1])
  }

  function Residue(values: seq<nat>): nat {
    ResidueFrom(1, values)
  }

  method Polymod(values: seq<nat>) returns (checksum: nat)
    ensures checksum == Residue(values)
  {
    hide Xor, Shl, Low, Shr, GENERATOR;
    GeneratorRows();
    checksum := 1;
    for i := 0 to |values|
      invariant checksum == Residue(values[..i])
    {
      var value := values[i];
      var top := Shr(checksum, 25);
      ghost var before := checksum;
      checksum := Xor(Shl(Low(checksum, 25), 5), value);
      ghost var shifted := checksum;
      for bit := 0 to |GENERATOR|
        invariant checksum == Mix(shifted, top, bit)
      {
        checksum := Xor(checksum, if Low(Shr(top, bit), 1) != 0 then GENERATOR[bit] else 0);
      }
      assert values[..i + 1][..i] == values[..i];
      assert checksum == Step(before, value);
    }
    assert values[..|values|] == values;
  }

  lemma GeneratorRows()
    ensures |GENERATOR| == 5
  {
  }

  // ----- algebra of one step -----

  lemma {:induction false} MixIsXor(x: nat, top: nat, bits: nat)
    requires bits <= |GENERATOR|
    ensures Mix(x, top, bits) == Xor(x, Mix(0, top, bits))
  {
    if bits > 0 {
      MixIsXor(x, top, bits - 1);
      XorAssociates(x, Mix(0, top, bits - 1), Row(top, bits - 1));
    } else {
      XorCommutes(x, 0);
    }
  }

  function Feedback(top: nat): nat {
    Mix(0, top, |GENERATOR|)
  }

  lemma StepIsXor(c: nat, v: nat)
    ensures Step(c, v) == Xor(Xor(Shl(Low(c, 25), 5), v), Feedback(Shr(c, 25)))
  {
    hide Xor, Mix, Shl, Low, Shr;
    MixIsXor(Xor(Shl(Low(c, 25), 5), v), Shr(c, 25), |GENERATOR|);
  }

  lemma LowShr(n: nat, k: nat)
    ensures n == Join(k, Shr(n, k), Low(n, k)) && Low(n, k) < Pow2(k)
  {
    DivisionTheorem(Pow2(k), n);
  }

  lemma JoinParts(k: nat, a: nat, x: nat)
    requires x < Pow2(k)
    ensures Shr(Join(k, a, x), k) == a && Low(Join(k, a, x), k) == x
  {
    DivMod(a, Pow2(k), x);
  }

  /** Exclusive or reaches the low and the high part of a number separately. */
  lemma XorParts(k: nat, m: nat, n: nat)
    ensures Shr(Xor(m, n), k) == Xor(Shr(m, k), Shr(n, k))
    ensures Low(Xor(m, n), k) == Xor(Low(m, k), Low(n, k))
  {
    hide Xor;
    LowShr(m, k);
    LowShr(n, k);
    XorSplits(k, Shr(m, k), Low(m, k), Shr(n, k), Low(n, k));
    JoinParts(k, Xor(Shr(m, k), Shr(n, k)), Xor(Low(m, k), Low(n, k)));
  }

  const WORD_BITS: nat := 30

  lemma XorBelow(k: nat, x: nat, y: nat)
    requires x < Pow2(k) && y < Pow2(k)
    ensures Xor(x, y) < Pow2(k)
  {
    XorSplits(k, 0, x, 0, y);
  }

  lemma Widths()
    ensures Pow2(5) == 32 && Pow2(25) == 33554432 && Pow2(WORD_BITS) == 1073741824
  {
    Pow2Adds(10, 15);
    assert Pow2(10) == 1024 && Pow2(15) == 32768;
    Pow2Adds(5, 25);
  }

  lemma {:induction false} MixBelow(x: nat, top: nat, bits: nat)
    requires bits <= |GENERATOR| && x < Pow2(WORD_BITS)
    ensures Mix(x, top, bits) < Pow2(WORD_BITS)
  {
    hide Xor;
    if bits == 0 {
    } else {
      MixBelow(x, top, bits - 1);
      Widths();
      XorBelow(WORD_BITS, Mix(x, top, bits - 1), Row(top, bits - 1));
    }
  }

  /** The checksum register never outgrows 30 bits. */
  lemma StepBelow(c: nat, v: nat)
    requires v < Pow2(WORD_BITS)
    ensures Step(c, v) < Pow2(WORD_BITS)
  {
    hide Xor, Mix;
    Widths();
    LowShr(c, 25);
    XorBelow(WORD_BITS, Shl(Low(c, 25), 5), v);
    MixBelow(Xor(Shl(Low(c, 25), 5), v), Shr(c, 25), |GENERATOR|);
  }

  // ----- the low five bits of the feedback determine the five bits that caused it -----

  /** Bit j of the generator row for bit i of the top symbol. */
  predicate Tap(i: nat, j: nat)
    requires i < |GENERATOR|
  {
    BitAt(GENERATOR[i], j)
  }

  lemma MixBit(top: nat, bits: nat, j: nat)
    requires bits < |GENERATOR|
    ensures BitAt(Mix(0, top, bits + 1), j) == (BitAt(Mix(0, top, bits), j) != (BitAt(top, bits) && Tap(bits, j)))
  {
    hide Low, Shr, Xor;
    XorBitAt(Mix(0, top, bits), Row(top, bits), j);
    ShrBit(top, bits);
    NoBits(j);
  }

  lemma {:induction false} NoBits(j: nat)
    ensures !BitAt(0, j)
  {
    if j == 0 {
    } else {
      NoBits(j - 1);
    }
  }

  /** Each bit of the feedback is a parity of the top symbol's bits. */
  lemma FeedbackBit(t: nat, j: nat)
    ensures BitAt(Feedback(t), j) ==
      (((((BitAt(t, 0) && Tap(0, j)) != (BitAt(t, 1) && Tap(1, j))) != (BitAt(t, 2) && Tap(2, j)))
      != (BitAt(t, 3) && Tap(3, j))) != (BitAt(t, 4) && Tap(4, j)))
  {
    hide BitAt, Tap;
    NoBits(j);
    MixBit(t, 0, j);
    MixBit(t, 1, j);
    MixBit(t, 2, j);
    MixBit(t, 3, j);
    MixBit(t, 4, j);
  }

  /** The five parities that make up the low symbol. */
  lemma LowFeedback(t: nat)
    ensures BitAt(Feedback(t), 0) == ((BitAt(t, 1) != BitAt(t, 3)) != BitAt(t, 4))
    ensures BitAt(Feedback(t), 1) == ((BitAt(t, 0) != BitAt(t, 2)) != BitAt(t, 4))
    ensures BitAt(Feedback(t), 2) == (BitAt(t, 1) != BitAt(t, 3))
    ensures BitAt(Feedback(t), 3) == ((BitAt(t, 1) != BitAt(t, 2)) != BitAt(t, 3))
    ensures BitAt(Feedback(t), 4) == (((BitAt(t, 0) != BitAt(t, 2)) != BitAt(t, 3)) != BitAt(t, 4))
  {
    hide BitAt, Tap, Feedback;
    FeedbackBit(t, 0);
    FeedbackBit(t, 1);
    FeedbackBit(t, 2);
    FeedbackBit(t, 3);
    FeedbackBit(t, 4);
    Taps();
  }

  lemma Taps()
    ensures !Tap(0, 0) && Tap(0, 1) && !Tap(0, 2) && !Tap(0, 3) && Tap(0, 4)
    ensures Tap(1, 0) && !Tap(1, 1) && Tap(1, 2) && Tap(1, 3) && !Tap(1, 4)
    ensures !Tap(2, 0) && Tap(2, 1) && !Tap(2, 2) && Tap(2, 3) && Tap(2, 4)
    ensures Tap(3, 0) && !Tap(3, 1) && Tap(3, 2) && Tap(3, 3) && Tap(3, 4)
    ensures Tap(4, 0) && Tap(4, 1) && !Tap(4, 2) && !Tap(4, 3) && Tap(4, 4)
  {
  }

  lemma LowBit(n: nat, j: nat)
    requires j < 5
    ensures BitAt(Low(n, 5), j) == BitAt(n, j)
  {
    hide BitAt;
    LowShr(n, 5);
    JoinBitAt(5, Shr(n, 5), Low(n, 5), j);
  }

  /** The low symbol of the feedback determines the symbol that caused it. */
  lemma LowFeedbackInjective(t: nat, u: nat)
    requires t < 32 && u < 32 && Low(Feedback(t), 5) == Low(Feedback(u), 5)
    ensures t == u
  {
    hide BitAt, Feedback, Low, Pow2;
    Widths();
    forall j: nat | j < 5
      ensures BitAt(Feedback(t), j) == BitAt(Feedback(u), j)
    {
      LowBit(Feedback(t), j);
      LowBit(Feedback(u), j);
    }
    LowFeedback(t);
    LowFeedback(u);
    forall j | 0 <= j < 5
      ensures BitAt(t, j) == BitAt(u, j)
    {
      if j == 0 {} else if j == 1 {} else if j == 2 {} else if j == 3 {} else {}
    }
    EqualBits(5, t, u);
  }

  lemma TopIsSymbol(c: nat)
    requires c < Pow2(WORD_BITS)
    ensures Shr(c, 25) < 32
  {
    Widths();
  }

  /** The low symbol of a step is that of the feedback, shifted by the incoming value alone. */
  lemma StepLowSymbol(c: nat, v: nat)
    ensures Xor(v, Step(c, v)) == Xor(Shl(Low(c, 25), 5), Feedback(Shr(c, 25)))
    ensures Low(Xor(v, Step(c, v)), 5) == Low(Feedback(Shr(c, 25)), 5)
    ensures Shr(Xor(v, Step(c, v)), 5) == Xor(Low(c, 25), Shr(Feedback(Shr(c, 25)), 5))
  {
    hide Step, Xor, Feedback;
    var s, f := Shl(Low(c, 25), 5), Feedback(Shr(c, 25));
    StepIsXor(c, v);
    XorCommutes(s, v);
    XorAssociates(v, s, f);
    XorCancels(v, Xor(s, f));
    XorParts(5, s, f);
    JoinParts(5, Low(c, 25), 0);
    XorZero(Low(f, 5));
  }

  lemma XorZero(x: nat)
    ensures Xor(0, x) == x && Xor(x, 0) == x
  {
  }

  /** A step loses nothing: distinct registers stay distinct under the same symbol. */
  lemma StepInjective(c: nat, d: nat, v: nat)
    requires c < Pow2(WORD_BITS) && d < Pow2(WORD_BITS) && Step(c, v) == Step(d, v)
    ensures c == d
  {
    hide Step, Xor, Feedback;
    var f, g := Feedback(Shr(c, 25)), Feedback(Shr(d, 25));
    StepLowSymbol(c, v);
    StepLowSymbol(d, v);
    TopIsSymbol(c);
    TopIsSymbol(d);
    LowFeedbackInjective(Shr(c, 25), Shr(d, 25));
    XorCommutes(Low(c, 25), Shr(f, 5));
    XorCommutes(Low(d, 25), Shr(f, 5));
    XorCancels(Shr(f, 5), Low(c, 25));
    XorCancels(Shr(f, 5), Low(d, 25));
    LowShr(c, 25);
    LowShr(d, 25);
  }

  /** A change below the top symbol leaves the top symbol alone. */
  lemma ChangeBelowTop(z: nat, p: nat)
    requires p < Pow2(25)
    ensures Shr(Xor(z, p), 25) == Shr(z, 25) && Low(Xor(z, p), 25) == Xor(Low(z, 25), p)
  {
    hide Xor, Pow2, Shr, Low;
    XorParts(25, z, p);
    JoinParts(25, 0, p);
    XorZero(Shr(z, 25));
  }

  /** Shifting a changed register by one symbol and taking a symbol in. */
  lemma ChangeShifts(r: nat, p: nat, a: nat)
    requires a < SYMBOLS
    ensures Xor(Shl(Xor(r, p), 5), a) == Xor(Shl(r, 5), p * SYMBOLS + a)
  {
    hide Xor, Pow2;
    Widths();
    XorZero(0);
    XorZero(a);
    XorZero(p);
    XorSplits(5, r, 0, p, 0);
    XorSplits(5, p, 0, 0, a);
    assert Shl(Xor(r, p), 5) == Xor(Shl(r, 5), Shl(p, 5));
    assert p * SYMBOLS + a == Xor(Shl(p, 5), a);
    XorAssociates(Shl(r, 5), Shl(p, 5), a);
  }

  /** A change below the top symbol moves up one symbol and touches nothing else. */
  lemma StepCarries(z: nat, p: nat, a: nat)
    requires p < Pow2(25) && a < SYMBOLS
    ensures Step(Xor(z, p), a) == Xor(Step(z, 0), p * SYMBOLS + a)
  {
    hide Step, Xor, Feedback, Pow2, Shr, Low, Shl;
    var s, n, f := Shl(Low(z, 25), 5), p * SYMBOLS + a, Feedback(Shr(z, 25));
    ChangeBelowTop(z, p);
    ChangeShifts(Low(z, 25), p, a);
    StepIsXor(Xor(z, p), a);
    StepIsXor(z, 0);
    XorZero(s);
    XorAssociates(s, n, f);
    XorCommutes(n, f);
    XorAssociates(s, f, n);
  }

  // ----- whole strings -----

  predicate Symbols(values: seq<nat>) {
    IsDigits(SYMBOLS, values)
  }

  lemma {:induction false} ResidueBelow(c: nat, values: seq<nat>)
    requires c < Pow2(WORD_BITS) && IsDigits(Pow2(WORD_BITS), values)
    ensures ResidueFrom(c, values) < Pow2(WORD_BITS)
  {
    hide Step, Pow2;
    if values == [] {
    } else {
      ResidueBelow(c, values[..|values| - 1]);
      StepBelow(ResidueFrom(c, values[..|values| - 1]), values[|values| - 1]);
    }
  }

  lemma SymbolsAreWords(values: seq<nat>)
    requires Symbols(values)
    ensures IsDigits(Pow2(WORD_BITS), values)
  {
    Widths();
  }

  lemma {:induction false} ResidueConcat(c: nat, a: seq<nat>, b: seq<nat>)
    ensures ResidueFrom(c, a + b) == ResidueFrom(ResidueFrom(c, a), b)
  {
    hide Step;
    if b == [] {
      assert a + b == a;
    } else {
      assert (a + b)[..|a + b| - 1] == a + b[..|b| - 1];
      ResidueConcat(c, a, b[..|b| - 1]);
    }
  }

  /** Up to six symbols enter the register unchanged, on top of what it held. */
  lemma {:induction false} ResidueCarries(c: nat, values: seq<nat>)
    requires |values| <= CHECKSUM_LENGTH && Symbols(values)
    ensures ResidueFrom(c, values) == Xor(ResidueFrom(c, Zeros(|values|)), Value(SYMBOLS, values))
  {
    hide Step, Xor, Pow2;
    if values == [] {
      XorZero(c);
    } else {
      var init, zeros := values[..|values| - 1], Zeros(|values| - 1);
      ResidueCarries(c, init);
      assert Zeros(|values|)[..|values| - 1] == zeros;
      assert Value(SYMBOLS, init) < Pow2(25) by {
        ValueBounded(SYMBOLS, init);
        SymbolPowers(|init|);
      }
      StepCarries(ResidueFrom(c, zeros), Value(SYMBOLS, init), values[|values| - 1]);
    }
  }

  lemma SymbolPowers(n: nat)
    ensures n <= 5 ==> Pow(SYMBOLS, n) <= Pow2(25)
    ensures Pow(SYMBOLS, CHECKSUM_LENGTH) == Pow2(WORD_BITS)
  {
    Widths();
    assert Pow(32, 2) == 1024;
    assert Pow(32, 4) == 1048576;
  }

  /** The BIP-173 checksum for a register value: the six symbols that bring it to `constant`. */
  function ChecksumFrom(c: nat, constant: nat): (symbols: seq<nat>)
    ensures |symbols| == CHECKSUM_LENGTH
  {
    Fixed(SYMBOLS, CHECKSUM_LENGTH, Xor(ResidueFrom(c, Zeros(CHECKSUM_LENGTH)), constant))
  }

  /** Exactly one six-symbol suffix verifies, for any prefix and any constant. */
  lemma ChecksumUnique(c: nat, constant: nat, suffix: seq<nat>)
    requires c < Pow2(WORD_BITS) && constant < Pow2(WORD_BITS)
    requires |suffix| == CHECKSUM_LENGTH && Symbols(suffix)
    ensures Symbols(ChecksumFrom(c, constant))
    ensures ResidueFrom(c, suffix) == constant <==> suffix == ChecksumFrom(c, constant)
  {
    hide ResidueFrom, Xor, Pow2, Fixed, Value;
    var z := ResidueFrom(c, Zeros(CHECKSUM_LENGTH));
    assert z < Pow2(WORD_BITS) by {
      SymbolsAreWords(Zeros(CHECKSUM_LENGTH));
      ResidueBelow(c, Zeros(CHECKSUM_LENGTH));
    }
    ResidueCarries(c, suffix);
    XorBelow(WORD_BITS, z, constant);
    SymbolPowers(CHECKSUM_LENGTH);
    ValueOfFixed(SYMBOLS, CHECKSUM_LENGTH, Xor(z, constant));
    FixedOfValue(SYMBOLS, suffix);
    XorCancels(z, Value(SYMBOLS, suffix));
    XorCancels(z, constant);
  }

  /** Distinct registers stay distinct through any common tail. */
  lemma {:induction false} ResidueInjective(c: nat, d: nat, values: seq<nat>)
    requires c < Pow2(WORD_BITS) && d < Pow2(WORD_BITS) && Symbols(values)
    requires ResidueFrom(c, values) == ResidueFrom(d, values)
    ensures c == d
  {
    hide Step, Pow2;
    if values == [] {
    } else {
      var init := values[..|values| - 1];
      SymbolsAreWords(init);
      ResidueBelow(c, init);
      ResidueBelow(d, init);
      StepInjective(ResidueFrom(c, init), ResidueFrom(d, init), values[|values| - 1]);
      ResidueInjective(c, d, init);
    }
  }

  /** Two symbol strings that differ, and only inside six consecutive positions from k on. */
  predicate Burst<T(==)>(a: seq<T>, b: seq<T>, k: nat) {
    && |a| == |b| && a != b
    && forall i :: 0 <= i < |a| && !(k <= i < k + CHECKSUM_LENGTH) ==> a[i] == b[i]
  }

  lemma BurstSplits<T>(a: seq<T>, b: seq<T>, k: nat) returns (e: nat)
    requires Burst(a, b, k)
    ensures k <= e <= |a| == |b| && e - k <= CHECKSUM_LENGTH
    ensures a[..k] == b[..k] && a[e..] == b[e..] && a[k..e] != b[k..e]
    ensures a == a[..k] + a[k..e] + a[e..] && b == b[..k] + b[k..e] + b[e..]
  {
    var i :| 0 <= i < |a| && a[i] != b[i];
    e := if k + CHECKSUM_LENGTH <= |a| then k + CHECKSUM_LENGTH else |a|;
    assert a[k..e][i - k] != b[k..e][i - k];
  }

  /** Burst detection, at any length: a change within six consecutive symbols changes the residue. */
  lemma BurstChangesResidue(c: nat, a: seq<nat>, b: seq<nat>, k: nat)
    requires c < Pow2(WORD_BITS) && Symbols(a) && Symbols(b) && Burst(a, b, k)
    ensures ResidueFrom(c, a) != ResidueFrom(c, b)
  {
    hide ResidueFrom, Pow2, Burst;
    var e := BurstSplits(a, b, k);
    WindowChangesResidue(c, a[..k], a[k..e], b[k..e], a[e..]);
  }

  lemma WindowChangesResidue(c: nat, head: seq<nat>, u: seq<nat>, v: seq<nat>, tail: seq<nat>)
    requires c < Pow2(WORD_BITS) && Symbols(head) && Symbols(u) && Symbols(v) && Symbols(tail)
    requires |u| == |v| <= CHECKSUM_LENGTH && u != v
    ensures ResidueFrom(c, head + u + tail) != ResidueFrom(c, head + v + tail)
  {
    hide ResidueFrom, Pow2;
    var r := ResidueFrom(c, head);
    SymbolsAreWords(head);
    SymbolsAreWords(u);
    SymbolsAreWords(v);
    ResidueBelow(c, head);
    ResidueBelow(r, u);
    ResidueBelow(r, v);
    ResidueConcat(c, head, u);
    ResidueConcat(c, head, v);
    ResidueConcat(c, head + u, tail);
    ResidueConcat(c, head + v, tail);
    if ResidueFrom(c, head + u + tail) == ResidueFrom(c, head + v + tail) {
      ResidueInjective(ResidueFrom(r, u), ResidueFrom(r, v), tail);
      WindowInjective(r, u, v);
    }
  }

  lemma WindowInjective(r: nat, u: seq<nat>, v: seq<nat>)
    requires |u| == |v| <= CHECKSUM_LENGTH && Symbols(u) && Symbols(v)
    requires ResidueFrom(r, u) == ResidueFrom(r, v)
    ensures u == v
  {
    hide ResidueFrom, Xor, Value, Fixed;
    ResidueCarries(r, u);
    ResidueCarries(r, v);
    var z := ResidueFrom(r, Zeros(|u|));
    XorCancels(z, Value(SYMBOLS, u));
    XorCancels(z, Value(SYMBOLS, v));
    FixedOfValue(SYMBOLS, u);
    FixedOfValue(SYMBOLS, v);
  }
}
