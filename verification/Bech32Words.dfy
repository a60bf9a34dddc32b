/** The checksum recurrence on machine words, to compute with, and what a computed register proves. */
module Bech32Words {
  import opened Casings
  import opened Wrappers
  import opened Bits
  import opened Positional
  import opened Alphabets
  import opened Bech32
  import opened Bech32Text

  // ----- registers as six symbols of five bits -----

  datatype Symbol = Symbol(p: bool, q: bool, r: bool, s: bool, t: bool)

  datatype Word = Word(a: Symbol, b: Symbol, c: Symbol, d: Symbol, e: Symbol, f: Symbol)

  function Bit(b: bool): nat {
    if b then 1 else 0
  }

  /** One more bit behind a number. */
  function ThenBit(n: nat, b: bool): nat {
    n * 2 + Bit(b)
  }

  function Nat(x: Symbol): (n: nat)
    ensures n < 32
  {
    ThenBit(ThenBit(ThenBit(ThenBit(Bit(x.p), x.q), x.r), x.s), x.t)
  }

  /** One more symbol behind a number. */
  function Then(n: nat, x: Symbol): nat {
    n * 32 + Nat(x)
  }

  function Number(w: Word): nat {
    Then(Then(Then(Then(Then(Nat(w.a), w.b), w.c), w.d), w.e), w.f)
  }

  /** The bits of a machine word. */
  predicate At(c: bv30, mask: bv30) {
    c & mask != 0
  }

  function SymbolAt(c: bv30, p: bv30, q: bv30, r: bv30, s: bv30, t: bv30): Symbol {
    Symbol(At(c, p), At(c, q), At(c, r), At(c, s), At(c, t))
  }

  function SymbolOf(v: bv5): Symbol {
    SymbolAt(v as bv30, 0x10, 0x8, 0x4, 0x2, 0x1)
  }

  function WordOf(c: bv30): Word {
    Word(SymbolAt(c, 0x20000000, 0x10000000, 0x8000000, 0x4000000, 0x2000000),
         SymbolAt(c, 0x1000000, 0x800000, 0x400000, 0x200000, 0x100000),
         SymbolAt(c, 0x80000, 0x40000, 0x20000, 0x10000, 0x8000),
         SymbolAt(c, 0x4000, 0x2000, 0x1000, 0x800, 0x400),
         SymbolAt(c, 0x200, 0x100, 0x80, 0x40, 0x20),
         SymbolAt(c, 0x10, 0x8, 0x4, 0x2, 0x1))
  }

  function XorSymbol(x: Symbol, y: Symbol): Symbol {
    Symbol(x.p != y.p, x.q != y.q, x.r != y.r, x.s != y.s, x.t != y.t)
  }

  function XorWord(u: Word, v: Word): Word {
    Word(XorSymbol(u.a, v.a), XorSymbol(u.b, v.b), XorSymbol(u.c, v.c),
         XorSymbol(u.d, v.d), XorSymbol(u.e, v.e), XorSymbol(u.f, v.f))
  }

  lemma XorThenBit(m: nat, a: bool, n: nat, b: bool)
    ensures Xor(ThenBit(m, a), ThenBit(n, b)) == ThenBit(Xor(m, n), a != b)
  {
    hide Xor;
    XorBits(ThenBit(m, a), ThenBit(n, b));
    TwicePlus(m, Bit(a));
    TwicePlus(n, Bit(b));
    assert ThenBit(m, a) / 2 == m && ThenBit(n, b) / 2 == n;
  }

  lemma XorBit(a: bool, b: bool)
    ensures Xor(Bit(a), Bit(b)) == Bit(a != b)
  {
  }

  lemma XorSymbolIsXor(x: Symbol, y: Symbol)
    ensures Xor(Nat(x), Nat(y)) == Nat(XorSymbol(x, y))
  {
    hide Xor, ThenBit, Bit;
    XorBit(x.p, y.p);
    var x1, y1 := ThenBit(Bit(x.p), x.q), ThenBit(Bit(y.p), y.q);
    XorThenBit(Bit(x.p), x.q, Bit(y.p), y.q);
    var x2, y2 := ThenBit(x1, x.r), ThenBit(y1, y.r);
    XorThenBit(x1, x.r, y1, y.r);
    var x3, y3 := ThenBit(x2, x.s), ThenBit(y2, y.s);
    XorThenBit(x2, x.s, y2, y.s);
    XorThenBit(x3, x.t, y3, y.t);
  }

  /** An exclusive or of numbers with a last symbol of their own. */
  lemma XorThen(m: nat, x: Symbol, n: nat, y: Symbol)
    ensures Xor(Then(m, x), Then(n, y)) == Then(Xor(m, n), XorSymbol(x, y))
  {
    hide Xor, Nat, XorSymbol;
    Widths();
    XorSplits(5, m, Nat(x), n, Nat(y));
    XorSymbolIsXor(x, y);
  }

  lemma XorWordIsXor(u: Word, v: Word)
    ensures Xor(Number(u), Number(v)) == Number(XorWord(u, v))
  {
    hide Xor, XorSymbol, Then, Nat;
    XorSymbolIsXor(u.a, v.a);
    XorThen(Nat(u.a), u.b, Nat(v.a), v.b);
    var u1, v1 := Then(Nat(u.a), u.b), Then(Nat(v.a), v.b);
    XorThen(u1, u.c, v1, v.c);
    var u2, v2 := Then(u1, u.c), Then(v1, v.c);
    XorThen(u2, u.d, v2, v.d);
    var u3, v3 := Then(u2, u.d), Then(v2, v.d);
    XorThen(u3, u.e, v3, v.e);
    XorThen(Then(u3, u.e), u.f, Then(v3, v.e), v.f);
  }

  // ----- the recurrence by symbols -----

  /** A row of the generator, or none. */
  function Pick(bit: bool, row: bv30): Word {
    WordOf(if bit then row else 0)
  }

  function Mixed(w: Word, top: Symbol): Word {
    XorWord(XorWord(XorWord(XorWord(XorWord(w, Pick(top.t, 0x3B6A57B2)), Pick(top.s, 0x26508E6D)), Pick(top.r, 0x1EA119FA)),
                    Pick(top.q, 0x3D4233DD)), Pick(top.p, 0x2A1462B3))
  }

  function StepWord(w: Word, v: Symbol): Word {
    Mixed(Word(w.b, w.c, w.d, w.e, w.f, v), w.a)
  }

  lemma Powers()
    ensures Pow2(0) == 1 && Pow2(1) == 2 && Pow2(2) == 4 && Pow2(3) == 8 && Pow2(4) == 16
  {
  }

  lemma BitsOf(x: Symbol)
    ensures Low(Shr(Nat(x), 0), 1) == Bit(x.t) && Low(Shr(Nat(x), 1), 1) == Bit(x.s) && Low(Shr(Nat(x), 2), 1) == Bit(x.r)
    ensures Low(Shr(Nat(x), 3), 1) == Bit(x.q) && Low(Shr(Nat(x), 4), 1) == Bit(x.p)
  {
    Powers();
  }

  lemma NumberIs(w: Word, a: nat, b: nat, c: nat, d: nat, e: nat, f: nat)
    requires Nat(w.a) == a && Nat(w.b) == b && Nat(w.c) == c && Nat(w.d) == d && Nat(w.e) == e && Nat(w.f) == f
    ensures Number(w) == ((((a * 32 + b) * 32 + c) * 32 + d) * 32 + e) * 32 + f
  {
    hide Nat;
  }

  lemma NoRow()
    ensures Number(WordOf(0)) == 0
  {
    hide Number;
    NumberIs(WordOf(0), 0, 0, 0, 0, 0, 0);
  }

  lemma Row0()
    ensures Number(WordOf(0x3B6A57B2)) == GENERATOR[0]
  {
    hide Number, Then;
    NumberIs(WordOf(0x3B6A57B2), 29, 22, 20, 21, 29, 18);
  }

  lemma Row1()
    ensures Number(WordOf(0x26508E6D)) == GENERATOR[1]
  {
    hide Number, Then;
    NumberIs(WordOf(0x26508E6D), 19, 5, 1, 3, 19, 13);
  }

  lemma Row2()
    ensures Number(WordOf(0x1EA119FA)) == GENERATOR[2]
  {
    hide Number, Then;
    NumberIs(WordOf(0x1EA119FA), 15, 10, 2, 6, 15, 26);
  }

  lemma Row3()
    ensures Number(WordOf(0x3D4233DD)) == GENERATOR[3]
  {
    hide Number, Then;
    NumberIs(WordOf(0x3D4233DD), 30, 20, 4, 12, 30, 29);
  }

  lemma Row4()
    ensures Number(WordOf(0x2A1462B3)) == GENERATOR[4]
  {
    hide Number, Then;
    NumberIs(WordOf(0x2A1462B3), 21, 1, 8, 24, 21, 19);
  }

  lemma MixUnfolds(x: nat, top: nat)
    ensures Mix(x, top, 5) == Xor(Xor(Xor(Xor(Xor(x, Row(top, 0)), Row(top, 1)), Row(top, 2)), Row(top, 3)), Row(top, 4))
  {
    hide Xor, Row;
    assert Mix(x, top, 1) == Xor(Mix(x, top, 0), Row(top, 0));
    assert Mix(x, top, 2) == Xor(Mix(x, top, 1), Row(top, 1));
    assert Mix(x, top, 3) == Xor(Mix(x, top, 2), Row(top, 2));
    assert Mix(x, top, 4) == Xor(Mix(x, top, 3), Row(top, 3));
  }

  lemma Rows(top: Symbol)
    ensures Row(Nat(top), 0) == Number(Pick(top.t, 0x3B6A57B2)) && Row(Nat(top), 1) == Number(Pick(top.s, 0x26508E6D))
    ensures Row(Nat(top), 2) == Number(Pick(top.r, 0x1EA119FA)) && Row(Nat(top), 3) == Number(Pick(top.q, 0x3D4233DD))
    ensures Row(Nat(top), 4) == Number(Pick(top.p, 0x2A1462B3))
  {
    hide Number, Nat, Low, Shr, WordOf, GENERATOR;
    BitsOf(top);
    NoRow();
    Row0();
    Row1();
    Row2();
    Row3();
    Row4();
  }

  lemma MixedIsMix(w: Word, top: Symbol)
    ensures Mix(Number(w), Nat(top), 5) == Number(Mixed(w, top))
  {
    hide Xor, XorWord, Row, Pick, Mix, Number, Nat;
    Rows(top);
    MixUnfolds(Number(w), Nat(top));
    XorWordIsXor(w, Pick(top.t, 0x3B6A57B2));
    var x1 := XorWord(w, Pick(top.t, 0x3B6A57B2));
    XorWordIsXor(x1, Pick(top.s, 0x26508E6D));
    var x2 := XorWord(x1, Pick(top.s, 0x26508E6D));
    XorWordIsXor(x2, Pick(top.r, 0x1EA119FA));
    var x3 := XorWord(x2, Pick(top.r, 0x1EA119FA));
    XorWordIsXor(x3, Pick(top.q, 0x3D4233DD));
    XorWordIsXor(XorWord(x3, Pick(top.q, 0x3D4233DD)), Pick(top.p, 0x2A1462B3));
  }

  lemma Shifted(w: Word, v: Symbol)
    ensures Shr(Number(w), 25) == Nat(w.a)
    ensures Xor(Shl(Low(Number(w), 25), 5), Nat(v)) == Number(Word(w.b, w.c, w.d, w.e, w.f, v))
  {
    hide Xor, Nat;
    Widths();
    var low := Then(Then(Then(Then(Nat(w.b), w.c), w.d), w.e), w.f);
    assert Number(w) == Join(25, Nat(w.a), low);
    JoinParts(25, Nat(w.a), low);
    XorSplits(5, low, 0, 0, Nat(v));
    XorZero(low);
    XorZero(Nat(v));
  }

  lemma XorZero(n: nat)
    ensures Xor(n, 0) == n && Xor(0, n) == n
  {
  }

  /** One step of the recurrence, computed bit by bit. */
  lemma StepWordIsStep(w: Word, v: Symbol)
    ensures Step(Number(w), Nat(v)) == Number(StepWord(w, v))
  {
    hide Xor, Mixed, Mix, Shr, Shl, Low, Number, Nat;
    Shifted(w, v);
    MixedIsMix(Word(w.b, w.c, w.d, w.e, w.f, v), w.a);
  }

  /** The same step on machine words. */
  function ShiftIn(c: bv30, v: bv5): bv30 {
    ((c & 0x1FFFFFF) << 5) | (v as bv30)
  }

  function AddRow(c: bv30, bit: bool, row: bv30): bv30 {
    c ^ (if bit then row else 0)
  }

  function StepBits(c: bv30, v: bv5): bv30 {
    AddRow(AddRow(AddRow(AddRow(AddRow(ShiftIn(c, v), At(c, 0x2000000), 0x3B6A57B2), At(c, 0x4000000), 0x26508E6D),
                                At(c, 0x8000000), 0x1EA119FA), At(c, 0x10000000), 0x3D4233DD), At(c, 0x20000000), 0x2A1462B3)
  }

  predicate OneBit(mask: bv30) {
    mask & (mask - 1) == 0
  }

  ghost predicate BitwiseXor(x: bv30, y: bv30, z: bv30) {
    forall mask :: OneBit(mask) ==> (At(z, mask) <==> At(x, mask) != At(y, mask))
  }

  lemma XorOneBit(x: bv30, y: bv30, mask: bv30)
    requires OneBit(mask)
    ensures At(x ^ y, mask) <==> At(x, mask) != At(y, mask)
  {
  }

  lemma XorAt(x: bv30, y: bv30, z: bv30)
    requires z == x ^ y
    ensures BitwiseXor(x, y, z)
  {
    hide At, OneBit;
    forall mask | OneBit(mask)
      ensures At(z, mask) <==> At(x, mask) != At(y, mask)
    {
      XorOneBit(x, y, mask);
    }
  }

  lemma ShiftAt(c: bv30, v: bv5)
    ensures var s := ShiftIn(c, v);
      && (forall mask :: OneBit(mask) && mask >= 32 ==> (At(s, mask) <==> At(c, mask >> 5)))
      && (forall mask :: OneBit(mask) && mask < 32 ==> (At(s, mask) <==> At(v as bv30, mask)))
  {
  }

  lemma SymbolsByBits(x: bv30, y: bv30, z: bv30, p: bv30, q: bv30, r: bv30, s: bv30, t: bv30)
    requires BitwiseXor(x, y, z) && OneBit(p) && OneBit(q) && OneBit(r) && OneBit(s) && OneBit(t)
    ensures XorSymbol(SymbolAt(x, p, q, r, s, t), SymbolAt(y, p, q, r, s, t)) == SymbolAt(z, p, q, r, s, t)
  {
    hide At, OneBit;
  }

  lemma WordsByBits(x: bv30, y: bv30, z: bv30)
    requires BitwiseXor(x, y, z)
    ensures XorWord(WordOf(x), WordOf(y)) == WordOf(z)
  {
    hide At, BitwiseXor, SymbolAt, XorSymbol;
    SymbolsByBits(x, y, z, 0x20000000, 0x10000000, 0x8000000, 0x4000000, 0x2000000);
    SymbolsByBits(x, y, z, 0x1000000, 0x800000, 0x400000, 0x200000, 0x100000);
    SymbolsByBits(x, y, z, 0x80000, 0x40000, 0x20000, 0x10000, 0x8000);
    SymbolsByBits(x, y, z, 0x4000, 0x2000, 0x1000, 0x800, 0x400);
    SymbolsByBits(x, y, z, 0x200, 0x100, 0x80, 0x40, 0x20);
    SymbolsByBits(x, y, z, 0x10, 0x8, 0x4, 0x2, 0x1);
  }

  lemma RowIsAdded(c: bv30, bit: bool, row: bv30)
    ensures WordOf(AddRow(c, bit, row)) == XorWord(WordOf(c), Pick(bit, row))
  {
    hide WordOf, XorWord, BitwiseXor, At;
    XorAt(c, if bit then row else 0, AddRow(c, bit, row));
    WordsByBits(c, if bit then row else 0, AddRow(c, bit, row));
  }

  lemma ShiftedWord(c: bv30, v: bv5)
    ensures var w := WordOf(c); WordOf(ShiftIn(c, v)) == Word(w.b, w.c, w.d, w.e, w.f, SymbolOf(v))
  {
    hide At, ShiftIn;
    ShiftAt(c, v);
  }

  lemma StepBitsIsStep(c: bv30, v: bv5)
    ensures StepWord(WordOf(c), SymbolOf(v)) == WordOf(StepBits(c, v))
  {
    hide WordOf, XorWord, SymbolOf, At, AddRow, ShiftIn, Pick;
    ShiftedWord(c, v);
    TopOf(c);
    var x0 := ShiftIn(c, v);
    RowIsAdded(x0, At(c, 0x2000000), 0x3B6A57B2);
    var x1 := AddRow(x0, At(c, 0x2000000), 0x3B6A57B2);
    RowIsAdded(x1, At(c, 0x4000000), 0x26508E6D);
    var x2 := AddRow(x1, At(c, 0x4000000), 0x26508E6D);
    RowIsAdded(x2, At(c, 0x8000000), 0x1EA119FA);
    var x3 := AddRow(x2, At(c, 0x8000000), 0x1EA119FA);
    RowIsAdded(x3, At(c, 0x10000000), 0x3D4233DD);
    RowIsAdded(AddRow(x3, At(c, 0x10000000), 0x3D4233DD), At(c, 0x20000000), 0x2A1462B3);
  }

  lemma TopOf(c: bv30)
    ensures WordOf(c).a
         == Symbol(At(c, 0x20000000), At(c, 0x10000000), At(c, 0x8000000), At(c, 0x4000000), At(c, 0x2000000))
  {
  }

  function Gather(p: bool, q: bool, r: bool, s: bool, t: bool): bv5 {
    (if p then 16 else 0) | (if q then 8 else 0) | (if r then 4 else 0) | (if s then 2 else 0) | (if t then 1 else 0)
  }

  /** The machine word of a symbol. */
  function BitsFor(v: nat): bv5 {
    Gather((v / 16) % 2 == 1, (v / 8) % 2 == 1, (v / 4) % 2 == 1, (v / 2) % 2 == 1, v % 2 == 1)
  }

  lemma GatherInverts(p: bool, q: bool, r: bool, s: bool, t: bool)
    ensures SymbolOf(Gather(p, q, r, s, t)) == Symbol(p, q, r, s, t)
  {
  }

  lemma NatOfBits(v: nat)
    requires v < 32
    ensures Nat(SymbolOf(BitsFor(v))) == v
  {
    hide SymbolOf, Gather;
    GatherInverts((v / 16) % 2 == 1, (v / 8) % 2 == 1, (v / 4) % 2 == 1, (v / 2) % 2 == 1, v % 2 == 1);
  }

  /** One symbol more. */
  lemma Advance(start: bv30, data: seq<nat>, c: bv30, v: nat, next: bv30)
    requires ResidueFrom(Number(WordOf(start)), data) == Number(WordOf(c))
    requires v < 32 && StepBits(c, BitsFor(v)) == next
    ensures ResidueFrom(Number(WordOf(start)), data + [v]) == Number(WordOf(next))
  {
    hide StepWord, Step, Number, WordOf, StepBits, SymbolOf, Nat, BitsFor;
    NatOfBits(v);
    StepBitsIsStep(c, BitsFor(v));
    StepWordIsStep(WordOf(c), SymbolOf(BitsFor(v)));
    assert (data + [v])[..|data|] == data;
  }

  // ----- reading a data part -----

  /** How far a data part has been read: its symbols, its text and the register. */
  predicate Reached(start: bv30, data: seq<nat>, tail: string, c: bv30) {
    && ResidueFrom(Number(WordOf(start)), data) == Number(WordOf(c))
    && IsDigits(|CHARSET|, data) && tail == Spell(CHARSET, data)
  }

  predicate HasLetter(v: nat, letter: char) {
    v < |CHARSET| && CHARSET[v] == letter
  }

  lemma Letters0()
    ensures HasLetter(0, 'q') && HasLetter(1, 'p') && HasLetter(2, 'z') && HasLetter(3, 'r')
    ensures HasLetter(4, 'y') && HasLetter(5, '9') && HasLetter(6, 'x') && HasLetter(7, '8')
  {
  }

  lemma Letters1()
    ensures HasLetter(8, 'g') && HasLetter(9, 'f') && HasLetter(10, '2') && HasLetter(11, 't')
    ensures HasLetter(12, 'v') && HasLetter(13, 'd') && HasLetter(14, 'w') && HasLetter(15, '0')
  {
  }

  lemma Letters2()
    ensures HasLetter(16, 's') && HasLetter(17, '3') && HasLetter(18, 'j') && HasLetter(19, 'n')
    ensures HasLetter(20, '5') && HasLetter(21, '4') && HasLetter(22, 'k') && HasLetter(23, 'h')
  {
  }

  lemma Letters3()
    ensures HasLetter(24, 'c') && HasLetter(25, 'e') && HasLetter(26, '6') && HasLetter(27, 'm')
    ensures HasLetter(28, 'u') && HasLetter(29, 'a') && HasLetter(30, '7') && HasLetter(31, 'l')
  {
  }

  /** The published alphabet. */
  lemma Letters()
    ensures HasLetter(0, 'q') && HasLetter(1, 'p') && HasLetter(2, 'z') && HasLetter(3, 'r')
    ensures HasLetter(4, 'y') && HasLetter(5, '9') && HasLetter(6, 'x') && HasLetter(7, '8')
    ensures HasLetter(8, 'g') && HasLetter(9, 'f') && HasLetter(10, '2') && HasLetter(11, 't')
    ensures HasLetter(12, 'v') && HasLetter(13, 'd') && HasLetter(14, 'w') && HasLetter(15, '0')
    ensures HasLetter(16, 's') && HasLetter(17, '3') && HasLetter(18, 'j') && HasLetter(19, 'n')
    ensures HasLetter(20, '5') && HasLetter(21, '4') && HasLetter(22, 'k') && HasLetter(23, 'h')
    ensures HasLetter(24, 'c') && HasLetter(25, 'e') && HasLetter(26, '6') && HasLetter(27, 'm')
    ensures HasLetter(28, 'u') && HasLetter(29, 'a') && HasLetter(30, '7') && HasLetter(31, 'l')
  {
    hide HasLetter;
    Letters0();
    Letters1();
    Letters2();
    Letters3();
  }

  lemma Begin(start: bv30)
    ensures Reached(start, [], "", start)
  {
    hide Number, WordOf;
    assert Spell(CHARSET, []) == "";
  }

  lemma One(start: bv30, data: seq<nat>, tail: string, c: bv30, v: nat, letter: char, next: bv30)
    requires v < 32 && Reached(start, data, tail, c) && HasLetter(v, letter) && StepBits(c, BitsFor(v)) == next
    ensures Reached(start, data + [v], tail + [letter], next)
  {
    hide Number, WordOf, StepBits, BitsFor, CHARSET, ResidueFrom;
    Advance(start, data, c, v, next);
  }

  /** Four symbols at once; the register after them is the caller's claim. */
  lemma Four(start: bv30, data: seq<nat>, tail: string, c: bv30, v: nat, w: nat, x: nat, y: nat, piece: string, next: bv30)
    requires Reached(start, data, tail, c) && |piece| == 4 && v < 32 && w < 32 && x < 32 && y < 32
    requires HasLetter(v, piece[0]) && HasLetter(w, piece[1]) && HasLetter(x, piece[2]) && HasLetter(y, piece[3])
    requires StepBits(StepBits(StepBits(StepBits(c, BitsFor(v)), BitsFor(w)), BitsFor(x)), BitsFor(y)) == next
    ensures Reached(start, data + [v, w, x, y], tail + piece, next)
  {
    hide StepBits, BitsFor, Reached, HasLetter;
    var c1 := StepBits(c, BitsFor(v));
    var c2 := StepBits(c1, BitsFor(w));
    var c3 := StepBits(c2, BitsFor(x));
    One(start, data, tail, c, v, piece[0], c1);
    One(start, data + [v], tail + [piece[0]], c1, w, piece[1], c2);
    One(start, data + [v] + [w], tail + [piece[0]] + [piece[1]], c2, x, piece[2], c3);
    One(start, data + [v] + [w] + [x], tail + [piece[0]] + [piece[1]] + [piece[2]], c3, y, piece[3], next);
    assert data + [v] + [w] + [x] + [y] == data + [v, w, x, y];
    assert tail + [piece[0]] + [piece[1]] + [piece[2]] + [piece[3]] == tail + piece;
  }

  lemma ShortestPrefix()
    ensures ExpandHrp("a") == [3, 0, 1]
    ensures ResidueFrom(Number(WordOf(1)), ExpandHrp("a")) == Number(WordOf(0x8C01))
  {
    hide Number, WordOf, ResidueFrom;
    NothingRead();
    AdvancedShortest();
  }

  lemma AdvancedShortest()
    ensures ResidueFrom(Number(WordOf(1)), [3, 0, 1]) == Number(WordOf(0x8C01))
  {
    hide Number, WordOf, ResidueFrom;
    NothingRead();
    Advance(1, [], 0x1, 3, 0x23);
    assert [] + [3] == [3];
    Advance(1, [3], 0x23, 0, 0x460);
    assert [3] + [0] == [3, 0];
    Advance(1, [3, 0], 0x460, 1, 0x8C01);
    assert [3, 0] + [1] == [3, 0, 1];
  }

  lemma MainnetPrefix()
    ensures ExpandHrp("bc") == [3, 3, 0, 2, 3]
    ensures ResidueFrom(Number(WordOf(1)), ExpandHrp("bc")) == Number(WordOf(0x2318043))
  {
    hide Number, WordOf, ResidueFrom;
    NothingRead();
    AdvancedMainnet();
  }

  lemma AdvancedMainnet()
    ensures ResidueFrom(Number(WordOf(1)), [3, 3, 0, 2, 3]) == Number(WordOf(0x2318043))
  {
    hide Number, WordOf, ResidueFrom;
    NothingRead();
    Advance(1, [], 0x1, 3, 0x23);
    assert [] + [3] == [3];
    Advance(1, [3], 0x23, 3, 0x463);
    assert [3] + [3] == [3, 3];
    Advance(1, [3, 3], 0x463, 0, 0x8C60);
    assert [3, 3] + [0] == [3, 3, 0];
    Advance(1, [3, 3, 0], 0x8C60, 2, 0x118C02);
    assert [3, 3, 0] + [2] == [3, 3, 0, 2];
    Advance(1, [3, 3, 0, 2], 0x118C02, 3, 0x2318043);
    assert [3, 3, 0, 2] + [3] == [3, 3, 0, 2, 3];
  }

  lemma NothingRead()
    ensures ResidueFrom(Number(WordOf(1)), []) == Number(WordOf(1))
  {
    hide Number, WordOf;
  }

  // ----- what a computed register proves -----

  /** A text whose letters and symbols have been read is a string with the verdict of its register. */
  lemma ReachedIsDecoded(text: Text, address: string, hrp: string, start: bv30, data: seq<nat>, checksum: seq<nat>,
                         tail: string, encoding: Encoding)
    requires CaseUniform(text, address) && text.casing.lower(address) == hrp + "1" + tail && hrp != ""
    requires ResidueFrom(Number(WordOf(1)), ExpandHrp(hrp)) == Number(WordOf(start)) && |checksum| == CHECKSUM_LENGTH
    requires Reached(start, data + checksum, tail, if encoding.Bech32? then 1 else 0x2BC830A3)
    ensures Decoded(text, address) == Some(Split(hrp, data, encoding))
  {
    hide ResidueFrom, ExpandHrp, Number, WordOf, CHARSET;
    var all := data + checksum;
    CharsetIsDistinct();
    EncodedSplits(hrp, tail);
    IndicesInvertSpell(CHARSET, all);
    ResidueConcat(1, ExpandHrp(hrp), all);
    Constants();
    assert all[..|all| - CHECKSUM_LENGTH] == data;
  }

  lemma Constants()
    ensures Number(WordOf(1)) == 1 && Number(WordOf(0x2BC830A3)) == 0x2BC830A3
  {
    hide Number;
    NumberIs(WordOf(1), 0, 0, 0, 0, 0, 1);
    NumberIs(WordOf(0x2BC830A3), 21, 28, 16, 12, 5, 3);
  }
}
