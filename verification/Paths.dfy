/** The field paths of the Markdown projection, and a reader that decodes them. Text is a sequence
    of code points, lone surrogates included, as in Python. */
module Paths {
  import opened Positional
  import opened Wrappers

  type CodePoint = c: nat | c < 0x11_0000
  type Text = seq<CodePoint>

  const QUOTE: CodePoint := 0x22
  const BACKSLASH: CodePoint := 0x5C
  const DOT: CodePoint := 0x2E
  const OPEN: CodePoint := 0x5B
  const CLOSE: CodePoint := 0x5D
  const LETTER_U: CodePoint := 0x75

  // ----- keys -----

  /** `[A-Za-z0-9_$-]`. */
  predicate IsPlainChar(c: CodePoint) {
    0x41 <= c <= 0x5A || 0x61 <= c <= 0x7A || 0x30 <= c <= 0x39 || c == 0x5F || c == 0x24 || c == 0x2D
  }

  predicate IsPlain(key: Text) {
    key != [] && forall i :: 0 <= i < |key| ==> IsPlainChar(key[i])
  }

  /** Which keys are printed as they are: non-empty ones of ASCII letters, digits, `_`, `$` and `-`. */
  lemma PlainIff(key: Text)
    ensures Component(key) == key <==>
      && key != []
      && forall i :: 0 <= i < |key| ==>
           && key[i] < 128
           && var c := key[i] as char; 'A' <= c <= 'Z' || 'a' <= c <= 'z' || '0' <= c <= '9' || c in "_$-"
  {
    hide EscapeUnits, Units;
    if !IsPlain(key) {
      assert Quoted(key)[0] == QUOTE;
      if key != [] && key[0] == QUOTE {
        assert !IsPlainChar(key[0]);
      }
      QuotedIsLonger(key);
    }
  }

  /** A quoted key starts with a quote and is never the key itself. */
  lemma QuotedIsLonger(key: Text)
    ensures Quoted(key) != key
  {
    hide EscapeUnits, Units;
    EscapedIsNoShorter(key);
  }

  lemma {:induction false} EscapedIsNoShorter(key: Text)
    ensures |EscapeUnits(Units(key))| >= |key|
  {
    hide EscapeUnit, UnitsOf;
    if key == [] {
    } else {
      EscapedIsNoShorter(key[1..]);
      UnitsAreSome(key[0]);
      EscapedConcat(UnitsOf(key[0]), Units(key[1..]));
      assert UnitsOf(key[0]) == [UnitsOf(key[0])[0]] + UnitsOf(key[0])[1..];
    }
  }

  lemma UnitsAreSome(c: CodePoint)
    ensures UnitsOf(c) != []
  {
  }

  lemma {:induction false} EscapedConcat(a: seq<Unit>, b: seq<Unit>)
    ensures EscapeUnits(a + b) == EscapeUnits(a) + EscapeUnits(b)
  {
    hide EscapeUnit;
    if a == [] {
      assert a + b == b;
    } else {
      assert (a + b)[1..] == a[1..] + b;
      EscapedConcat(a[1..], b);
    }
  }

  /** 16-bit code units. */
  type Unit = u: nat | u < 0x1_0000

  /** UTF-16: a code point beyond 0xFFFF becomes a surrogate pair. */
  function UnitsOf(c: CodePoint): seq<Unit> {
    if c < 0x1_0000 then [c] else [0xD800 + (c - 0x1_0000) / 0x400, 0xDC00 + (c - 0x1_0000) % 0x400]
  }

  function Units(key: Text): seq<Unit> {
    if key == [] then [] else UnitsOf(key[0]) + Units(key[1..])
  }

  function HexDigit(d: nat): (c: CodePoint)
    requires d < 16
  {
    if d < 10 then 0x30 + d else 0x57 + d
  }

  function Hex4(u: Unit): (t: Text)
    ensures |t| == 4
  {
    [HexDigit(u / 0x1000), HexDigit(u / 0x100 % 16), HexDigit(u / 0x10 % 16), HexDigit(u % 16)]
  }

  /** The letter of a two-character escape of section 7 of RFC 8259. */
  function ShortEscape(u: Unit): Option<CodePoint> {
    match u
    case 0x22 => Some(0x22)
    case 0x5C => Some(0x5C)
    case 0x08 => Some(0x62)
    case 0x0C => Some(0x66)
    case 0x0A => Some(0x6E)
    case 0x0D => Some(0x72)
    case 0x09 => Some(0x74)
    case _ => None
  }

  function EscapeUnit(u: Unit): (t: Text)
    ensures t != [] && t[0] != QUOTE
  {
    if ShortEscape(u).Some? then [BACKSLASH, ShortEscape(u).value]
    else if 0x20 <= u <= 0x7E then [u]
    else [BACKSLASH, LETTER_U] + Hex4(u)
  }

  /** Printable ASCII stands for itself, but quotes and backslashes get a backslash before them; five control
      characters have a letter, and everything else is `\u` and four small hexadecimal digits. */
  lemma EscapeIs(u: Unit)
    ensures u == '"' as int || u == '\\' as int ==> EscapeUnit(u) == ['\\' as CodePoint, u]
    ensures u in [8, 9, 10, 12, 13] ==>
      EscapeUnit(u) == CodePoints(match u case 8 => "\\b" case 9 => "\\t" case 10 => "\\n" case 12 => "\\f" case _ => "\\r")
    ensures ' ' as int <= u <= '~' as int && u != '"' as int && u != '\\' as int ==> EscapeUnit(u) == [u]
    ensures (u < ' ' as int || u > '~' as int) && u !in [8, 9, 10, 12, 13] ==>
      && |EscapeUnit(u)| == 6 && EscapeUnit(u)[..2] == CodePoints("\\u")
      && forall i :: 2 <= i < 6 ==> EscapeUnit(u)[i] < 128 && EscapeUnit(u)[i] as char in "0123456789abcdef"
  {
    assert ShortEscape(u).Some? <==> u in [8, 9, 10, 12, 13, 34, 92];
  }

  function EscapeUnits(units: seq<Unit>): Text {
    if units == [] then [] else EscapeUnit(units[0]) + EscapeUnits(units[1..])
  }

  /** `json.dumps(key, ensure_ascii=True)`. */
  function Quoted(key: Text): Text {
    [QUOTE] + EscapeUnits(Units(key)) + [QUOTE]
  }

  function Component(key: Text): (t: Text)
    ensures t != []
  {
    if IsPlain(key) then key else Quoted(key)
  }

  /** `_path_for_key`. */
  function PathForKey(prefix: Text, key: Text): (path: Text)
    ensures path != []
  {
    if prefix != [] then prefix + [DOT] + Component(key) else Component(key)
  }

  // ----- positions -----

  /** One way into a nested value. */
  datatype Step = Key(key: Text) | Index(index: nat)

  function Decimal(n: nat): (t: Text)
    ensures t != []
  {
    CodePoints(DigitText(Decimals(n)))
  }

  function CodePoints(s: string): (t: Text)
    ensures |t| == |s|
  {
    seq(|s|, i requires 0 <= i < |s| => s[i] as CodePoint)
  }

  function PathForStep(prefix: Text, step: Step): (path: Text)
    ensures path != []
  {
    match step
    case Key(key) => PathForKey(prefix, key)
    case Index(index) => prefix + [OPEN] + Decimal(index) + [CLOSE]
  }

  /** The path printed for a position. */
  function PathOf(position: seq<Step>): (path: Text)
    ensures path == [] <==> position == []
  {
    if position == [] then []
    else PathForStep(PathOf(position[..|position| - 1]), position[|position| - 1])
  }

  // ----- reading a path -----

  /** A step as a path shows it: keys in UTF-16. */
  datatype Shown = Name(units: seq<Unit>) | At(index: nat)

  function ShownStep(step: Step): Shown {
    match step
    case Key(key) => Name(Units(key))
    case Index(index) => At(index)
  }

  function ShownAs(position: seq<Step>): (shown: seq<Shown>)
    ensures |shown| == |position|
  {
    seq(|position|, i requires 0 <= i < |position| => ShownStep(position[i]))
  }

  datatype Read<+T> = Read(value: T, rest: Text)

  function HexValue(c: CodePoint): (d: Option<nat>)
    ensures d.Some? ==> d.value < 16
  {
    if 0x30 <= c <= 0x39 then Some(c - 0x30) else if 0x61 <= c <= 0x66 then Some(c - 0x57) else None
  }

  function ReadHex4(t: Text): (r: Option<Read<Unit>>)
    ensures r.Some? ==> |r.value.rest| < |t|
  {
    if |t| < 4 then None else
      var a, b, c, d := HexValue(t[0]), HexValue(t[1]), HexValue(t[2]), HexValue(t[3]);
      if a.None? || b.None? || c.None? || d.None? then None
      else
        var u: Unit := a.value * 0x1000 + b.value * 0x100 + c.value * 0x10 + d.value;
        Some(Read(u, t[4..]))
  }

  function ReadShort(c: CodePoint): Option<Unit> {
    match c
    case 0x22 => Some(0x22)
    case 0x5C => Some(0x5C)
    case 0x62 => Some(0x08)
    case 0x66 => Some(0x0C)
    case 0x6E => Some(0x0A)
    case 0x72 => Some(0x0D)
    case 0x74 => Some(0x09)
    case _ => None
  }

  function ReadUnit(t: Text): (r: Option<Read<Unit>>)
    ensures r.Some? ==> |r.value.rest| < |t|
  {
    if t == [] then None
    else if t[0] != BACKSLASH then if t[0] <= 0x7E then Some(Read(t[0], t[1..])) else None
    else if |t| < 2 then None
    else if t[1] == LETTER_U then ReadHex4(t[2..])
    else
      var short := ReadShort(t[1]);
      if short.Some? then Some(Read(short.value, t[2..])) else None
  }

  /** The body of a quoted key and its closing quote. */
  function ReadQuoted(t: Text): (r: Option<Read<seq<Unit>>>)
    ensures r.Some? ==> |r.value.rest| < |t|
    decreases |t|
  {
    if t == [] then None
    else if t[0] == QUOTE then Some(Read([], t[1..]))
    else
      var unit := ReadUnit(t);
      if unit.None? then None else
        var more := ReadQuoted(unit.value.rest);
        if more.None? then None
        else Some(Read([unit.value.value] + more.value.value, more.value.rest))
  }

  function ReadPlain(t: Text): (r: Read<seq<Unit>>)
    ensures |r.rest| + |r.value| == |t|
  {
    if t == [] || !IsPlainChar(t[0]) then Read([], t) else
      var more := ReadPlain(t[1..]);
      Read([t[0]] + more.value, more.rest)
  }

  function ReadComponent(t: Text): (r: Option<Read<seq<Unit>>>)
    ensures r.Some? ==> |r.value.rest| < |t|
  {
    if t == [] then None
    else if t[0] == QUOTE then ReadQuoted(t[1..])
    else
      var plain := ReadPlain(t);
      if plain.value == [] then None else Some(plain)
  }

  /** Digits up to the closing bracket, after those that make up `n`. */
  function ReadDecimal(t: Text, n: nat): (r: Option<Read<nat>>)
    ensures r.Some? ==> |r.value.rest| < |t|
  {
    if t == [] then None
    else if t[0] == CLOSE then Some(Read(n, t[1..]))
    else if 0x30 <= t[0] <= 0x39 then ReadDecimal(t[1..], n * 10 + (t[0] - 0x30))
    else None
  }

  function ReadStep(t: Text): (r: Option<Read<Shown>>)
    requires t != []
    ensures r.Some? ==> |r.value.rest| < |t|
  {
    if t[0] == OPEN then
      var index := ReadDecimal(t[1..], 0);
      if index.None? then None else Some(Read(At(index.value.value), index.value.rest))
    else if t[0] == DOT then
      var key := ReadComponent(t[1..]);
      if key.None? then None else Some(Read(Name(key.value.value), key.value.rest))
    else None
  }

  /** As many steps as follow. */
  function ReadSteps(t: Text): (r: Option<Read<seq<Shown>>>)
    ensures r.Some? ==> |r.value.rest| <= |t|
    decreases |t|
  {
    if t == [] || (t[0] != OPEN && t[0] != DOT) then Some(Read([], t))
    else
      var step := ReadStep(t);
      if step.None? then None else
        var more := ReadSteps(step.value.rest);
        if more.None? then None
        else Some(Read([step.value.value] + more.value.value, more.value.rest))
  }

  /** A path: its first step has no dot. */
  function ReadPath(t: Text): (r: Option<Read<seq<Shown>>>)
    ensures r.Some? ==> |r.value.rest| <= |t| + 1
  {
    if t != [] && t[0] == OPEN then ReadSteps(t) else ReadSteps([DOT] + t)
  }

  // ----- reading inverts printing -----

  lemma HexDigitInverts(d: nat)
    requires d < 16
    ensures HexValue(HexDigit(d)) == Some(d)
  {
  }

  lemma HexInverts(u: Unit, rest: Text)
    ensures ReadHex4(Hex4(u) + rest) == Some(Read(u, rest))
  {
    hide HexDigit, HexValue;
    var t, a, b := Hex4(u) + rest, u / 0x10, u / 0x100;
    assert t[..4] == Hex4(u) && t[4..] == rest;
    assert u / 0x100 == a / 0x10 && u / 0x1000 == b / 0x10;
    HexDigitInverts(u / 0x1000);
    HexDigitInverts(b % 16);
    HexDigitInverts(a % 16);
    HexDigitInverts(u % 16);
  }

  lemma UnitIsRead(u: Unit, rest: Text)
    ensures ReadUnit(EscapeUnit(u) + rest) == Some(Read(u, rest))
  {
    hide Hex4, ReadHex4;
    var t := EscapeUnit(u) + rest;
    if ShortEscape(u).Some? {
      assert t[2..] == rest;
    } else if 0x20 <= u <= 0x7E {
      assert t[1..] == rest;
    } else {
      assert t[2..] == Hex4(u) + rest;
      HexInverts(u, rest);
    }
  }

  lemma {:induction false} QuotedIsRead(units: seq<Unit>, rest: Text)
    ensures ReadQuoted(EscapeUnits(units) + [QUOTE] + rest) == Some(Read(units, rest))
  {
    hide EscapeUnit, ReadUnit;
    if units == [] {
      assert ([] + [QUOTE] + rest)[1..] == rest;
    } else {
      var more := EscapeUnits(units[1..]) + [QUOTE] + rest;
      var t := EscapeUnit(units[0]) + more;
      assert EscapeUnits(units) + [QUOTE] + rest == t;
      assert t[0] == EscapeUnit(units[0])[0] != QUOTE;
      UnitIsRead(units[0], more);
      QuotedIsRead(units[1..], rest);
      assert [units[0]] + units[1..] == units;
    }
  }

  /** A path goes on with a character that belongs to no key. */
  predicate EndsKey(rest: Text) {
    rest == [] || !IsPlainChar(rest[0])
  }

  lemma {:induction false} PlainIsRead(key: Text, rest: Text)
    requires forall i :: 0 <= i < |key| ==> IsPlainChar(key[i])
    requires EndsKey(rest)
    ensures ReadPlain(key + rest) == Read(Units(key), rest)
  {
    if key == [] {
      assert key + rest == rest;
    } else {
      assert (key + rest)[1..] == key[1..] + rest;
      PlainIsRead(key[1..], rest);
    }
  }

  lemma PlainStart(key: Text)
    requires IsPlain(key)
    ensures key[0] != QUOTE && Units(key) != []
  {
    assert IsPlainChar(key[0]);
  }

  lemma ComponentIsRead(key: Text, rest: Text)
    requires EndsKey(rest)
    ensures ReadComponent(Component(key) + rest) == Some(Read(Units(key), rest))
  {
    hide ReadQuoted, ReadPlain, EscapeUnits, Units, IsPlainChar;
    var t := Component(key) + rest;
    if IsPlain(key) {
      PlainIsRead(key, rest);
      PlainStart(key);
      assert t[0] == key[0];
    } else {
      assert t[0] == QUOTE && t[1..] == EscapeUnits(Units(key)) + [QUOTE] + rest;
      QuotedIsRead(Units(key), rest);
    }
  }

  lemma {:induction false} DecimalIsRead(n: nat, rest: Text)
    ensures ReadDecimal(Decimal(n) + rest, 0) == ReadDecimal(rest, n)
  {
    if n < 10 {
      assert Decimals(n) == [n];
      assert (Decimal(n) + rest)[1..] == rest;
    } else {
      var digit: CodePoint := 0x30 + n % 10;
      assert Decimals(n) == Decimals(n / 10) + [n % 10];
      assert Decimal(n) == Decimal(n / 10) + [digit];
      assert Decimal(n) + rest == Decimal(n / 10) + ([digit] + rest);
      DecimalIsRead(n / 10, [digit] + rest);
      assert ([digit] + rest)[1..] == rest;
    }
  }

  /** A step as it stands behind others. */
  function StepText(step: Step): (t: Text)
    ensures t != [] && (t[0] == OPEN || t[0] == DOT)
  {
    match step
    case Key(key) => [DOT] + Component(key)
    case Index(index) => [OPEN] + Decimal(index) + [CLOSE]
  }

  function StepsText(steps: seq<Step>): (t: Text)
    ensures steps == [] ==> t == []
    ensures steps != [] ==> t != [] && (t[0] == OPEN || t[0] == DOT)
  {
    if steps == [] then [] else StepText(steps[0]) + StepsText(steps[1..])
  }

  lemma {:induction false} StepsTextOfAppend(steps: seq<Step>, last: Step)
    ensures StepsText(steps + [last]) == StepsText(steps) + StepText(last)
  {
    if steps != [] {
      StepsTextOfAppend(steps[1..], last);
      assert (steps + [last])[1..] == steps[1..] + [last];
    } else {
      assert steps + [last] == [last];
    }
  }

  /** A path is its steps, without the leading dot. */
  lemma {:induction false} PathIsSteps(position: seq<Step>)
    requires position != []
    ensures PathOf(position) == if position[0].Key? then StepsText(position)[1..] else StepsText(position)
  {
    hide PathOf, StepText, StepsText, PathForStep;
    var init, last := position[..|position| - 1], position[|position| - 1];
    assert position == init + [last];
    StepsTextOfAppend(init, last);
    PathOfAppend(init, last);
    StepBehind(PathOf(init), last);
    if init == [] {
      assert StepsText(init) + StepText(last) == StepText(last);
    } else {
      PathIsSteps(init);
      var before, more := StepsText(init), StepText(last);
      assert (before + more)[1..] == before[1..] + more;
    }
  }

  lemma PathOfAppend(position: seq<Step>, last: Step)
    ensures PathOf(position + [last]) == PathForStep(PathOf(position), last)
  {
    assert (position + [last])[..|position + [last]| - 1] == position;
  }

  lemma StepBehind(prefix: Text, step: Step)
    ensures PathForStep(prefix, step)
         == if prefix == [] && step.Key? then StepText(step)[1..] else prefix + StepText(step)
  {
    hide Component, Decimal;
    match step
    case Key(key) =>
      assert prefix + [DOT] + Component(key) == prefix + ([DOT] + Component(key));
    case Index(index) =>
      assert prefix + [OPEN] + Decimal(index) + [CLOSE] == prefix + ([OPEN] + Decimal(index) + [CLOSE]);
  }

  lemma StepIsRead(step: Step, rest: Text)
    requires EndsKey(rest)
    ensures ReadStep(StepText(step) + rest) == Some(Read(ShownStep(step), rest))
  {
    hide ReadComponent, Component, ReadDecimal, Decimal;
    var t := StepText(step) + rest;
    if step.Key? {
      assert t[1..] == Component(step.key) + rest;
      ComponentIsRead(step.key, rest);
    } else {
      assert t[1..] == Decimal(step.index) + ([CLOSE] + rest);
      DecimalIsRead(step.index, [CLOSE] + rest);
      ClosingIsRead(step.index, rest);
    }
  }

  lemma ClosingIsRead(n: nat, rest: Text)
    ensures ReadDecimal([CLOSE] + rest, n) == Some(Read(n, rest))
  {
    assert ([CLOSE] + rest)[1..] == rest;
  }

  /** What follows a whole path. */
  predicate EndsPath(rest: Text) {
    EndsKey(rest) && (rest == [] || (rest[0] != DOT && rest[0] != OPEN))
  }

  lemma {:induction false} StepsAreRead(steps: seq<Step>, rest: Text)
    requires EndsPath(rest)
    ensures ReadSteps(StepsText(steps) + rest) == Some(Read(ShownAs(steps), rest))
  {
    hide ReadStep, StepText, ShownStep;
    if steps == [] {
      assert StepsText(steps) + rest == rest;
    } else {
      var more := StepsText(steps[1..]) + rest;
      assert StepsText(steps) + rest == StepText(steps[0]) + more;
      StepIsRead(steps[0], more);
      StepsAreRead(steps[1..], rest);
      assert ShownAs(steps) == [ShownStep(steps[0])] + ShownAs(steps[1..]);
    }
  }

  /** Every printed path decodes to its position, whatever follows it. */
  lemma PathIsRead(position: seq<Step>, rest: Text)
    requires position != [] && EndsPath(rest)
    ensures ReadPath(PathOf(position) + rest) == Some(Read(ShownAs(position), rest))
  {
    hide ReadSteps, StepsText, PathOf;
    PathIsSteps(position);
    StepsAreRead(position, rest);
    var all := StepsText(position);
    if position[0].Key? {
      FirstOfSteps(position);
      assert [DOT] + (PathOf(position) + rest) == all + rest;
    } else {
      FirstOfSteps(position);
    }
  }

  lemma FirstOfSteps(position: seq<Step>)
    requires position != []
    ensures var t := StepsText(position);
      if position[0].Key? then |t| > 1 && t[0] == DOT && t[1] != OPEN else t != [] && t[0] == OPEN
  {
    if position[0].Key? {
      assert StepText(position[0])[1] == Component(position[0].key)[0];
    }
  }

  /** Two positions share a path exactly when their keys read the same in UTF-16. */
  lemma SamePathIff(p: seq<Step>, q: seq<Step>)
    ensures PathOf(p) == PathOf(q) <==> ShownAs(p) == ShownAs(q)
  {
    if PathOf(p) == PathOf(q) {
      if p != [] {
        PathIsRead(p, []);
        PathIsRead(q, []);
        assert PathOf(p) + [] == PathOf(p) && PathOf(q) + [] == PathOf(q);
      }
    } else if ShownAs(p) == ShownAs(q) {
      SameShownSamePath(p, q);
    }
  }

  lemma {:induction false} SameShownSamePath(p: seq<Step>, q: seq<Step>)
    requires ShownAs(p) == ShownAs(q)
    ensures PathOf(p) == PathOf(q)
  {
    if p == [] {
    } else {
      var n := |p| - 1;
      assert ShownAs(p[..n]) == ShownAs(p)[..n] && ShownAs(q[..n]) == ShownAs(q)[..n];
      SameShownSamePath(p[..n], q[..n]);
      assert ShownStep(p[n]) == ShownAs(p)[n] == ShownAs(q)[n] == ShownStep(q[n]);
      if p[n].Key? {
        SameUnitsSameComponent(p[n].key, q[n].key);
      }
    }
  }

  lemma SameUnitsSameComponent(k: Text, l: Text)
    requires Units(k) == Units(l)
    ensures Component(k) == Component(l)
  {
    if IsPlain(k) {
      PlainFromUnits(k, l);
    } else if IsPlain(l) {
      PlainFromUnits(l, k);
    }
  }

  lemma {:induction false} PlainFromUnits(k: Text, l: Text)
    requires Units(k) == Units(l)
    requires forall i :: 0 <= i < |k| ==> IsPlainChar(k[i])
    ensures k == l
  {
    if k == [] {
      assert l == [];
    } else {
      assert l != [];
      assert Units(k)[0] == k[0] && Units(l)[0] == UnitsOf(l[0])[0];
      assert Units(k)[1..] == Units(k[1..]) && Units(l)[1..] == Units(l[1..]);
      PlainFromUnits(k[1..], l[1..]);
      assert k == [k[0]] + k[1..] && l == [l[0]] + l[1..];
    }
  }

  // ----- keys and their code units -----

  predicate IsHigh(c: nat) { 0xD800 <= c < 0xDC00 }

  predicate IsLow(c: nat) { 0xDC00 <= c < 0xE000 }

  /** No high surrogate followed by a low one: true of every text that came from UTF-8. */
  predicate NoPairs(key: Text) {
    forall i :: 0 <= i < |key| - 1 ==> !(IsHigh(key[i]) && IsLow(key[i + 1]))
  }

  function JoinPair(high: nat, low: nat): CodePoint
    requires IsHigh(high) && IsLow(low)
  {
    0x1_0000 + (high - 0xD800) * 0x400 + (low - 0xDC00)
  }

  /** Code points of a sequence of units: pairs are joined. */
  function Joined(units: seq<Unit>): Text {
    if units == [] then []
    else if |units| > 1 && IsHigh(units[0]) && IsLow(units[1]) then
      [JoinPair(units[0], units[1])] + Joined(units[2..])
    else [units[0]] + Joined(units[1..])
  }

  lemma {:induction false} JoinInvertsUnits(key: Text)
    requires NoPairs(key)
    ensures Joined(Units(key)) == key
  {
    hide UnitsOf, JoinPair;
    if key == [] {
    } else {
      var c, more := key[0], key[1..];
      JoinInvertsUnits(more);
      assert key == [c] + more;
      var units := Units(key);
      if c < 0x1_0000 {
        assert units[1..] == Units(more) && units[0] == c by { SmallUnit(c); }
        LowStart(more);
        assert more != [] ==> !(IsHigh(key[0]) && IsLow(key[1]));
      } else {
        PairJoins(c);
        assert units[2..] == Units(more) && units[..2] == UnitsOf(c);
      }
    }
  }

  lemma SmallUnit(c: CodePoint)
    requires c < 0x1_0000
    ensures UnitsOf(c) == [c]
  {
  }

  lemma PairJoins(c: CodePoint)
    requires c >= 0x1_0000
    ensures var u := UnitsOf(c); |u| == 2 && IsHigh(u[0]) && IsLow(u[1]) && JoinPair(u[0], u[1]) == c
  {
  }

  /** A text's units start with a low surrogate only if the text does. */
  lemma LowStart(key: Text)
    ensures Units(key) != [] ==> key != []
    ensures key != [] ==> Units(key) != [] && (IsLow(Units(key)[0]) ==> key[0] == Units(key)[0])
  {
  }

  /** Every key is free of surrogate pairs. */
  predicate Unpaired(position: seq<Step>) {
    forall i :: 0 <= i < |position| && position[i].Key? ==> NoPairs(position[i].key)
  }

  /** Printing positions is injective as long as no key spells a surrogate pair. */
  lemma PathInjective(p: seq<Step>, q: seq<Step>)
    requires Unpaired(p) && Unpaired(q) && PathOf(p) == PathOf(q)
    ensures p == q
  {
    hide PathOf, Units, NoPairs;
    SamePathIff(p, q);
    forall i | 0 <= i < |p|
      ensures p[i] == q[i]
    {
      assert ShownStep(p[i]) == ShownAs(p)[i] == ShownAs(q)[i] == ShownStep(q[i]);
      if p[i].Key? {
        JoinInvertsUnits(p[i].key);
        JoinInvertsUnits(q[i].key);
      }
    }
  }

  /** Without that, two different keys can share one path: an emoji and its two surrogates. */
  lemma SurrogatesCollide()
    ensures var pair, emoji := [0xD83D, 0xDE00], [0x1F600];
      pair != emoji && PathOf([Key(pair)]) == PathOf([Key(emoji)])
  {
    var pair: Text, emoji: Text := [0xD83D, 0xDE00], [0x1F600];
    assert Units(emoji[1..]) == [] && Units(pair[1..]) == [0xDE00] + Units(pair[1..][1..]);
    assert Units(pair) == [0xD83D, 0xDE00];
    assert Units(emoji) == [0xD83D, 0xDE00];
    assert ShownAs([Key(pair)]) == ShownAs([Key(emoji)]);
    SamePathIff([Key(pair)], [Key(emoji)]);
  }
}
