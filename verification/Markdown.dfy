/** Flattening nested values into path lines, one for every leaf and empty container. */
module Markdown {
  import opened Wrappers
  import opened Paths

  /** Keys come as text or, wrongly, as something else. */
  datatype MapKey = TextKey(text: Text) | OtherKey

  datatype Entry = Entry(key: MapKey, value: Value)

  /** A nested value; scalars are represented by the line of text that renders them. */
  datatype Value = Scalar(shown: Text) | Mapping(entries: seq<Entry>) | Sequence(items: seq<Value>)

  const LF: CodePoint := 0x0A
  const SPACE: CodePoint := 0x20
  const COLON: CodePoint := 0x3A
  const DASH: CodePoint := 0x2D

  predicate AllTextKeys(v: Value) {
    match v
    case Scalar(_) => true
    case Mapping(entries) => forall i :: 0 <= i < |entries| ==> entries[i].key.TextKey? && AllTextKeys(entries[i].value)
    case Sequence(items) => forall i :: 0 <= i < |items| ==> AllTextKeys(items[i])
  }

  predicate IsTerminal(v: Value) {
    v.Scalar? || v == Mapping([]) || v == Sequence([])
  }

  function ShownTerminal(v: Value): Text
    requires IsTerminal(v)
  {
    match v
    case Scalar(shown) => shown
    case Mapping(_) => [0x7B, 0x7D]
    case Sequence(_) => [0x5B, 0x5D]
  }

  /** A leaf or empty container and where it is. */
  datatype Terminal = Terminal(position: seq<Step>, value: Value)

  /** The terminals of a value that stands at `at`, in document order. */
  function Terminals(v: Value, at: seq<Step>): seq<Terminal>
    requires AllTextKeys(v)
    decreases v, 1, 0
  {
    if IsTerminal(v) then [Terminal(at, v)]
    else if v.Mapping? then EntryTerminals(v, |v.entries|, at)
    else ItemTerminals(v, |v.items|, at)
  }

  /** Those of the first n entries. */
  function EntryTerminals(v: Value, n: nat, at: seq<Step>): seq<Terminal>
    requires v.Mapping? && AllTextKeys(v) && n <= |v.entries|
    decreases v, 0, n
  {
    if n == 0 then []
    else
      var entry := v.entries[n - 1];
      EntryTerminals(v, n - 1, at) + Terminals(entry.value, at + [Key(entry.key.text)])
  }

  function ItemTerminals(v: Value, n: nat, at: seq<Step>): seq<Terminal>
    requires v.Sequence? && AllTextKeys(v) && n <= |v.items|
    decreases v, 0, n
  {
    if n == 0 then []
    else ItemTerminals(v, n - 1, at) + Terminals(v.items[n - 1], at + [Index(n - 1)])
  }

  function Line(path: Text, shown: Text): Text {
    [DASH, SPACE] + path + [COLON, SPACE] + shown + [LF]
  }

  function TerminalLine(t: Terminal): Text
    requires IsTerminal(t.value)
  {
    Line(PathOf(t.position), ShownTerminal(t.value))
  }

  ghost predicate AreTerminals(ts: seq<Terminal>) {
    forall i :: 0 <= i < |ts| ==> IsTerminal(ts[i].value)
  }

  function Lines(ts: seq<Terminal>): Text
    requires forall i :: 0 <= i < |ts| ==> IsTerminal(ts[i].value)
  {
    if ts == [] then [] else Lines(ts[..|ts| - 1]) + TerminalLine(ts[|ts| - 1])
  }

  lemma {:induction false} LinesOfConcat(a: seq<Terminal>, b: seq<Terminal>)
    requires AreTerminals(a) && AreTerminals(b)
    ensures AreTerminals(a + b) && Lines(a + b) == Lines(a) + Lines(b)
  {
    hide TerminalLine;
    if b == [] {
      assert a + b == a;
    } else {
      var init, last := b[..|b| - 1], b[|b| - 1];
      assert (a + b)[..|a + b| - 1] == a + init && (a + b)[|a + b| - 1] == last;
      LinesOfConcat(a, init);
    }
  }

  lemma {:induction false} TerminalsAreTerminal(v: Value, at: seq<Step>)
    requires AllTextKeys(v)
    ensures AreTerminals(Terminals(v, at))
    decreases v, 1, 0
  {
    if !IsTerminal(v) {
      if v.Mapping? {
        EntriesAreTerminal(v, |v.entries|, at);
      } else {
        ItemsAreTerminal(v, |v.items|, at);
      }
    }
  }

  lemma {:induction false} EntriesAreTerminal(v: Value, n: nat, at: seq<Step>)
    requires v.Mapping? && AllTextKeys(v) && n <= |v.entries|
    ensures AreTerminals(EntryTerminals(v, n, at))
    decreases v, 0, n
  {
    if n == 0 {
    } else {
      EntriesAreTerminal(v, n - 1, at);
      TerminalsAreTerminal(v.entries[n - 1].value, at + [Key(v.entries[n - 1].key.text)]);
    }
  }

  lemma {:induction false} ItemsAreTerminal(v: Value, n: nat, at: seq<Step>)
    requires v.Sequence? && AllTextKeys(v) && n <= |v.items|
    ensures AreTerminals(ItemTerminals(v, n, at))
    decreases v, 0, n
  {
    if n == 0 {
    } else {
      ItemsAreTerminal(v, n - 1, at);
      TerminalsAreTerminal(v.items[n - 1], at + [Index(n - 1)]);
    }
  }

  /** What a value printed at `at` adds to the stream. */
  function Printed(v: Value, at: seq<Step>): Text
    requires AllTextKeys(v)
  {
    TerminalsAreTerminal(v, at);
    Lines(Terminals(v, at))
  }

  class Stream {
    var text: Text

    constructor ()
      ensures text == []
    {
      text := [];
    }

    method Write(more: Text)
      modifies this
      ensures text == old(text) + more
    {
      text := text + more;
    }

    /** `_write_value`: returns false where the source raises on a key that is no text. */
    method WriteValue(path: Text, v: Value, ghost at: seq<Step>) returns (ok: bool)
      requires path == PathOf(at)
      modifies this
      ensures ok <==> AllTextKeys(v)
      ensures ok ==> text == old(text) + Printed(v, at)
      ensures old(text) <= text
      decreases v, 1
    {
      hide AllTextKeys, PathOf, Printed, PrintedItems, Line, Decimal;
      TextKeysOf(v);
      if v.Mapping? {
        if v.entries == [] {
          Write(Line(path, [0x7B, 0x7D]));
          OneLine(v, at);
          return true;
        }
        ok := WriteMapping(v, path, at);
      } else if v.Sequence? {
        if v.items == [] {
          Write(Line(path, [0x5B, 0x5D]));
          OneLine(v, at);
        }
        if v.items != [] && AllTextKeys(v) {
          PrintedWhole(v, at);
        }
        for i := 0 to |v.items|
          invariant forall k :: 0 <= k < i ==> AllTextKeys(v.items[k])
          invariant old(text) <= text
          invariant v.items == [] ==> text == old(text) + Printed(v, at)
          invariant v.items != [] && AllTextKeys(v) ==> text == old(text) + PrintedItems(v, i, at)
        {
          PathOfAppend(at, Index(i));
          var written := WriteValue(path + [OPEN] + Decimal(i) + [CLOSE], v.items[i], at + [Index(i)]);
          if !written {
            return false;
          }
          if AllTextKeys(v) {
            ItemPrinted(v, i, at);
          }
        }
        ok := true;
      } else {
        Write(Line(path, v.shown));
        OneLine(v, at);
        ok := true;
      }
    }

    /** `_write_mapping` on a mapping that is not empty. */
    method WriteMapping(v: Value, prefix: Text, ghost at: seq<Step>) returns (ok: bool)
      requires v.Mapping? && prefix == PathOf(at)
      modifies this
      ensures ok <==> AllTextKeys(v)
      ensures ok ==> text == old(text) + if v.entries == [] then [] else Printed(v, at)
      ensures old(text) <= text
      decreases v, 0
    {
      hide AllTextKeys, PathOf, Printed, PrintedEntries, PathForKey;
      TextKeysOf(v);
      if AllTextKeys(v) {
        PrintedWhole(v, at);
      }
      for i := 0 to |v.entries|
        invariant forall k :: 0 <= k < i ==> v.entries[k].key.TextKey? && AllTextKeys(v.entries[k].value)
        invariant old(text) <= text
        invariant AllTextKeys(v) ==> text == old(text) + PrintedEntries(v, i, at)
      {
        var entry := v.entries[i];
        if entry.key.OtherKey? {
          return false;
        }
        ghost var there := at + [Key(entry.key.text)];
        PathOfAppend(at, Key(entry.key.text));
        var written := WriteValue(PathForKey(prefix, entry.key.text), entry.value, there);
        if !written {
          return false;
        }
        if AllTextKeys(v) {
          EntryPrinted(v, i, at);
        }
      }
      ok := true;
    }
  }

  lemma OneLine(v: Value, at: seq<Step>)
    requires IsTerminal(v)
    ensures AllTextKeys(v) && Printed(v, at) == Line(PathOf(at), ShownTerminal(v))
  {
    hide PathOf, Line;
    var only := Terminal(at, v);
    assert Terminals(v, at) == [only];
    assert Lines([only]) == Lines([only][..0]) + TerminalLine(only);
  }

  function PrintedEntries(v: Value, n: nat, at: seq<Step>): Text
    requires v.Mapping? && AllTextKeys(v) && n <= |v.entries|
  {
    EntriesAreTerminal(v, n, at);
    Lines(EntryTerminals(v, n, at))
  }

  function PrintedItems(v: Value, n: nat, at: seq<Step>): Text
    requires v.Sequence? && AllTextKeys(v) && n <= |v.items|
  {
    ItemsAreTerminal(v, n, at);
    Lines(ItemTerminals(v, n, at))
  }

  lemma PrintedWhole(v: Value, at: seq<Step>)
    requires AllTextKeys(v)
    ensures v.Mapping? ==> PrintedEntries(v, 0, at) == []
    ensures v.Sequence? ==> PrintedItems(v, 0, at) == []
    ensures v.Mapping? && v.entries != [] ==> PrintedEntries(v, |v.entries|, at) == Printed(v, at)
    ensures v.Sequence? && v.items != [] ==> PrintedItems(v, |v.items|, at) == Printed(v, at)
  {
  }

  lemma TextKeysOf(v: Value)
    ensures v.Scalar? || v == Mapping([]) || v == Sequence([]) ==> AllTextKeys(v)
    ensures v.Mapping? ==> (AllTextKeys(v) <==>
      forall i :: 0 <= i < |v.entries| ==> v.entries[i].key.TextKey? && AllTextKeys(v.entries[i].value))
    ensures v.Sequence? ==> (AllTextKeys(v) <==> forall i :: 0 <= i < |v.items| ==> AllTextKeys(v.items[i]))
  {
  }

  lemma EntryPrinted(v: Value, i: nat, at: seq<Step>)
    requires v.Mapping? && AllTextKeys(v) && i < |v.entries|
    ensures PrintedEntries(v, i + 1, at)
         == PrintedEntries(v, i, at) + Printed(v.entries[i].value, at + [Key(v.entries[i].key.text)])
  {
    EntriesAreTerminal(v, i, at);
    TerminalsAreTerminal(v.entries[i].value, at + [Key(v.entries[i].key.text)]);
    LinesOfConcat(EntryTerminals(v, i, at), Terminals(v.entries[i].value, at + [Key(v.entries[i].key.text)]));
  }

  lemma ItemPrinted(v: Value, i: nat, at: seq<Step>)
    requires v.Sequence? && AllTextKeys(v) && i < |v.items|
    ensures PrintedItems(v, i + 1, at) == PrintedItems(v, i, at) + Printed(v.items[i], at + [Index(i)])
  {
    ItemsAreTerminal(v, i, at);
    TerminalsAreTerminal(v.items[i], at + [Index(i)]);
    LinesOfConcat(ItemTerminals(v, i, at), Terminals(v.items[i], at + [Index(i)]));
  }

  // ----- every leaf, once -----

  /** No key twice in one mapping, as in every dictionary. */
  predicate DistinctKeys(v: Value) {
    match v
    case Scalar(_) => true
    case Mapping(entries) =>
      (forall i, j :: 0 <= i < j < |entries| ==> entries[i].key != entries[j].key)
      && (forall i :: 0 <= i < |entries| ==> DistinctKeys(entries[i].value))
    case Sequence(items) => forall i :: 0 <= i < |items| ==> DistinctKeys(items[i])
  }

  /** `value[k1][k2]...`, when all of these exist. */
  function Lookup(v: Value, position: seq<Step>): Option<Value>
    decreases position
  {
    if position == [] then Some(v)
    else
      match position[0]
      case Key(key) =>
        if v.Mapping? && Find(v.entries, key) < |v.entries| then Lookup(v.entries[Find(v.entries, key)].value, position[1..])
        else None
      case Index(index) =>
        if v.Sequence? && index < |v.items| then Lookup(v.items[index], position[1..]) else None
  }

  function Find(entries: seq<Entry>, key: Text): (i: nat)
    ensures i <= |entries|
    ensures i < |entries| ==> entries[i].key == TextKey(key)
    ensures forall k :: 0 <= k < i ==> entries[k].key != TextKey(key)
  {
    if entries == [] || entries[0].key == TextKey(key) then 0 else 1 + Find(entries[1..], key)
  }

  /** The line of a terminal is there exactly when looking its position up gives that terminal. */
  lemma {:induction false} TerminalIffLookup(v: Value, at: seq<Step>, p: seq<Step>, w: Value)
    requires AllTextKeys(v) && DistinctKeys(v)
    ensures Terminal(at + p, w) in Terminals(v, at) <==> Lookup(v, p) == Some(w) && IsTerminal(w)
    decreases v, 1, 0
  {
    if IsTerminal(v) {
      assert at + p == at ==> p == [];
      assert p == [] ==> at + p == at;
    } else if v.Mapping? {
      EntryTerminalIffLookup(v, |v.entries|, at, p, w);
    } else {
      ItemTerminalIffLookup(v, |v.items|, at, p, w);
    }
  }

  lemma {:induction false} EntryTerminalIffLookup(v: Value, n: nat, at: seq<Step>, p: seq<Step>, w: Value)
    requires v.Mapping? && AllTextKeys(v) && DistinctKeys(v) && n <= |v.entries|
    ensures Terminal(at + p, w) in EntryTerminals(v, n, at)
       <==> p != [] && p[0].Key? && Find(v.entries, p[0].key) < n && Lookup(v, p) == Some(w) && IsTerminal(w)
    decreases v, 0, n
  {
    if n == 0 {
    } else {
      EntryTerminalIffLookup(v, n - 1, at, p, w);
      var entry := v.entries[n - 1];
      var there := at + [Key(entry.key.text)];
      if p != [] && p[0] == Key(entry.key.text) {
        assert at + p == there + p[1..];
        TerminalIffLookup(entry.value, there, p[1..], w);
        assert Find(v.entries, p[0].key) == n - 1;
      } else {
        Elsewhere(entry.value, at, Key(entry.key.text), p, w);
      }
    }
  }

  lemma {:induction false} ItemTerminalIffLookup(v: Value, n: nat, at: seq<Step>, p: seq<Step>, w: Value)
    requires v.Sequence? && AllTextKeys(v) && DistinctKeys(v) && n <= |v.items|
    ensures Terminal(at + p, w) in ItemTerminals(v, n, at)
       <==> p != [] && p[0].Index? && p[0].index < n && Lookup(v, p) == Some(w) && IsTerminal(w)
    decreases v, 0, n
  {
    if n == 0 {
    } else {
      ItemTerminalIffLookup(v, n - 1, at, p, w);
      if p != [] && p[0] == Index(n - 1) {
        assert at + p == at + [Index(n - 1)] + p[1..];
        TerminalIffLookup(v.items[n - 1], at + [Index(n - 1)], p[1..], w);
      } else {
        Elsewhere(v.items[n - 1], at, Index(n - 1), p, w);
      }
    }
  }

  /** The terminals of a part all lie below it. */
  lemma Elsewhere(v: Value, at: seq<Step>, step: Step, p: seq<Step>, w: Value)
    requires AllTextKeys(v) && (p == [] || p[0] != step)
    ensures Terminal(at + p, w) !in Terminals(v, at + [step])
  {
    var ts := Terminals(v, at + [step]);
    forall i | 0 <= i < |ts|
      ensures ts[i].position != at + p
    {
      TerminalsBelow(v, at + [step], i);
      assert ts[i].position[|at|] == step;
    }
  }

  lemma {:induction false} TerminalsBelow(v: Value, at: seq<Step>, i: nat)
    requires AllTextKeys(v) && i < |Terminals(v, at)|
    ensures at <= Terminals(v, at)[i].position
    decreases v, 1, 0
  {
    if !IsTerminal(v) {
      if v.Mapping? {
        EntryTerminalsBelow(v, |v.entries|, at, i);
      } else {
        ItemTerminalsBelow(v, |v.items|, at, i);
      }
    }
  }

  lemma {:induction false} EntryTerminalsBelow(v: Value, n: nat, at: seq<Step>, i: nat)
    requires v.Mapping? && AllTextKeys(v) && n <= |v.entries| && i < |EntryTerminals(v, n, at)|
    ensures var p := EntryTerminals(v, n, at)[i].position;
      at <= p && |at| < |p| && exists k :: 0 <= k < n && p[|at|] == Key(v.entries[k].key.text)
    decreases v, 0, n
  {
    var before := EntryTerminals(v, n - 1, at);
    if i < |before| {
      EntryTerminalsBelow(v, n - 1, at, i);
    } else {
      var entry := v.entries[n - 1];
      TerminalsBelow(entry.value, at + [Key(entry.key.text)], i - |before|);
      assert EntryTerminals(v, n, at)[i].position[|at|] == Key(v.entries[n - 1].key.text);
    }
  }

  lemma {:induction false} ItemTerminalsBelow(v: Value, n: nat, at: seq<Step>, i: nat)
    requires v.Sequence? && AllTextKeys(v) && n <= |v.items| && i < |ItemTerminals(v, n, at)|
    ensures var p := ItemTerminals(v, n, at)[i].position;
      at <= p && |at| < |p| && p[|at|].Index? && p[|at|].index < n
    decreases v, 0, n
  {
    var before := ItemTerminals(v, n - 1, at);
    if i < |before| {
      ItemTerminalsBelow(v, n - 1, at, i);
    } else {
      TerminalsBelow(v.items[n - 1], at + [Index(n - 1)], i - |before|);
      assert ItemTerminals(v, n, at)[i].position[|at|] == Index(n - 1);
    }
  }

  /** No position is printed twice. */
  lemma {:induction false} TerminalsDistinct(v: Value, at: seq<Step>, i: nat, j: nat)
    requires AllTextKeys(v) && DistinctKeys(v) && i < j < |Terminals(v, at)|
    ensures Terminals(v, at)[i].position != Terminals(v, at)[j].position
    decreases v, 1, 0
  {
    if v.Mapping? {
      EntryTerminalsDistinct(v, |v.entries|, at, i, j);
    } else {
      ItemTerminalsDistinct(v, |v.items|, at, i, j);
    }
  }

  lemma {:induction false} EntryTerminalsDistinct(v: Value, n: nat, at: seq<Step>, i: nat, j: nat)
    requires v.Mapping? && AllTextKeys(v) && DistinctKeys(v) && n <= |v.entries|
    requires i < j < |EntryTerminals(v, n, at)|
    ensures EntryTerminals(v, n, at)[i].position != EntryTerminals(v, n, at)[j].position
    decreases v, 0, n
  {
    var before, entry := EntryTerminals(v, n - 1, at), v.entries[n - 1];
    var there := at + [Key(entry.key.text)];
    if j < |before| {
      EntryTerminalsDistinct(v, n - 1, at, i, j);
    } else if i >= |before| {
      TerminalsDistinct(entry.value, there, i - |before|, j - |before|);
    } else {
      EntryTerminalsBelow(v, n - 1, at, i);
      TerminalsBelow(entry.value, there, j - |before|);
      assert EntryTerminals(v, n, at)[j].position[|at|] == there[|at|];
    }
  }

  lemma {:induction false} ItemTerminalsDistinct(v: Value, n: nat, at: seq<Step>, i: nat, j: nat)
    requires v.Sequence? && AllTextKeys(v) && DistinctKeys(v) && n <= |v.items|
    requires i < j < |ItemTerminals(v, n, at)|
    ensures ItemTerminals(v, n, at)[i].position != ItemTerminals(v, n, at)[j].position
    decreases v, 0, n
  {
    var before, there := ItemTerminals(v, n - 1, at), at + [Index(n - 1)];
    if j < |before| {
      ItemTerminalsDistinct(v, n - 1, at, i, j);
    } else if i >= |before| {
      TerminalsDistinct(v.items[n - 1], there, i - |before|, j - |before|);
    } else {
      ItemTerminalsBelow(v, n - 1, at, i);
      TerminalsBelow(v.items[n - 1], there, j - |before|);
      assert ItemTerminals(v, n, at)[j].position[|at|] == there[|at|];
    }
  }

  /** Where two positions part, the first comes earlier in its mapping or sequence. */
  predicate Precedes(v: Value, p: seq<Step>, q: seq<Step>)
    decreases p
  {
    && p != [] && q != []
    && match v
       case Scalar(_) => false
       case Mapping(entries) =>
         && p[0].Key? && q[0].Key? && Find(entries, p[0].key) < |entries| && Find(entries, q[0].key) < |entries|
         && (Find(entries, p[0].key) < Find(entries, q[0].key)
             || (p[0] == q[0] && Precedes(entries[Find(entries, p[0].key)].value, p[1..], q[1..])))
       case Sequence(items) =>
         && p[0].Index? && q[0].Index? && p[0].index < |items| && q[0].index < |items|
         && (p[0].index < q[0].index || (p[0] == q[0] && Precedes(items[p[0].index], p[1..], q[1..])))
  }

  /** Terminals come in document order. */
  lemma {:induction false} TerminalsInOrder(v: Value, at: seq<Step>, i: nat, j: nat)
    requires AllTextKeys(v) && DistinctKeys(v) && i < j < |Terminals(v, at)|
    ensures var p, q := Terminals(v, at)[i].position, Terminals(v, at)[j].position;
      at <= p && at <= q && Precedes(v, p[|at|..], q[|at|..])
    decreases v, 1, 0
  {
    if v.Mapping? {
      EntryTerminalsInOrder(v, |v.entries|, at, i, j);
    } else {
      ItemTerminalsInOrder(v, |v.items|, at, i, j);
    }
  }

  lemma {:induction false} EntryTerminalsInOrder(v: Value, n: nat, at: seq<Step>, i: nat, j: nat)
    requires v.Mapping? && AllTextKeys(v) && DistinctKeys(v) && n <= |v.entries| && i < j < |EntryTerminals(v, n, at)|
    ensures var p, q := EntryTerminals(v, n, at)[i].position, EntryTerminals(v, n, at)[j].position;
      at <= p && at <= q && Precedes(v, p[|at|..], q[|at|..])
    decreases v, 0, n
  {
    hide Terminals, ItemTerminals, IsTerminal, Find;
    var before, entry := EntryTerminals(v, n - 1, at), v.entries[n - 1];
    var there := at + [Key(entry.key.text)];
    KeyIsFound(v, n - 1);
    if j < |before| {
      EntryTerminalsInOrder(v, n - 1, at, i, j);
    } else if i >= |before| {
      TerminalsInOrder(entry.value, there, i - |before|, j - |before|);
      BehindStep(at, Key(entry.key.text), EntryTerminals(v, n, at)[i].position);
      BehindStep(at, Key(entry.key.text), EntryTerminals(v, n, at)[j].position);
    } else {
      EntryTerminalsBelow(v, n - 1, at, i);
      var k :| 0 <= k < n - 1 && before[i].position[|at|] == Key(v.entries[k].key.text);
      KeyIsFound(v, k);
      TerminalsBelow(entry.value, there, j - |before|);
      BehindStep(at, Key(entry.key.text), EntryTerminals(v, n, at)[j].position);
    }
  }

  lemma KeyIsFound(v: Value, k: nat)
    requires v.Mapping? && AllTextKeys(v) && DistinctKeys(v) && k < |v.entries|
    ensures Find(v.entries, v.entries[k].key.text) == k
  {
    var i := Find(v.entries, v.entries[k].key.text);
    assert v.entries[k].key == TextKey(v.entries[k].key.text);
  }

  lemma BehindStep(at: seq<Step>, step: Step, p: seq<Step>)
    requires at + [step] <= p
    ensures at <= p && p[|at|..] != [] && p[|at|..][0] == step && p[|at|..][1..] == p[|at + [step]|..]
  {
  }

  lemma {:induction false} ItemTerminalsInOrder(v: Value, n: nat, at: seq<Step>, i: nat, j: nat)
    requires v.Sequence? && AllTextKeys(v) && DistinctKeys(v) && n <= |v.items| && i < j < |ItemTerminals(v, n, at)|
    ensures var p, q := ItemTerminals(v, n, at)[i].position, ItemTerminals(v, n, at)[j].position;
      at <= p && at <= q && Precedes(v, p[|at|..], q[|at|..])
    decreases v, 0, n
  {
    var before, there := ItemTerminals(v, n - 1, at), at + [Index(n - 1)];
    if j < |before| {
      ItemTerminalsInOrder(v, n - 1, at, i, j);
    } else if i >= |before| {
      TerminalsInOrder(v.items[n - 1], there, i - |before|, j - |before|);
      BehindStep(at, Index(n - 1), ItemTerminals(v, n, at)[i].position);
      BehindStep(at, Index(n - 1), ItemTerminals(v, n, at)[j].position);
    } else {
      ItemTerminalsBelow(v, n - 1, at, i);
      TerminalsBelow(v.items[n - 1], there, j - |before|);
      BehindStep(at, Index(n - 1), ItemTerminals(v, n, at)[j].position);
    }
  }

  /** Empty containers show their brackets. */
  lemma ShownContainers()
    ensures ShownTerminal(Mapping([])) == CodePoints("{}") && ShownTerminal(Sequence([])) == CodePoints("[]")
  {
  }

  predicate UnpairedKeys(v: Value) {
    match v
    case Scalar(_) => true
    case Mapping(entries) => forall i :: 0 <= i < |entries| ==>
      (entries[i].key.TextKey? ==> NoPairs(entries[i].key.text)) && UnpairedKeys(entries[i].value)
    case Sequence(items) => forall i :: 0 <= i < |items| ==> UnpairedKeys(items[i])
  }

  lemma {:induction false} LookupUnpaired(v: Value, p: seq<Step>)
    requires UnpairedKeys(v) && Lookup(v, p).Some?
    ensures Unpaired(p)
    decreases p
  {
    hide NoPairs;
    if p == [] {
    } else {
      if p[0].Key? {
        LookupUnpaired(v.entries[Find(v.entries, p[0].key)].value, p[1..]);
      } else {
        LookupUnpaired(v.items[p[0].index], p[1..]);
      }
      assert p == [p[0]] + p[1..];
    }
  }

  /** Every leaf and empty container of a dictionary tree has one line, and no other line has its path. */
  lemma EveryLeafOnce(v: Value, p: seq<Step>, w: Value)
    requires AllTextKeys(v) && DistinctKeys(v) && UnpairedKeys(v)
    ensures Lookup(v, p) == Some(w) && IsTerminal(w) <==>
      exists i :: 0 <= i < |Terminals(v, [])| && Terminals(v, [])[i] == Terminal(p, w)
    ensures forall i, j :: 0 <= i < j < |Terminals(v, [])| ==>
      PathOf(Terminals(v, [])[i].position) != PathOf(Terminals(v, [])[j].position)
  {
    hide PathOf;
    var ts := Terminals(v, []);
    assert [] + p == p;
    TerminalIffLookup(v, [], p, w);
    forall i, j | 0 <= i < j < |ts|
      ensures PathOf(ts[i].position) != PathOf(ts[j].position)
    {
      TerminalsDistinct(v, [], i, j);
      TerminalUnpaired(v, i);
      TerminalUnpaired(v, j);
      if PathOf(ts[i].position) == PathOf(ts[j].position) {
        PathInjective(ts[i].position, ts[j].position);
      }
    }
  }

  /** A leaf or an empty container stands at this position. */
  predicate EndsAt(v: Value, p: seq<Step>) {
    Lookup(v, p).Some? && IsTerminal(Lookup(v, p).value)
  }

  /** Without any condition on keys: the paths of a document are distinct exactly when no two leaves or
      empty containers stand at positions that show the same in UTF-16. */
  lemma PathsDistinctIff(v: Value)
    requires AllTextKeys(v) && DistinctKeys(v)
    ensures (forall i, j :: 0 <= i < j < |Terminals(v, [])| ==>
               PathOf(Terminals(v, [])[i].position) != PathOf(Terminals(v, [])[j].position))
      <==> forall p, q :: EndsAt(v, p) && EndsAt(v, q) && ShownAs(p) == ShownAs(q) ==> p == q
  {
    hide PathOf, ShownAs, Terminals;
    var ts := Terminals(v, []);
    if forall i, j :: 0 <= i < j < |ts| ==> PathOf(ts[i].position) != PathOf(ts[j].position) {
      forall p, q | EndsAt(v, p) && EndsAt(v, q) && ShownAs(p) == ShownAs(q)
        ensures p == q
      {
        var i := TerminalOf(v, p);
        var j := TerminalOf(v, q);
        SamePathIff(p, q);
        assert i == j;
      }
    }
    if forall p, q :: EndsAt(v, p) && EndsAt(v, q) && ShownAs(p) == ShownAs(q) ==> p == q {
      forall i, j | 0 <= i < j < |ts|
        ensures PathOf(ts[i].position) != PathOf(ts[j].position)
      {
        TerminalEnds(v, i);
        TerminalEnds(v, j);
        TerminalsDistinct(v, [], i, j);
        SamePathIff(ts[i].position, ts[j].position);
      }
    }
  }

  lemma TerminalOf(v: Value, p: seq<Step>) returns (i: nat)
    requires AllTextKeys(v) && DistinctKeys(v) && EndsAt(v, p)
    ensures i < |Terminals(v, [])| && Terminals(v, [])[i].position == p
  {
    assert [] + p == p;
    TerminalIffLookup(v, [], p, Lookup(v, p).value);
    i :| 0 <= i < |Terminals(v, [])| && Terminals(v, [])[i] == Terminal(p, Lookup(v, p).value);
  }

  lemma TerminalEnds(v: Value, i: nat)
    requires AllTextKeys(v) && DistinctKeys(v) && i < |Terminals(v, [])|
    ensures EndsAt(v, Terminals(v, [])[i].position)
  {
    var t := Terminals(v, [])[i];
    assert [] + t.position == t.position && Terminal(t.position, t.value) == t;
    TerminalIffLookup(v, [], t.position, t.value);
  }

  lemma TerminalUnpaired(v: Value, i: nat)
    requires AllTextKeys(v) && DistinctKeys(v) && UnpairedKeys(v) && i < |Terminals(v, [])|
    ensures Unpaired(Terminals(v, [])[i].position)
  {
    var t := Terminals(v, [])[i];
    assert [] + t.position == t.position && Terminal(t.position, t.value) == t;
    TerminalIffLookup(v, [], t.position, t.value);
    LookupUnpaired(v, t.position);
  }

  // ----- reading a document back -----

  /** A field of the document: its path as shown, and its rendered value. */
  datatype Field = Field(path: seq<Shown>, shown: Text)

  function ReadShown(t: Text): (r: Option<Read<Text>>)
    ensures r.Some? ==> |r.value.rest| < |t|
  {
    if t == [] then None
    else if t[0] == LF then Some(Read([], t[1..]))
    else
      var more := ReadShown(t[1..]);
      if more.None? then None else Some(Read([t[0]] + more.value.value, more.value.rest))
  }

  function ReadLine(t: Text): (r: Option<Read<Field>>)
    ensures r.Some? ==> |r.value.rest| < |t|
  {
    if |t| < 2 || t[..2] != [DASH, SPACE] then None else
      var path := ReadPath(t[2..]);
      if path.None? || |path.value.rest| < 2 || path.value.rest[..2] != [COLON, SPACE] then None else
        var shown := ReadShown(path.value.rest[2..]);
        if shown.None? then None else Some(Read(Field(path.value.value, shown.value.value), shown.value.rest))
  }

  function ReadLines(t: Text): Option<seq<Field>>
    decreases |t|
  {
    if t == [] then Some([])
    else
      var line := ReadLine(t);
      if line.None? then None else
        var more := ReadLines(line.value.rest);
        if more.None? then None else Some([line.value.value] + more.value)
  }

  lemma {:induction false} ShownIsRead(shown: Text, rest: Text)
    requires LF !in shown
    ensures ReadShown(shown + [LF] + rest) == Some(Read(shown, rest))
  {
    var t := shown + [LF] + rest;
    if shown == [] {
      assert t[1..] == rest;
    } else {
      assert t[0] == shown[0] && t[1..] == shown[1..] + [LF] + rest;
      ShownIsRead(shown[1..], rest);
      assert [shown[0]] + shown[1..] == shown;
    }
  }

  lemma LineIsRead(position: seq<Step>, shown: Text, rest: Text)
    requires position != [] && LF !in shown
    ensures ReadLine(Line(PathOf(position), shown) + rest) == Some(Read(Field(ShownAs(position), shown), rest))
  {
    hide PathOf, ReadPath, ReadShown, ShownAs;
    var t := Line(PathOf(position), shown) + rest;
    var behind := [COLON, SPACE] + (shown + [LF] + rest);
    assert t[..2] == [DASH, SPACE] && t[2..] == PathOf(position) + behind;
    PathIsRead(position, behind);
    assert behind[..2] == [COLON, SPACE] && behind[2..] == shown + [LF] + rest;
    ShownIsRead(shown, rest);
  }

  function FieldOf(t: Terminal): Field
    requires IsTerminal(t.value)
  {
    Field(ShownAs(t.position), ShownTerminal(t.value))
  }

  function FieldsOf(ts: seq<Terminal>): seq<Field>
    requires forall i :: 0 <= i < |ts| ==> IsTerminal(ts[i].value)
  {
    seq(|ts|, i requires 0 <= i < |ts| => FieldOf(ts[i]))
  }

  ghost predicate Readable(ts: seq<Terminal>) {
    AreTerminals(ts) && forall i :: 0 <= i < |ts| ==> ts[i].position != [] && LF !in ShownTerminal(ts[i].value)
  }

  lemma {:induction false} LinesAreRead(ts: seq<Terminal>, rest: Text, fields: seq<Field>)
    requires Readable(ts) && ReadLines(rest) == Some(fields)
    ensures ReadLines(Lines(ts) + rest) == Some(FieldsOf(ts) + fields)
  {
    hide ReadLine, ReadLines, TerminalLine, FieldOf, IsTerminal, ShownTerminal;
    if ts == [] {
      assert Lines(ts) + rest == rest && FieldsOf(ts) + fields == fields;
    } else {
      var init, last := ts[..|ts| - 1], ts[|ts| - 1];
      var more := TerminalLine(last) + rest;
      LineOfTerminalIsRead(last, rest);
      FirstLineIsRead(more, FieldOf(last), rest, fields);
      LinesAreRead(init, more, [FieldOf(last)] + fields);
      assert Lines(ts) + rest == Lines(init) + more;
      assert FieldsOf(ts) + fields == FieldsOf(init) + ([FieldOf(last)] + fields);
    }
  }

  lemma FirstLineIsRead(t: Text, field: Field, rest: Text, fields: seq<Field>)
    requires t != [] && ReadLine(t) == Some(Read(field, rest)) && ReadLines(rest) == Some(fields)
    ensures ReadLines(t) == Some([field] + fields)
  {
  }

  lemma LineOfTerminalIsRead(t: Terminal, rest: Text)
    requires IsTerminal(t.value) && t.position != [] && LF !in ShownTerminal(t.value)
    ensures TerminalLine(t) + rest != []
    ensures ReadLine(TerminalLine(t) + rest) == Some(Read(FieldOf(t), rest))
  {
    LineIsRead(t.position, ShownTerminal(t.value), rest);
  }

  /** Scalars are rendered on one line. */
  predicate OneLineScalars(v: Value) {
    match v
    case Scalar(shown) => LF !in shown
    case Mapping(entries) => forall i :: 0 <= i < |entries| ==> OneLineScalars(entries[i].value)
    case Sequence(items) => forall i :: 0 <= i < |items| ==> OneLineScalars(items[i])
  }

  lemma {:induction false} LookupOneLine(v: Value, p: seq<Step>)
    requires OneLineScalars(v) && Lookup(v, p).Some?
    ensures OneLineScalars(Lookup(v, p).value)
    decreases p
  {
    if p == [] {
    } else if p[0].Key? {
      LookupOneLine(v.entries[Find(v.entries, p[0].key)].value, p[1..]);
    } else {
      LookupOneLine(v.items[p[0].index], p[1..]);
    }
  }

  /** The text written for a mapping decodes to its leaves, in order: nothing is lost or merged. */
  lemma DocumentIsRead(v: Value)
    requires v.Mapping? && v.entries != [] && AllTextKeys(v) && DistinctKeys(v) && OneLineScalars(v)
    ensures AreTerminals(Terminals(v, []))
    ensures ReadLines(Printed(v, [])) == Some(FieldsOf(Terminals(v, [])))
  {
    hide ReadLines, FieldOf;
    var ts := Terminals(v, []);
    TerminalsAreTerminal(v, []);
    forall i | 0 <= i < |ts|
      ensures ts[i].position != [] && LF !in ShownTerminal(ts[i].value)
    {
      var t := ts[i];
      assert [] + t.position == t.position && Terminal(t.position, t.value) == t;
      TerminalIffLookup(v, [], t.position, t.value);
      LookupOneLine(v, t.position);
    }
    EmptyIsRead();
    LinesAreRead(ts, [], []);
    assert Lines(ts) + [] == Lines(ts) && FieldsOf(ts) + [] == FieldsOf(ts);
  }

  lemma EmptyIsRead()
    ensures ReadLines([]) == Some([])
  {
  }
}
