/** Python's `sorted`: a stable insertion sort by an order given as a predicate. */
module Sorting {
  import opened Sequences

  function Insert<T>(leq: (T, T) -> bool, x: T, s: seq<T>): (r: seq<T>)
    ensures multiset(r) == multiset(s) + multiset{x}
  {
    if s == [] || leq(x, s[0]) then [x] + s
    else
      assert s == [s[0]] + s[1..];
      [s[0]] + Insert(leq, x, s[1..])
  }

  function Sort<T>(leq: (T, T) -> bool, s: seq<T>): (r: seq<T>)
    ensures multiset(r) == multiset(s)
  {
    if s == [] then []
    else
      assert s == [s[0]] + s[1..];
      Insert(leq, s[0], Sort(leq, s[1..]))
  }

  lemma SortKeeps<T>(leq: (T, T) -> bool, s: seq<T>)
    ensures forall x :: x in Sort(leq, s) <==> x in s
    ensures NoDuplicates(s) ==> NoDuplicates(Sort(leq, s))
    ensures Sort(leq, s) == [] <==> s == []
  {
    var r := Sort(leq, s);
    forall x
      ensures x in r <==> x in s
    {
      assert x in r <==> x in multiset(r);
      assert x in s <==> x in multiset(s);
    }
    if NoDuplicates(s) {
      CountsOfDistinct(s);
      DistinctFromCounts(r);
    }
    assert |r| == |multiset(r)| == |multiset(s)| == |s|;
  }

  ghost predicate IsOrder<T(!new)>(leq: (T, T) -> bool) {
    && (forall x, y :: leq(x, y) || leq(y, x))
    && (forall x, y, z :: leq(x, y) && leq(y, z) ==> leq(x, z))
  }

  ghost predicate IsSorted<T>(leq: (T, T) -> bool, s: seq<T>) {
    forall i, j :: 0 <= i < j < |s| ==> leq(s[i], s[j])
  }

  lemma {:induction false} SortSorts<T(!new)>(leq: (T, T) -> bool, s: seq<T>)
    requires IsOrder(leq)
    ensures IsSorted(leq, Sort(leq, s))
  {
    if s == [] {
    } else {
      SortSorts(leq, s[1..]);
      InsertKeepsSorted(leq, s[0], Sort(leq, s[1..]));
    }
  }

  lemma {:induction false} InsertKeepsSorted<T(!new)>(leq: (T, T) -> bool, x: T, s: seq<T>)
    requires IsOrder(leq) && IsSorted(leq, s)
    ensures IsSorted(leq, Insert(leq, x, s))
  {
    if s == [] || leq(x, s[0]) {
    } else {
      var tail := Insert(leq, x, s[1..]);
      InsertKeepsSorted(leq, x, s[1..]);
      forall i | 0 <= i < |tail|
        ensures leq(s[0], tail[i])
      {
        assert tail[i] in multiset(tail);
        assert tail[i] == x || tail[i] in s[1..];
      }
    }
  }

  /** The order of strings: by code point, a prefix first. */
  predicate StringLeq(a: string, b: string) {
    a == "" || (b != "" && (a[0] < b[0] || (a[0] == b[0] && StringLeq(a[1..], b[1..]))))
  }

  /** Where two strings first differ, the smaller code point comes first, and a prefix before what it begins. */
  lemma {:induction false} StringLeqIff(a: string, b: string)
    ensures StringLeq(a, b) <==>
      a <= b || exists i :: 0 <= i < |a| && i < |b| && a[..i] == b[..i] && a[i] < b[i]
    decreases |a|
  {
    if a == "" || b == "" {
    } else if a[0] != b[0] {
      assert a[..0] == b[..0];
      assert forall i :: 0 < i < |a| && i < |b| ==> a[..i][0] == a[0] && b[..i][0] == b[0];
    } else {
      StringLeqIff(a[1..], b[1..]);
      assert a == [a[0]] + a[1..] && b == [b[0]] + b[1..];
      if i :| 0 <= i < |a[1..]| && i < |b[1..]| && a[1..][..i] == b[1..][..i] && a[1..][i] < b[1..][i] {
        assert a[..i + 1] == [a[0]] + a[1..][..i] && b[..i + 1] == [b[0]] + b[1..][..i];
        assert a[i + 1] < b[i + 1];
      }
      if i :| 0 <= i < |a| && i < |b| && a[..i] == b[..i] && a[i] < b[i] {
        assert a[1..][..i - 1] == a[..i][1..] && b[1..][..i - 1] == b[..i][1..];
        assert a[1..][i - 1] < b[1..][i - 1];
      }
    }
  }

  lemma {:induction false} StringOrder(a: string, b: string, c: string)
    ensures StringLeq(a, b) || StringLeq(b, a)
    ensures StringLeq(a, b) && StringLeq(b, c) ==> StringLeq(a, c)
    ensures StringLeq(a, b) && StringLeq(b, a) ==> a == b
    decreases |a|
  {
    if a == "" || b == "" {
    } else {
      StringOrder(a[1..], b[1..], if c == "" then "" else c[1..]);
      assert a == [a[0]] + a[1..] && b == [b[0]] + b[1..];
    }
  }

  const BY_TEXT: (string, string) -> bool := (a, b) => StringLeq(a, b)

  /** Names in a bill of materials come sorted by code point, each once. */
  function SortedNames(names: seq<string>): (r: seq<string>) {
    Sort(BY_TEXT, FirstOccurrences(names))
  }

  lemma SortedNamesOf(names: seq<string>)
    ensures forall n :: n in SortedNames(names) <==> n in names
    ensures NoDuplicates(SortedNames(names)) && IsSorted(BY_TEXT, SortedNames(names))
    ensures SortedNames(names) == [] <==> names == []
  {
    FirstOccurrencesAreDistinct(names);
    SortKeeps(BY_TEXT, FirstOccurrences(names));
    forall a, b, c
      ensures BY_TEXT(a, b) || BY_TEXT(b, a)
      ensures BY_TEXT(a, b) && BY_TEXT(b, c) ==> BY_TEXT(a, c)
    {
      StringOrder(a, b, c);
    }
    SortSorts(BY_TEXT, FirstOccurrences(names));
    if names != [] {
      assert names[0] in FirstOccurrences(names);
    }
  }
}
