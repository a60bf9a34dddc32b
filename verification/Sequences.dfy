/** Sequences without repetition, as Python's `dict.fromkeys` leaves them. */
module Sequences {
  predicate NoDuplicates<T(==)>(s: seq<T>) {
    forall i, j :: 0 <= i < j < |s| ==> s[i] != s[j]
  }

  /** `list(dict.fromkeys(s))`: every element once, at the place of its first occurrence. */
  function FirstOccurrences<T(==)>(s: seq<T>): (r: seq<T>)
    ensures forall x :: x in r ==> x in s
    ensures forall x :: x in s ==> x in r
  {
    if s == [] then []
    else
      var init, last := s[..|s| - 1], s[|s| - 1];
      assert s == init + [last];
      if last in init then FirstOccurrences(init) else FirstOccurrences(init) + [last]
  }

  lemma {:induction false} FirstOccurrencesAreDistinct<T>(s: seq<T>)
    ensures NoDuplicates(FirstOccurrences(s))
  {
    if s == [] {
    } else {
      FirstOccurrencesAreDistinct(s[..|s| - 1]);
    }
  }

  /** Where `x` first stands in `s`. */
  function IndexOf<T(==)>(s: seq<T>, x: T): (i: nat)
    requires x in s
    ensures i < |s| && s[i] == x && x !in s[..i]
  {
    if s[0] == x then 0
    else
      var i := IndexOf(s[1..], x) + 1;
      assert s[..i] == [s[0]] + s[1..][..i - 1];
      i
  }

  /** The order kept is that of first occurrence. */
  lemma {:induction false} FirstOccurrencesKeepOrder<T>(s: seq<T>, i: nat, j: nat)
    requires i < j < |FirstOccurrences(s)|
    ensures IndexOf(s, FirstOccurrences(s)[i]) < IndexOf(s, FirstOccurrences(s)[j])
  {
    var r, init, last := FirstOccurrences(s), s[..|s| - 1], s[|s| - 1];
    assert s == init + [last];
    IndexOfPrefix(init, last, r[i]);
    if last !in init && j == |r| - 1 {
    } else {
      FirstOccurrencesKeepOrder(init, i, j);
      IndexOfPrefix(init, last, r[j]);
    }
  }

  lemma IndexOfPrefix<T>(init: seq<T>, last: T, x: T)
    ensures x in init ==> IndexOf(init + [last], x) == IndexOf(init, x)
    ensures x !in init && x == last ==> IndexOf(init + [last], x) == |init|
  {
    var s := init + [last];
    if x in init {
      var j := IndexOf(init, x);
      assert s[j] == x;
      assert s[..j] == init[..j];
    } else if x == last {
      assert s[|init|] == x;
    }
  }

  /** A sequence without repetition is its own list of first occurrences. */
  lemma {:induction false} DistinctUnchanged<T>(s: seq<T>)
    requires NoDuplicates(s)
    ensures FirstOccurrences(s) == s
  {
    if s == [] {
    } else {
      DistinctUnchanged(s[..|s| - 1]);
    }
  }

  lemma {:induction false} CountsOfDistinct<T>(s: seq<T>)
    requires NoDuplicates(s)
    ensures forall x :: multiset(s)[x] <= 1
  {
    if s == [] {
    } else {
      CountsOfDistinct(s[1..]);
      assert s == [s[0]] + s[1..];
      assert s[0] !in s[1..];
    }
  }

  lemma DistinctFromCounts<T>(s: seq<T>)
    requires forall x :: multiset(s)[x] <= 1
    ensures NoDuplicates(s)
  {
    forall i, j | 0 <= i < j < |s|
      ensures s[i] != s[j]
    {
      assert s == s[..j] + [s[j]] + s[j + 1..];
      assert s[i] in s[..j];
      assert multiset(s)[s[j]] == multiset(s[..j])[s[j]] + 1 + multiset(s[j + 1..])[s[j]];
    }
  }

  lemma HasElement<T>(s: seq<T>)
    ensures s == [] || exists x :: x in s
  {
    if s != [] {
      assert s[0] in s;
    }
  }

  function SetOf<T(==)>(s: seq<T>): set<T> {
    set x | x in s
  }

  /** Counting the elements tells whether one is repeated. */
  lemma {:induction false} DistinctBySize<T>(s: seq<T>)
    ensures |SetOf(s)| <= |s|
    ensures |SetOf(s)| == |s| <==> NoDuplicates(s)
  {
    if s == [] {
    } else {
      var init, last := s[..|s| - 1], s[|s| - 1];
      DistinctBySize(init);
      assert s == init + [last];
      assert SetOf(s) == SetOf(init) + {last};
      if NoDuplicates(init) && last !in init {
        assert NoDuplicates(s);
      } else if last in init {
        var i :| 0 <= i < |init| && init[i] == last;
        assert s[i] == s[|init|];
      } else {
        assert forall i :: 0 <= i < |init| ==> s[i] == init[i];
      }
    }
  }
}
