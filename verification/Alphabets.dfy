/** Alphabets that spell digits, and the string searches the decoder uses. */
module Alphabets {
  import opened Wrappers
  import opened Positional

  /** Python's `s.find(c)` for one character. */
  function Find(s: string, c: char): (r: int)
    ensures -1 <= r < |s|
    ensures r >= 0 ==> s[r] == c && c !in s[..r]
    ensures r < 0 ==> c !in s
  {
    if s == [] then -1
    else if s[0] == c then 0
    else
      var rest := Find(s[1..], c);
      assert s == [s[0]] + s[1..];
      if rest < 0 then -1 else
        assert s[..rest + 1] == [s[0]] + s[1..][..rest];
        rest + 1
  }

  /** Python's `s.rfind(c)` for one character. */
  function RFind(s: string, c: char): (r: int)
    ensures -1 <= r < |s|
    ensures r >= 0 ==> s[r] == c && c !in s[r + 1..]
    ensures r < 0 ==> c !in s
  {
    if s == [] then -1
    else if s[|s| - 1] == c then |s| - 1
    else
      var r := RFind(s[..|s| - 1], c);
      assert s == s[..|s| - 1] + [s[|s| - 1]];
      if r >= 0 then
        assert s[r + 1..] == s[..|s| - 1][r + 1..] + [s[|s| - 1]];
        r
      else r
  }

  predicate Distinct(alphabet: string) {
    forall i, j :: 0 <= i < j < |alphabet| ==> alphabet[i] != alphabet[j]
  }

  predicate Spelled(alphabet: string, s: string) {
    forall i :: 0 <= i < |s| ==> s[i] in alphabet
  }

  function Indices(alphabet: string, s: string): (digits: seq<nat>)
    requires Spelled(alphabet, s)
    ensures |digits| == |s| && IsDigits(|alphabet|, digits)
  {
    seq(|s|, i requires 0 <= i < |s| => Find(alphabet, s[i]))
  }

  function Spell(alphabet: string, digits: seq<nat>): (s: string)
    requires IsDigits(|alphabet|, digits)
    ensures |s| == |digits| && Spelled(alphabet, s)
  {
    seq(|digits|, i requires 0 <= i < |digits| => alphabet[digits[i]])
  }

  lemma SpellInvertsIndices(alphabet: string, s: string)
    requires Spelled(alphabet, s)
    ensures Spell(alphabet, Indices(alphabet, s)) == s
  {
  }

  lemma FindAt(alphabet: string, i: nat)
    requires Distinct(alphabet) && i < |alphabet|
    ensures Find(alphabet, alphabet[i]) == i
  {
  }

  lemma IndicesInvertSpell(alphabet: string, digits: seq<nat>)
    requires Distinct(alphabet) && IsDigits(|alphabet|, digits)
    ensures Indices(alphabet, Spell(alphabet, digits)) == digits
  {
    forall i | 0 <= i < |digits|
      ensures Find(alphabet, Spell(alphabet, digits)[i]) == digits[i]
    {
      FindAt(alphabet, digits[i]);
    }
  }

  /** The last occurrence is where nothing after it matches. */
  lemma RFindAt(s: string, c: char, i: nat)
    requires i < |s| && s[i] == c && c !in s[i + 1..]
    ensures RFind(s, c) == i
  {
  }
}
