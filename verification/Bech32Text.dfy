/** Bech32 and bech32m strings: splitting one, and the reference encoder of BIP-173 and BIP-350. */
module Bech32Text {
  import opened Casings
  import opened Wrappers
  import opened Bits
  import opened Positional
  import opened Alphabets
  import opened Bech32

  /** What Python's text methods answer. Only what a theorem needs is assumed of them, by name. */
  datatype Text = Text(casing: Casing, isSpace: char -> bool)

  datatype Split = Split(hrp: string, data: seq<nat>, encoding: Encoding)

  lemma CharsetIsDistinct()
    ensures |CHARSET| == SYMBOLS && Distinct(CHARSET) && '1' !in CHARSET
  {
  }

  /** `ord(c) >> 5` and `ord(c) & 31` of every character, with a zero between. */
  function ExpandHrp(hrp: string): (values: seq<nat>)
    ensures |values| == 2 * |hrp| + 1
  {
    seq(|hrp|, i requires 0 <= i < |hrp| => hrp[i] as int / 32) + [0]
    + seq(|hrp|, i requires 0 <= i < |hrp| => hrp[i] as int % 32)
  }

  /** The expansion of BIP-173: first what is above the low five bits of every character, then a zero,
      then the low five bits. */
  lemma ExpansionRecombines(hrp: string)
    ensures var values, n := ExpandHrp(hrp), |hrp|;
      var high, low := values[..n], values[n + 1..];
      && |low| == n && values[n] == 0
      && (forall i :: 0 <= i < n ==> high[i] * 32 + low[i] == hrp[i] as int && low[i] < 32)
      && ((forall i :: 0 <= i < n ==> hrp[i] < 128 as char) ==> forall i :: 0 <= i < n ==> high[i] < 4)
  {
    var values, n := ExpandHrp(hrp), |hrp|;
    forall i | 0 <= i < n
      ensures values[i] == hrp[i] as int / 32 && values[n + 1 + i] == hrp[i] as int % 32
    {
    }
  }

  /** The register after the human-readable part. */
  function HrpResidue(hrp: string): (c: nat)
    ensures c < Pow2(WORD_BITS)
  {
    ExpandedAreWords(hrp);
    ResidueBelow(1, ExpandHrp(hrp));
    Residue(ExpandHrp(hrp))
  }

  lemma ExpandedAreWords(hrp: string)
    ensures IsDigits(Pow2(WORD_BITS), ExpandHrp(hrp)) && 1 < Pow2(WORD_BITS)
  {
    Widths();
  }

  predicate CaseUniform(text: Text, address: string) {
    address == text.casing.lower(address) || address == text.casing.upper(address)
  }

  /** The symbols of a tail, or None when a character is outside the alphabet. */
  function TailSymbols(tail: string): (r: Option<seq<nat>>)
  {
    if Spelled(CHARSET, tail) then Some(Indices(CHARSET, tail)) else None
  }

  /** Which encoding a residue stands for. */
  function Verdict(residue: nat): Option<Encoding> {
    if residue == Constant(Bech32) then Some(Bech32)
    else if residue == Constant(Bech32m) then Some(Bech32m)
    else None
  }

  /** What `_bech32_decode` computes. */
  function Decoded(text: Text, address: string): (r: Option<Split>)
  {
    if !CaseUniform(text, address) then None else
      var lowered := text.casing.lower(address);
      var separator := RFind(lowered, '1');
      if separator < 1 || separator + 7 > |lowered| then None else
        var hrp, data := lowered[..separator], TailSymbols(lowered[separator + 1..]);
        if data.None? then None else
          var encoding := Verdict(Residue(ExpandHrp(hrp) + data.value));
          if encoding.None? then None
          else Some(Split(hrp, data.value[..|data.value| - CHECKSUM_LENGTH], encoding.value))
  }

  method Decode(text: Text, address: string) returns (r: Option<Split>)
    ensures r == Decoded(text, address)
  {
    hide Residue, ExpandHrp, TailSymbols, Find, Constant, RFind;
    if address != text.casing.lower(address) && address != text.casing.upper(address) {
      return None;
    }
    var lowered := text.casing.lower(address);
    var separator := RFind(lowered, '1');
    if separator < 1 || separator + 7 > |lowered| {
      return None;
    }
    var hrp, tail := lowered[..separator], lowered[separator + 1..];
    var data: seq<nat> := [];
    NoSymbols();
    for i := 0 to |tail|
      invariant TailSymbols(tail[..i]) == Some(data) && |data| == i
    {
      var index := Find(CHARSET, tail[i]);
      NextSymbol(tail, i);
      if index < 0 {
        return None;
      }
      data := data + [index];
    }
    assert tail[..|tail|] == tail;
    var residue := Polymod(ExpandHrp(hrp) + data);
    if residue == Constant(Bech32) {
      return Some(Split(hrp, data[..|data| - CHECKSUM_LENGTH], Bech32));
    }
    if residue == Constant(Bech32m) {
      return Some(Split(hrp, data[..|data| - CHECKSUM_LENGTH], Bech32m));
    }
    return None;
  }

  lemma NoSymbols()
    ensures TailSymbols("") == Some([])
  {
  }

  lemma NextSymbol(tail: string, i: nat)
    requires i < |tail|
    ensures Find(CHARSET, tail[i]) < 0 ==> TailSymbols(tail) == None
    ensures Find(CHARSET, tail[i]) >= 0 && TailSymbols(tail[..i]).Some? ==>
      TailSymbols(tail[..i + 1]) == Some(TailSymbols(tail[..i]).value + [Find(CHARSET, tail[i])])
  {
    hide CHARSET;
    assert tail[..i + 1] == tail[..i] + [tail[i]];
    if Spelled(CHARSET, tail[..i]) && Find(CHARSET, tail[i]) >= 0 {
      assert Indices(CHARSET, tail[..i + 1]) == Indices(CHARSET, tail[..i]) + [Find(CHARSET, tail[i])];
    }
  }

  /** A string in mixed case is refused. */
  lemma MixedCaseIsRefused(text: Text, address: string)
    requires address != text.casing.lower(address) && address != text.casing.upper(address)
    ensures Decoded(text, address) == None
  {
  }

  // ----- the reference encoder -----

  /** The six checksum symbols BIP-173 and BIP-350 append to `data`. */
  function Checksum(hrp: string, data: seq<nat>, encoding: Encoding): (symbols: seq<nat>)
    ensures |symbols| == CHECKSUM_LENGTH
  {
    ChecksumFrom(ResidueFrom(HrpResidue(hrp), data), Constant(encoding))
  }

  lemma ConstantBelow(encoding: Encoding)
    ensures Constant(encoding) < Pow2(WORD_BITS)
  {
    Widths();
  }

  lemma DataResidueBelow(hrp: string, data: seq<nat>)
    requires Symbols(data)
    ensures ResidueFrom(HrpResidue(hrp), data) < Pow2(WORD_BITS)
  {
    SymbolsAreWords(data);
    ResidueBelow(HrpResidue(hrp), data);
  }

  lemma ChecksumIsSymbols(hrp: string, data: seq<nat>, encoding: Encoding)
    requires Symbols(data)
    ensures Symbols(data + Checksum(hrp, data, encoding))
  {
    DataResidueBelow(hrp, data);
    ConstantBelow(encoding);
    ChecksumUnique(ResidueFrom(HrpResidue(hrp), data), Constant(encoding), Zeros(CHECKSUM_LENGTH));
  }

  /** The whole string: human-readable part, separator, data and checksum. */
  function Encode(hrp: string, data: seq<nat>, encoding: Encoding): (s: string)
    requires Symbols(data)
    ensures |s| == |hrp| + 1 + |data| + CHECKSUM_LENGTH
  {
    ChecksumIsSymbols(hrp, data, encoding);
    CharsetIsDistinct();
    hrp + "1" + Spell(CHARSET, data + Checksum(hrp, data, encoding))
  }

  /** The residue of a complete data part is that of its payload and then its checksum. */
  lemma ResidueOfParts(hrp: string, data: seq<nat>, suffix: seq<nat>)
    ensures Residue(ExpandHrp(hrp) + (data + suffix)) == ResidueFrom(ResidueFrom(HrpResidue(hrp), data), suffix)
  {
    hide ResidueFrom, ExpandHrp;
    ResidueConcat(1, ExpandHrp(hrp), data + suffix);
    ResidueConcat(HrpResidue(hrp), data, suffix);
  }

  /** Exactly one checksum verifies for a human-readable part, a payload and an encoding. */
  lemma VerdictOfSuffix(hrp: string, data: seq<nat>, suffix: seq<nat>, encoding: Encoding)
    requires Symbols(data) && Symbols(suffix) && |suffix| == CHECKSUM_LENGTH
    ensures Verdict(Residue(ExpandHrp(hrp) + (data + suffix))) == Some(encoding)
       <==> suffix == Checksum(hrp, data, encoding)
  {
    hide ResidueFrom, ExpandHrp, HrpResidue;
    ResidueOfParts(hrp, data, suffix);
    DataResidueBelow(hrp, data);
    ConstantBelow(encoding);
    ChecksumUnique(ResidueFrom(HrpResidue(hrp), data), Constant(encoding), suffix);
  }

  lemma NotSpelled(alphabet: string, s: string, c: char)
    requires Spelled(alphabet, s) && c !in alphabet
    ensures c !in s
  {
  }

  /** An encoded string splits at the separator the encoder wrote, whatever the prefix holds. */
  lemma EncodedSplits(hrp: string, tail: string)
    requires Spelled(CHARSET, tail)
    ensures RFind(hrp + "1" + tail, '1') == |hrp|
    ensures (hrp + "1" + tail)[..|hrp|] == hrp && (hrp + "1" + tail)[|hrp| + 1..] == tail
  {
    hide *;
    CharsetIsDistinct();
    NotSpelled(CHARSET, tail, '1');
    var s := hrp + "1" + tail;
    assert s[|hrp| + 1..] == tail && s[..|hrp|] == hrp && s[|hrp|] == '1';
    RFindAt(s, '1', |hrp|);
  }

  /** Decoding accepts exactly the encoder's strings, in one case, and returns what was encoded. */
  lemma DecodeInvertsEncode(text: Text, address: string, split: Split)
    ensures Decoded(text, address) == Some(split) <==>
      && CaseUniform(text, address) && split.hrp != "" && Symbols(split.data)
      && text.casing.lower(address) == Encode(split.hrp, split.data, split.encoding)
  {
    if Decoded(text, address) == Some(split) {
      DecodedIsEncoded(text, address, split);
    }
    if CaseUniform(text, address) && split.hrp != "" && Symbols(split.data)
       && text.casing.lower(address) == Encode(split.hrp, split.data, split.encoding) {
      EncodedIsDecoded(text, address, split);
    }
  }

  lemma DecodedIsEncoded(text: Text, address: string, split: Split)
    requires Decoded(text, address) == Some(split)
    ensures CaseUniform(text, address) && split.hrp != "" && Symbols(split.data)
    ensures text.casing.lower(address) == Encode(split.hrp, split.data, split.encoding)
  {
    hide ResidueFrom, ExpandHrp, Checksum;
    CharsetIsDistinct();
    var lowered := text.casing.lower(address);
    var separator := RFind(lowered, '1');
    var tail := lowered[separator + 1..];
    var all := Indices(CHARSET, tail);
    var n := |all| - CHECKSUM_LENGTH;
    assert all == all[..n] + all[n..];
    VerdictOfSuffix(split.hrp, all[..n], all[n..], split.encoding);
    SpellInvertsIndices(CHARSET, tail);
    assert lowered == lowered[..separator] + "1" + tail;
  }

  lemma EncodedIsDecoded(text: Text, address: string, split: Split)
    requires CaseUniform(text, address) && split.hrp != "" && Symbols(split.data)
    requires text.casing.lower(address) == Encode(split.hrp, split.data, split.encoding)
    ensures Decoded(text, address) == Some(split)
  {
    hide ResidueFrom, ExpandHrp, Checksum;
    CharsetIsDistinct();
    var checksum := Checksum(split.hrp, split.data, split.encoding);
    ChecksumIsSymbols(split.hrp, split.data, split.encoding);
    assert Symbols(checksum) by {
      assert checksum == (split.data + checksum)[|split.data|..];
    }
    EncodedSplits(split.hrp, Spell(CHARSET, split.data + checksum));
    IndicesInvertSpell(CHARSET, split.data + checksum);
    VerdictOfSuffix(split.hrp, split.data, checksum, split.encoding);
  }
}
