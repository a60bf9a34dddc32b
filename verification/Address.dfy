/** Offline decoding of Bitcoin and Litecoin addresses: segwit first, base58check otherwise. */
module Address {
  import opened Wrappers
  import opened Bits
  import opened Positional
  import opened Alphabets
  import opened Bech32
  import opened Bech32Text
  import Base58
  import ConvertBits

  type Bytes = Base58.Bytes

  const MAX_ADDRESS_CHARS: nat := 128
  const MIN_PROGRAM_BYTES: nat := 2
  const MAX_PROGRAM_BYTES: nat := 40
  const MAX_WITNESS_VERSION: nat := 16
  const PAYLOAD_BYTES: nat := 21

  datatype Chain = Bitcoin | Litecoin

  datatype Network = Mainnet | Testnet | Regtest

  datatype Ledger = Ledger(chain: Chain, network: Network)

  datatype Script = P2pkh | P2sh | V0P2wpkh | V0P2wsh | V1P2tr | WitnessVersion(version: nat)

  datatype Scheme = Ecdsa | Schnorr | UnknownScheme

  datatype AddressEncoding = Segwit(encoding: Encoding) | Base58check

  datatype AddressError =
    | EmptyAddress
    | TooLong
    | UnknownPrefix(hrp: string)
    | ProgramLength
    | Version0Length
    | EncodingMismatch
    | NotDecodable
    | PayloadLength
    | UnassignedVersion(version: nat)

  datatype Decoding =
    | Rejected(address: string, error: AddressError)
    | Accepted(
        address: string, script: Script, ledger: Ledger, scheme: Scheme, keyInOutput: bool,
        witnessVersion: Option<nat>, programLength: nat, encoding: AddressEncoding)
  {
    predicate IsSegwit() {
      Accepted? && encoding.Segwit?
    }
  }

  const HRP_LEDGERS: map<string, Ledger> := map[
    "bc" := Ledger(Bitcoin, Mainnet),
    "tb" := Ledger(Bitcoin, Testnet),
    "bcrt" := Ledger(Bitcoin, Regtest),
    "ltc" := Ledger(Litecoin, Mainnet)]

  const VERSION_BYTES: map<nat, (Script, Ledger)> := map[
    0x00 := (P2pkh, Ledger(Bitcoin, Mainnet)),
    0x05 := (P2sh, Ledger(Bitcoin, Mainnet)),
    0x6F := (P2pkh, Ledger(Bitcoin, Testnet)),
    0xC4 := (P2sh, Ledger(Bitcoin, Testnet)),
    0x30 := (P2pkh, Ledger(Litecoin, Mainnet)),
    0x32 := (P2sh, Ledger(Litecoin, Mainnet))]

  /** The signature scheme of a script class, and whether its output shows the public key. */
  function SchemeOf(script: Script): (Scheme, bool) {
    match script
    case P2pkh => (Ecdsa, false)
    case P2sh => (Ecdsa, false)
    case V0P2wpkh => (Ecdsa, false)
    case V0P2wsh => (Ecdsa, false)
    case V1P2tr => (Schnorr, true)
    case WitnessVersion(_) => (UnknownScheme, false)
  }

  function WitnessScript(version: nat, length: nat): Script {
    if version == 0 && length == 20 then V0P2wpkh
    else if version == 0 && length == 32 then V0P2wsh
    else if version == 1 && length == 32 then V1P2tr
    else WitnessVersion(version)
  }

  function ValidateWitness(version: nat, length: nat, encoding: Encoding): Option<AddressError> {
    if version == 0 && length != 20 && length != 32 then Some(Version0Length)
    else if version > MAX_WITNESS_VERSION then Some(EncodingMismatch)
    else if encoding != (if version == 0 then Bech32 else Bech32m) then Some(EncodingMismatch)
    else None
  }

  function DecodeSegwit(address: string, split: Split): Decoding {
    if split.hrp !in HRP_LEDGERS || split.data == [] then Rejected(address, UnknownPrefix(split.hrp)) else
      var version, program := split.data[0], ConvertBits.Regroup(split.data[1..], 5, 8);
      if program.None? || !(MIN_PROGRAM_BYTES <= |program.value| <= MAX_PROGRAM_BYTES)
      then Rejected(address, ProgramLength)
      else
        var error := ValidateWitness(version, |program.value|, split.encoding);
        if error.Some? then Rejected(address, error.value)
        else
          var script := WitnessScript(version, |program.value|);
          Accepted(address, script, HRP_LEDGERS[split.hrp], SchemeOf(script).0, SchemeOf(script).1,
                   Some(version), |program.value|, Segwit(split.encoding))
  }

  function DecodeBase58check(hash: Base58.Hash, address: string): Decoding {
    var payload := Base58.Checked(hash, address);
    if payload.None? then Rejected(address, NotDecodable)
    else if |payload.value| != PAYLOAD_BYTES then Rejected(address, PayloadLength)
    else if payload.value[0] !in VERSION_BYTES then Rejected(address, UnassignedVersion(payload.value[0]))
    else
      var (script, ledger) := VERSION_BYTES[payload.value[0]];
      Accepted(address, script, ledger, SchemeOf(script).0, SchemeOf(script).1, None, 20, Base58check)
  }

  /** Python's `s.strip()`. */
  function Strip(text: Text, s: string): string
    decreases |s|
  {
    if s == "" then ""
    else if text.isSpace(s[0]) then Strip(text, s[1..])
    else if text.isSpace(s[|s| - 1]) then Strip(text, s[..|s| - 1])
    else s
  }

  function Decode(text: Text, hash: Base58.Hash, address: string): Decoding {
    var candidate := Strip(text, address);
    if candidate == "" then Rejected(candidate, EmptyAddress)
    else if |candidate| > MAX_ADDRESS_CHARS then Rejected(candidate[..MAX_ADDRESS_CHARS], TooLong)
    else
      var split := Decoded(text, candidate);
      if split.Some? then DecodeSegwit(candidate, split.value) else DecodeBase58check(hash, candidate)
  }

  // ----- segwit addresses are exactly the encodings of witness programs -----

  /** The programs BIP-141 and BIP-350 give an address. */
  predicate WitnessProgram(hrp: string, version: nat, program: Bytes) {
    && hrp in HRP_LEDGERS && version <= MAX_WITNESS_VERSION
    && IsDigits(256, program) && MIN_PROGRAM_BYTES <= |program| <= MAX_PROGRAM_BYTES
    && (version == 0 ==> |program| == 20 || |program| == 32)
  }

  function EncodingOf(version: nat): Encoding {
    if version == 0 then Bech32 else Bech32m
  }

  /** The data part of a segwit address: the version symbol and the zero-padded program. */
  function SegwitData(version: nat, program: Bytes): seq<nat> {
    [version] + ConvertBits.Pad(program, 8, 5)
  }

  lemma SegwitDataIsSymbols(hrp: string, version: nat, program: Bytes)
    requires WitnessProgram(hrp, version, program)
    ensures Symbols(SegwitData(version, program))
    ensures ConvertBits.Regroup(SegwitData(version, program)[1..], 5, 8) == Some(program)
  {
    Widths();
    assert Pow2(8) == 256;
    ConvertBits.PadIsCanonical(program, 8, 5);
    ConvertBits.RegroupInvertsPad(ConvertBits.Pad(program, 8, 5), program, 8, 5);
    assert SegwitData(version, program)[1..] == ConvertBits.Pad(program, 8, 5);
  }

  /** The reference encoder of BIP-173 and BIP-350 for segwit addresses. */
  function SegwitAddress(hrp: string, version: nat, program: Bytes): (s: string)
    requires WitnessProgram(hrp, version, program)
  {
    SegwitDataIsSymbols(hrp, version, program);
    Encode(hrp, SegwitData(version, program), EncodingOf(version))
  }

  /** `candidate` spells the address of this program, in lower or in upper case. */
  predicate Pays(text: Text, candidate: string, hrp: string, version: nat, program: Bytes) {
    && WitnessProgram(hrp, version, program)
    && CaseUniform(text, candidate) && text.casing.lower(candidate) == SegwitAddress(hrp, version, program)
  }

  /** What the decoder reports for a witness program. */
  function Reported(candidate: string, hrp: string, version: nat, program: Bytes): Decoding
    requires hrp in HRP_LEDGERS
  {
    var script := WitnessScript(version, |program|);
    Accepted(candidate, script, HRP_LEDGERS[hrp], SchemeOf(script).0, SchemeOf(script).1,
             Some(version), |program|, Segwit(EncodingOf(version)))
  }

  lemma PaysIsSplit(text: Text, candidate: string, hrp: string, version: nat, program: Bytes)
    requires WitnessProgram(hrp, version, program)
    ensures Pays(text, candidate, hrp, version, program) <==>
      Decoded(text, candidate) == Some(Split(hrp, SegwitData(version, program), EncodingOf(version)))
  {
    hide Decoded, SegwitData;
    SegwitDataIsSymbols(hrp, version, program);
    DecodeInvertsEncode(text, candidate, Split(hrp, SegwitData(version, program), EncodingOf(version)));
    PrefixesAreNonEmpty(hrp);
  }

  lemma PrefixesAreNonEmpty(hrp: string)
    requires hrp in HRP_LEDGERS
    ensures 1 <= |hrp| <= 4 && '1' !in hrp
  {
  }

  /** Every address of a program decodes to that program's script class, network and version. */
  lemma SegwitComplete(
      text: Text, hash: Base58.Hash, address: string, hrp: string, version: nat, program: Bytes)
    requires Pays(text, Strip(text, address), hrp, version, program)
    requires 0 < |Strip(text, address)| <= MAX_ADDRESS_CHARS
    ensures Decode(text, hash, address) == Reported(Strip(text, address), hrp, version, program)
  {
    hide Decoded, Encode;
    PaysIsSplit(text, Strip(text, address), hrp, version, program);
    SegwitDataIsSymbols(hrp, version, program);
  }

  /** Whatever is accepted as segwit is the address of a program, and is reported as that program. */
  lemma SegwitSound(text: Text, hash: Base58.Hash, address: string)
    returns (hrp: string, version: nat, program: Bytes)
    requires Decode(text, hash, address).IsSegwit()
    ensures Pays(text, Strip(text, address), hrp, version, program)
    ensures Decode(text, hash, address) == Reported(Strip(text, address), hrp, version, program)
    ensures 0 < |Strip(text, address)| <= MAX_ADDRESS_CHARS
  {
    hide Decoded, Encode;
    var candidate := Strip(text, address);
    var split := Decoded(text, candidate).value;
    DecodeInvertsEncode(text, candidate, split);
    hrp, version := split.hrp, split.data[0];
    program := ConvertBits.Regroup(split.data[1..], 5, 8).value;
    Widths();
    assert Pow2(8) == 256;
    ConvertBits.RegroupIsCanonical(split.data[1..], 5, 8, program);
    ConvertBits.RegroupInvertsPad(split.data[1..], program, 8, 5);
    assert split.data == SegwitData(version, program);
    PaysIsSplit(text, candidate, hrp, version, program);
  }

  /** An address names one program: no two programs share a spelling. */
  lemma OneProgramPerAddress(
      text: Text, candidate: string, hrp: string, version: nat, program: Bytes,
      hrp': string, version': nat, program': Bytes)
    requires Pays(text, candidate, hrp, version, program)
    requires Pays(text, candidate, hrp', version', program')
    ensures hrp == hrp' && version == version' && program == program'
  {
    hide Decoded, SegwitAddress;
    PaysIsSplit(text, candidate, hrp, version, program);
    PaysIsSplit(text, candidate, hrp', version', program');
    SegwitDataIsSymbols(hrp, version, program);
    SegwitDataIsSymbols(hrp', version', program');
    assert SegwitData(version, program)[0] == version && SegwitData(version', program')[0] == version';
  }

  /** The decoder sets no 90-character limit, yet every segwit address meets the one of BIP-173. */
  lemma SegwitWithinLimit(hrp: string, version: nat, program: Bytes)
    requires WitnessProgram(hrp, version, program)
    ensures |SegwitAddress(hrp, version, program)| <= 90
  {
    PrefixesAreNonEmpty(hrp);
    SegwitDataIsSymbols(hrp, version, program);
    assert |ConvertBits.Pad(program, 8, 5)| == ConvertBits.PaddedLength(|program|, 8, 5);
  }

  // ----- burst errors -----

  /** Under one prefix and one encoding, no two accepted data parts differ by a burst. */
  lemma NoBurstBetweenAccepted(hrp: string, a: seq<nat>, b: seq<nat>, k: nat, encoding: Encoding)
    requires Symbols(a) && Symbols(b) && Burst(a, b, k)
    requires Verdict(Residue(ExpandHrp(hrp) + a)) == Some(encoding)
    ensures Verdict(Residue(ExpandHrp(hrp) + b)) != Some(encoding)
  {
    hide ExpandHrp, ResidueFrom, Burst, Pow2;
    ResidueConcat(1, ExpandHrp(hrp), a);
    ResidueConcat(1, ExpandHrp(hrp), b);
    BurstChangesResidue(HrpResidue(hrp), a, b, k);
  }

  lemma BurstPastPrefix(p: string, s: string, t: string, k: nat)
    requires k >= |p| && Burst(p + s, p + t, k)
    ensures Burst(s, t, k - |p|)
  {
    var x, y := p + s, p + t;
    assert s == x[|p|..] && t == y[|p|..];
    forall i | 0 <= i < |s| && !(k - |p| <= i < k - |p| + CHECKSUM_LENGTH)
      ensures s[i] == t[i]
    {
      assert x[|p| + i] == y[|p| + i];
    }
  }

  lemma BurstOfSpelled(a: seq<nat>, b: seq<nat>, k: nat)
    requires |CHARSET| == SYMBOLS && Symbols(a) && Symbols(b)
    requires Burst(Spell(CHARSET, a), Spell(CHARSET, b), k)
    ensures Burst(a, b, k)
  {
    CharsetIsDistinct();
    IndicesInvertSpell(CHARSET, a);
    IndicesInvertSpell(CHARSET, b);
  }

  /** Changing a prefix from the table past its separator cannot give another one of the table. */
  lemma SamePrefix(hrp: string, tail: string, hrp': string, tail': string)
    requires '1' !in hrp && '1' !in hrp'
    requires |hrp| < |hrp' + "1" + tail'|
    requires forall i :: 0 <= i <= |hrp| ==> (hrp' + "1" + tail')[i] == (hrp + "1" + tail)[i]
    ensures hrp == hrp'
  {
    var x, y := hrp + "1" + tail, hrp' + "1" + tail';
    assert x[|hrp|] == '1' && y[|hrp'|] == '1';
    forall i | 0 <= i < |hrp|
      ensures hrp[i] == hrp'[i]
    {
      assert x[i] == hrp[i] && y[i] == hrp'[i];
    }
  }

  /** Any change of up to six consecutive characters after the version symbol of an accepted
      segwit address, to any characters at all, leaves no segwit address. */
  lemma BurstRejected(text: Text, hash: Base58.Hash, a: string, b: string, k: nat)
    requires Decode(text, hash, a).IsSegwit()
    requires Burst(text.casing.lower(Strip(text, a)), text.casing.lower(Strip(text, b)), k)
    requires k >= RFind(text.casing.lower(Strip(text, a)), '1') + 2
    ensures !Decode(text, hash, b).IsSegwit()
  {
    hide Decoded, Residue, ExpandHrp, Strip, Reported, Pays, Decode, CHARSET, Spell, Verdict, Burst, RFind;
    if Decode(text, hash, b).IsSegwit() {
      var hrp, version, program, all := SegwitParts(text, hash, a);
      var hrp', version', program', all' := SegwitParts(text, hash, b);
      CharsetIsDistinct();
      PrefixesAreNonEmpty(hrp);
      PrefixesAreNonEmpty(hrp');
      EncodedSplits(hrp, Spell(CHARSET, all));
      BurstBetweenParts(hrp, version, all, hrp', version', all', k);
    }
  }

  lemma BurstBetweenParts(
      hrp: string, version: nat, all: seq<nat>, hrp': string, version': nat, all': seq<nat>, k: nat)
    requires |CHARSET| == SYMBOLS && '1' !in hrp && '1' !in hrp'
    requires Symbols(all) && all != [] && all[0] == version
    requires Symbols(all') && all' != [] && all'[0] == version'
    requires Verdict(Residue(ExpandHrp(hrp) + all)) == Some(EncodingOf(version))
    requires Verdict(Residue(ExpandHrp(hrp') + all')) == Some(EncodingOf(version'))
    requires k >= |hrp| + 2
    ensures !Burst(hrp + "1" + Spell(CHARSET, all), hrp' + "1" + Spell(CHARSET, all'), k)
  {
    hide Residue, ExpandHrp;
    var x, y := hrp + "1" + Spell(CHARSET, all), hrp' + "1" + Spell(CHARSET, all');
    if Burst(x, y, k) {
      assert forall i :: 0 <= i <= |hrp| ==> x[i] == y[i];
      SamePrefix(hrp, Spell(CHARSET, all), hrp', Spell(CHARSET, all'));
      BurstPastPrefix(hrp + "1", Spell(CHARSET, all), Spell(CHARSET, all'), k);
      BurstOfSpelled(all, all', k - |hrp| - 1);
      assert all[0] == all'[0];
      NoBurstBetweenAccepted(hrp, all, all', k - |hrp| - 1, EncodingOf(version));
    }
  }

  /** The parts of an accepted segwit address, down to its complete data part. */
  lemma SegwitParts(text: Text, hash: Base58.Hash, address: string)
    returns (hrp: string, version: nat, program: Bytes, all: seq<nat>)
    requires Decode(text, hash, address).IsSegwit()
    ensures WitnessProgram(hrp, version, program) && Symbols(all) && |all| > CHECKSUM_LENGTH && all[0] == version
    ensures |CHARSET| == SYMBOLS && text.casing.lower(Strip(text, address)) == hrp + "1" + Spell(CHARSET, all)
    ensures Verdict(Residue(ExpandHrp(hrp) + all)) == Some(EncodingOf(version))
  {
    hide Decoded, Residue, ExpandHrp, Strip, Checksum, Verdict;
    CharsetIsDistinct();
    hrp, version, program := SegwitSound(text, hash, address);
    SegwitDataIsSymbols(hrp, version, program);
    var data := SegwitData(version, program);
    var checksum := Checksum(hrp, data, EncodingOf(version));
    all := data + checksum;
    ChecksumIsSymbols(hrp, data, EncodingOf(version));
    assert checksum == all[|data|..];
    VerdictOfSuffix(hrp, data, checksum, EncodingOf(version));
  }

  /** Only the lower-case form and case uniformity of a spelling matter, not its characters. */
  lemma SpellingIrrelevant(text: Text, hash: Base58.Hash, a: string, b: string)
    requires Decode(text, hash, a).IsSegwit()
    requires CaseUniform(text, Strip(text, b)) && 0 < |Strip(text, b)| <= MAX_ADDRESS_CHARS
    requires text.casing.lower(Strip(text, a)) == text.casing.lower(Strip(text, b))
    ensures Decode(text, hash, b) == Decode(text, hash, a).(address := Strip(text, b))
  {
    hide Decode, Strip, SegwitAddress;
    var hrp, version, program := SegwitSound(text, hash, a);
    SegwitComplete(text, hash, b, hrp, version, program);
  }

  const KELVIN: char := '\U{212A}'

  /** So a spelling with a Kelvin sign, which Python takes for an upper-case letter and lowers to `k`, gets
      the verdict of the address itself. */
  lemma KelvinSpelling(text: Text, hash: Base58.Hash, a: string, b: string, i: nat)
    requires Decode(text, hash, a).IsSegwit() && Strip(text, a) == a == text.casing.lower(a)
    requires i < |a| == |b| && a[i] == 'k' && b[i] == KELVIN && Strip(text, b) == b
    requires text.casing.lower(b) == a && text.casing.upper(b) == b
    ensures b != a && Decode(text, hash, b) == Decode(text, hash, a).(address := b)
  {
    hide Decode, Strip, Reported, Pays;
    var hrp, version, program := SegwitSound(text, hash, a);
    SpellingIrrelevant(text, hash, a, b);
  }

  // ----- base58check addresses -----

  /** What is reported of a hash under an assigned version byte. */
  function ReportedHash(address: string, version: nat): Decoding
    requires version in VERSION_BYTES
  {
    var (script, ledger) := VERSION_BYTES[version];
    Accepted(address, script, ledger, SchemeOf(script).0, SchemeOf(script).1, None, PAYLOAD_BYTES - 1, Base58check)
  }

  /** The text of an assigned version byte and a hash. */
  ghost predicate PaysHash(hash: Base58.Hash, candidate: string, payload: Bytes)
    requires Base58.Digests(hash)
  {
    && IsDigits(256, payload) && |payload| == PAYLOAD_BYTES && payload[0] in VERSION_BYTES
    && candidate == Base58.EncodeChecked(hash, payload)
  }

  /** Whatever is accepted and is no segwit address encodes an assigned version byte and a hash, and is
      reported as what the version byte stands for. */
  lemma Base58Sound(text: Text, hash: Base58.Hash, address: string) returns (payload: Bytes)
    requires Base58.Digests(hash)
    requires Decode(text, hash, address).Accepted? && !Decode(text, hash, address).IsSegwit()
    ensures PaysHash(hash, Strip(text, address), payload)
    ensures Decode(text, hash, address) == ReportedHash(Strip(text, address), payload[0])
    ensures Decoded(text, Strip(text, address)) == None && 0 < |Strip(text, address)| <= MAX_ADDRESS_CHARS
  {
    hide Decoded, Strip, PaysHash, VERSION_BYTES, DecodeSegwit, DecodeBase58check;
    var candidate := Strip(text, address);
    SegwitIsSegwit(candidate, Decoded(text, candidate));
    payload := HashIsPaid(hash, candidate);
  }

  lemma SegwitIsSegwit(candidate: string, split: Option<Split>)
    ensures split.Some? && DecodeSegwit(candidate, split.value).Accepted? ==> DecodeSegwit(candidate, split.value).IsSegwit()
  {
  }

  lemma HashIsPaid(hash: Base58.Hash, candidate: string) returns (payload: Bytes)
    requires Base58.Digests(hash) && DecodeBase58check(hash, candidate).Accepted?
    ensures PaysHash(hash, candidate, payload)
    ensures DecodeBase58check(hash, candidate) == ReportedHash(candidate, payload[0])
  {
    hide VERSION_BYTES, Base58.Checked, Base58.EncodeChecked;
    payload := Base58.Checked(hash, candidate).value;
    Base58.CheckedInvertsEncode(hash, candidate, payload);
  }

  /** The text of a payload that is no segwit string is accepted exactly when the payload is an assigned
      version byte and a hash. */
  lemma Base58Exact(text: Text, hash: Base58.Hash, address: string, payload: Bytes)
    requires Base58.Digests(hash)
    requires Decoded(text, Strip(text, address)) == None
    requires 0 < |Strip(text, address)| <= MAX_ADDRESS_CHARS
    requires IsDigits(256, payload) && Strip(text, address) == Base58.EncodeChecked(hash, payload)
    ensures Decode(text, hash, address).Accepted? <==> PaysHash(hash, Strip(text, address), payload)
    ensures Decode(text, hash, address).Accepted? ==>
      Decode(text, hash, address) == ReportedHash(Strip(text, address), payload[0])
  {
    hide Decoded, Strip;
    if payload != [] {
      Base58.CheckedInvertsEncode(hash, Strip(text, address), payload);
    } else {
      Base58.ShortIsRejected(hash, payload);
    }
  }

  // ----- tables and refusals -----

  /** The prefixes and version bytes of BIP-173, of the base58check addresses, and their Litecoin kin. */
  lemma Assignments()
    ensures HRP_LEDGERS.Keys == {"bc", "tb", "bcrt", "ltc"}
    ensures HRP_LEDGERS["bc"] == Ledger(Bitcoin, Mainnet) && HRP_LEDGERS["tb"] == Ledger(Bitcoin, Testnet)
    ensures HRP_LEDGERS["bcrt"] == Ledger(Bitcoin, Regtest) && HRP_LEDGERS["ltc"] == Ledger(Litecoin, Mainnet)
    ensures VERSION_BYTES.Keys == {0x00, 0x05, 0x6F, 0xC4, 0x30, 0x32}
    ensures forall v :: v in {0x00, 0x6F, 0x30} ==> VERSION_BYTES[v].0 == P2pkh
    ensures forall v :: v in {0x05, 0xC4, 0x32} ==> VERSION_BYTES[v].0 == P2sh
    ensures forall v :: v in {0x00, 0x05} ==> VERSION_BYTES[v].1 == Ledger(Bitcoin, Mainnet)
    ensures forall v :: v in {0x6F, 0xC4} ==> VERSION_BYTES[v].1 == Ledger(Bitcoin, Testnet)
    ensures forall v :: v in {0x30, 0x32} ==> VERSION_BYTES[v].1 == Ledger(Litecoin, Mainnet)
  {
  }

  /** Which program pays to what: 20 bytes of version 0 to a key hash, 32 to a script hash, 32 of version 1
      to a taproot key, the only output that shows its key, with the only Schnorr signature. */
  lemma ScriptIff(version: nat, length: nat)
    ensures WitnessScript(version, length) == V0P2wpkh <==> version == 0 && length == 20
    ensures WitnessScript(version, length) == V0P2wsh <==> version == 0 && length == 32
    ensures WitnessScript(version, length) == V1P2tr <==> version == 1 && length == 32
    ensures WitnessScript(version, length).WitnessVersion? ==> WitnessScript(version, length).version == version
    ensures SchemeOf(WitnessScript(version, length)).1 <==> version == 1 && length == 32
    ensures SchemeOf(WitnessScript(version, length)).0 == Schnorr <==> version == 1 && length == 32
    ensures SchemeOf(WitnessScript(version, length)).0 == Ecdsa <==> version == 0 && (length == 20 || length == 32)
    ensures SchemeOf(P2pkh) == (Ecdsa, false) == SchemeOf(P2sh)
  {
  }

  /** White space at both ends is cut off and nothing else. */
  lemma {:induction false} StripCutsEnds(text: Text, s: string) returns (before: string, after: string)
    ensures s == before + Strip(text, s) + after
    ensures (forall c :: c in before ==> text.isSpace(c)) && forall c :: c in after ==> text.isSpace(c)
    ensures var t := Strip(text, s); t != "" ==> !text.isSpace(t[0]) && !text.isSpace(t[|t| - 1])
    decreases |s|
  {
    if s == "" {
      before, after := "", "";
    } else if text.isSpace(s[0]) {
      before, after := StripCutsEnds(text, s[1..]);
      before := [s[0]] + before;
    } else if text.isSpace(s[|s| - 1]) {
      before, after := StripCutsEnds(text, s[..|s| - 1]);
      after := after + [s[|s| - 1]];
    } else {
      before, after := "", "";
    }
  }

  /** Why an address is refused: every refusal names the first of the reasons that applies, and the text
      it speaks of. */
  lemma RefusedFor(text: Text, hash: Base58.Hash, address: string)
    ensures var r, t := Decode(text, hash, address), Strip(text, address);
      var split := Decoded(text, t);
      && (r.address == if |t| > MAX_ADDRESS_CHARS then t[..128] else t)
      && (r.Rejected? ==>
          match r.error
          case EmptyAddress => t == ""
          case TooLong => |t| > 128
          case UnknownPrefix(hrp) =>
            split.Some? && hrp == split.value.hrp && (hrp !in {"bc", "tb", "bcrt", "ltc"} || split.value.data == [])
          case ProgramLength => split.Some? && ProgramOf(split.value).None?
          case Version0Length =>
            split.Some? && split.value.data[0] == 0 && ProgramOf(split.value).Some? && |ProgramOf(split.value).value| !in {20, 32}
          case EncodingMismatch =>
            split.Some? && (split.value.data[0] > 16 || (split.value.data[0] == 0) != split.value.encoding.Bech32?)
          case NotDecodable => split.None? && Base58.Checked(hash, t).None?
          case PayloadLength => split.None? && Base58.Checked(hash, t).Some? && |Base58.Checked(hash, t).value| != 21
          case UnassignedVersion(v) =>
            split.None? && Base58.Checked(hash, t).Some? && Base58.Checked(hash, t).value[0] == v
            && v !in {0x00, 0x05, 0x6F, 0xC4, 0x30, 0x32})
  {
    hide Decoded, Strip, Base58.Checked, ConvertBits.Regroup;
    Assignments();
  }

  /** The program of a data part, of 2 to 40 bytes. */
  function ProgramOf(split: Split): Option<Bytes> {
    if split.data == [] then None else
      var program := ConvertBits.Regroup(split.data[1..], 5, 8);
      if program.Some? && 2 <= |program.value| <= 40 then program else None
  }
}
