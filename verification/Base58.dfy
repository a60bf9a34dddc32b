/** Base 58 with leading-zero handling, and the checksum layer over it. */
module Base58 {
  import opened Wrappers
  import opened Bits
  import opened Positional
  import opened Alphabets

  const DIGITS: string := "123456789"
  const CAPITALS: string := "ABCDEFGHJKLMNPQRSTUVWXYZ"
  const SMALL: string := "abcdefghijkmnopqrstuvwxyz"
  const BASE58: string := DIGITS + CAPITALS + SMALL
  const MIN_RAW_BYTES: nat := 5
  const CHECKSUM_BYTES: nat := 4

  type Bytes = seq<nat>

  predicate Between(s: string, low: char, high: char) {
    forall i :: 0 <= i < |s| ==> low <= s[i] <= high
  }

  lemma DigitRange()
    ensures |DIGITS| == 9 && Distinct(DIGITS) && Between(DIGITS, '1', '9') && DIGITS[0] == '1'
  {
  }

  lemma CapitalRange()
    ensures |CAPITALS| == 24 && Distinct(CAPITALS) && Between(CAPITALS, 'A', 'Z')
  {
  }

  lemma SmallRange()
    ensures |SMALL| == 25 && Distinct(SMALL) && Between(SMALL, 'a', 'z')
  {
  }

  lemma AlphabetIsDistinct()
    ensures |BASE58| == 58 && Distinct(BASE58) && BASE58[0] == '1'
  {
    DigitRange();
    CapitalRange();
    SmallRange();
    assert Distinct(DIGITS + CAPITALS);
  }

  /** The alphabet: digits, capitals and small letters in ascending order, without 0, O, I and l. */
  lemma AlphabetIs(i: nat, j: nat, c: char)
    ensures i < j < |BASE58| ==> BASE58[i] < BASE58[j]
    ensures c in BASE58 <==> ('1' <= c <= '9' || 'A' <= c <= 'Z' || 'a' <= c <= 'z') && c !in "OIl"
  {
    hide DIGITS, CAPITALS, SMALL;
    DigitRange();
    CapitalRange();
    SmallRange();
    PartsAscend();
    PartsAre(c);
    assert BASE58[..9] == DIGITS && BASE58[9..33] == CAPITALS && BASE58[33..] == SMALL;
    assert forall k :: 0 <= k < 9 ==> BASE58[k] == DIGITS[k];
    assert forall k :: 9 <= k < 33 ==> BASE58[k] == CAPITALS[k - 9];
    assert forall k :: 33 <= k < 58 ==> BASE58[k] == SMALL[k - 33];
  }

  predicate Ascends(s: string) {
    forall i, j :: 0 <= i < j < |s| ==> s[i] < s[j]
  }

  lemma PartsAscend()
    ensures Ascends(DIGITS) && Ascends(CAPITALS) && Ascends(SMALL)
  {
  }

  lemma PartsAre(c: char)
    ensures c in DIGITS <==> '1' <= c <= '9'
    ensures c in CAPITALS <==> 'A' <= c <= 'Z' && c != 'O' && c != 'I'
    ensures c in SMALL <==> 'a' <= c <= 'z' && c != 'l'
  {
    DigitsAre(c);
    CapitalsAre(c);
    SmallAre(c);
  }

  lemma DigitsAre(c: char)
    ensures c in DIGITS <==> '1' <= c <= '9'
  {
    if '1' <= c <= '9' {
      assert DIGITS[c as int - 0x31] == c;
    }
  }

  lemma CapitalsAre(c: char)
    ensures c in CAPITALS <==> 'A' <= c <= 'Z' && c != 'O' && c != 'I'
  {
    if 'A' <= c <= 'H' {
      assert CAPITALS[c as int - 0x41] == c;
    } else if 'J' <= c <= 'N' {
      assert CAPITALS[c as int - 0x42] == c;
    } else if 'P' <= c <= 'Z' {
      assert CAPITALS[c as int - 0x43] == c;
    }
  }

  lemma SmallAre(c: char)
    ensures c in SMALL <==> 'a' <= c <= 'z' && c != 'l'
  {
    if 'a' <= c <= 'k' {
      assert SMALL[c as int - 0x61] == c;
    } else if 'm' <= c <= 'z' {
      assert SMALL[c as int - 0x62] == c;
    }
  }

  function LeadingZerosOf(digits: seq<nat>): (n: nat)
    ensures n <= |digits| && (n < |digits| ==> digits[n] > 0)
    ensures digits[..n] == Zeros(n)
  {
    if digits == [] || digits[0] != 0 then 0
    else
      assert digits[..LeadingZerosOf(digits[1..]) + 1] == [0] + digits[1..][..LeadingZerosOf(digits[1..])];
      LeadingZerosOf(digits[1..]) + 1
  }

  /** The same number in another base, keeping the count of leading zeros. */
  function Rebase(digits: seq<nat>, base: nat, other: nat): seq<nat>
    requires other > 1
  {
    Zeros(LeadingZerosOf(digits)) + Minimal(other, Value(base, digits))
  }

  lemma LeadingZerosAre(n: nat, digits: seq<nat>)
    requires digits != [] ==> digits[0] > 0
    ensures LeadingZerosOf(Zeros(n) + digits) == n
  {
    var all := Zeros(n) + digits;
    var m := LeadingZerosOf(all);
    assert forall i :: 0 <= i < m ==> all[i] == all[..m][i] == 0;
    if digits != [] {
      assert all[n] == digits[0];
    }
  }

  /** Changing base and back gives the original digits: the step is a bijection. */
  lemma RebaseInverts(digits: seq<nat>, base: nat, other: nat)
    requires base > 1 && other > 1 && IsDigits(base, digits)
    ensures IsDigits(other, Rebase(digits, base, other))
    ensures Rebase(Rebase(digits, base, other), other, base) == digits
  {
    var n := LeadingZerosOf(digits);
    var body, v := digits[n..], Value(base, digits);
    assert digits == Zeros(n) + body;
    LeadingZeros(base, n, body);
    MinimalOfValue(base, body);
    ValueOfMinimal(other, v);
    LeadingZeros(other, n, Minimal(other, v));
    LeadingZerosAre(n, Minimal(other, v));
  }

  // ----- what the decoder does -----

  /** Python's `n.bit_length()`. */
  function BitLength(n: nat): nat {
    if n == 0 then 0 else 1 + BitLength(n / 2)
  }

  lemma BitLengthOfByte(n: nat)
    requires 0 < n < 256
    ensures 1 <= BitLength(n) <= 8
  {
    assert BitLength(n / 128) <= 1;
    assert BitLength(n / 32) <= 3 by {
      assert n / 64 == n / 32 / 2 && n / 128 == n / 64 / 2;
    }
    assert BitLength(n / 8) <= 5 by {
      assert n / 16 == n / 8 / 2 && n / 32 == n / 16 / 2;
    }
    assert BitLength(n / 2) <= 7 by {
      assert n / 4 == n / 2 / 2 && n / 8 == n / 4 / 2;
    }
  }

  lemma BitLengthDropsByte(n: nat)
    requires n >= 256
    ensures BitLength(n) == 8 + BitLength(n / 256)
  {
    var a, b, c := n / 4, n / 16, n / 64;
    assert BitLength(n) == 2 + BitLength(a) by { assert n / 2 / 2 == a; }
    assert BitLength(a) == 2 + BitLength(b) by { assert a / 2 / 2 == b; }
    assert BitLength(b) == 2 + BitLength(c) by { assert b / 2 / 2 == c; }
    assert BitLength(c) == 2 + BitLength(n / 256) by { assert c / 2 / 2 == n / 256; }
  }

  /** Rounding the bit length up to bytes gives the minimal byte length. */
  lemma {:induction false} ByteLength(n: nat)
    ensures |Minimal(256, n)| == (BitLength(n) + 7) / 8
  {
    if n >= 256 {
      BitLengthDropsByte(n);
      ByteLength(n / 256);
    } else if n > 0 {
      BitLengthOfByte(n);
    }
  }

  /** `total.to_bytes((total.bit_length() + 7) // 8, "big")`. */
  function ToBytes(total: nat): Bytes {
    Fixed(256, (BitLength(total) + 7) / 8, total)
  }

  lemma ToBytesIsMinimal(total: nat)
    ensures ToBytes(total) == Minimal(256, total)
  {
    hide BitLength;
    ByteLength(total);
    ValueOfMinimal(256, total);
    FixedOfValue(256, Minimal(256, total));
  }

  /** `len(value) - len(value.lstrip("1"))`. */
  function LeadingOnes(s: string): nat {
    if s == "" || s[0] != '1' then 0 else 1 + LeadingOnes(s[1..])
  }

  lemma {:induction false} OnesAreZeros(s: string)
    requires Spelled(BASE58, s)
    ensures LeadingOnes(s) == LeadingZerosOf(Indices(BASE58, s))
  {
    if s == "" {
    } else {
      AlphabetIsDistinct();
      FindAt(BASE58, 0);
      assert Indices(BASE58, s)[1..] == Indices(BASE58, s[1..]);
      OnesAreZeros(s[1..]);
    }
  }

  /** The byte string a base-58 string spells, before any checksum test. */
  function Raw(s: string): Option<Bytes> {
    if Spelled(BASE58, s) then Some(Rebase(Indices(BASE58, s), 58, 256)) else None
  }

  /** The base-58 string for a byte string. */
  function EncodeRaw(raw: Bytes): (s: string)
    requires IsDigits(256, raw)
    ensures Spelled(BASE58, s)
  {
    AlphabetIsDistinct();
    RebaseInverts(raw, 256, 58);
    Spell(BASE58, Rebase(raw, 256, 58))
  }

  /** Base-58 strings and byte strings correspond one to one. */
  lemma RawInvertsEncode(s: string, raw: Bytes)
    ensures Raw(s) == Some(raw) <==> IsDigits(256, raw) && s == EncodeRaw(raw)
  {
    hide Rebase;
    AlphabetIsDistinct();
    if Raw(s) == Some(raw) {
      RebaseInverts(Indices(BASE58, s), 58, 256);
      SpellInvertsIndices(BASE58, s);
    }
    if IsDigits(256, raw) && s == EncodeRaw(raw) {
      RebaseInverts(raw, 256, 58);
      IndicesInvertSpell(BASE58, Rebase(raw, 256, 58));
    }
  }

  // ----- the checksum layer -----

  /** A hash function on byte strings: SHA-256 in the program. */
  type Hash = Bytes -> Bytes

  /** Every digest is a string of at least four bytes. */
  ghost predicate Digests(hash: Hash) {
    forall b: Bytes :: |hash(b)| >= CHECKSUM_BYTES && IsDigits(256, hash(b))
  }

  /** Python's `hash(hash(payload))[:4]`. */
  function Checksum(hash: Hash, payload: Bytes): Bytes {
    var digest := hash(hash(payload));
    if |digest| < CHECKSUM_BYTES then digest else digest[..CHECKSUM_BYTES]
  }

  /** What `_base58check` computes. */
  function Checked(hash: Hash, s: string): Option<Bytes> {
    var raw := Raw(s);
    if raw.None? || |raw.value| < MIN_RAW_BYTES then None else
      var cut := |raw.value| - CHECKSUM_BYTES;
      if Checksum(hash, raw.value[..cut]) != raw.value[cut..] then None else Some(raw.value[..cut])
  }

  method Base58Check(hash: Hash, s: string) returns (r: Option<Bytes>)
    ensures r == Checked(hash, s)
  {
    hide ToBytes, Value, Indices, Raw, LeadingOnes, Checksum, BASE58;
    NoDigits();
    assert s[..0] == "";
    var total: nat := 0;
    for i := 0 to |s|
      invariant Spelled(BASE58, s[..i]) && total == Value(58, Indices(BASE58, s[..i]))
    {
      var index := Find(BASE58, s[i]);
      if index < 0 {
        NotRaw(s, i);
        return None;
      }
      IndicesAppend(s, i);
      ValueOfAppend(58, Indices(BASE58, s[..i]), index);
      total := total * 58 + index;
    }
    assert s[..|s|] == s;
    RawOfTotal(s, total);
    var body := if total != 0 then ToBytes(total) else [];
    var raw := Zeros(LeadingOnes(s)) + body;
    if |raw| < MIN_RAW_BYTES {
      return None;
    }
    var payload, checksum := raw[..|raw| - CHECKSUM_BYTES], raw[|raw| - CHECKSUM_BYTES..];
    if Checksum(hash, payload) != checksum {
      return None;
    }
    return Some(payload);
  }

  lemma NotRaw(s: string, i: nat)
    requires i < |s| && Find(BASE58, s[i]) < 0
    ensures Raw(s) == None
  {
  }

  lemma IndicesAppend(s: string, i: nat)
    requires i < |s| && Spelled(BASE58, s[..i]) && Find(BASE58, s[i]) >= 0
    ensures Spelled(BASE58, s[..i + 1])
    ensures Indices(BASE58, s[..i + 1]) == Indices(BASE58, s[..i]) + [Find(BASE58, s[i])]
  {
    hide BASE58;
    assert s[..i + 1] == s[..i] + [s[i]];
  }

  lemma NoDigits()
    ensures Spelled(BASE58, "") && Value(58, Indices(BASE58, "")) == 0
  {
  }

  /** The decoder's bytes are the base change of the string's digits. */
  lemma RawOfTotal(s: string, total: nat)
    requires Spelled(BASE58, s) && total == Value(58, Indices(BASE58, s))
    ensures Raw(s) == Some(Zeros(LeadingOnes(s)) + if total != 0 then ToBytes(total) else [])
  {
    hide ToBytes, Value;
    ToBytesIsMinimal(total);
    OnesAreZeros(s);
  }

  /** The base58check string for a payload. */
  function EncodeChecked(hash: Hash, payload: Bytes): string
    requires IsDigits(256, payload + Checksum(hash, payload))
  {
    EncodeRaw(payload + Checksum(hash, payload))
  }

  /** Accepted strings are exactly the encodings of non-empty payloads, each of its own. */
  lemma CheckedInvertsEncode(hash: Hash, s: string, payload: Bytes)
    requires Digests(hash)
    ensures Checked(hash, s) == Some(payload) <==>
      payload != [] && IsDigits(256, payload) && s == EncodeChecked(hash, payload)
  {
    hide Raw, EncodeRaw;
    var raw := payload + Checksum(hash, payload);
    RawInvertsEncode(s, raw);
    assert raw[..|raw| - CHECKSUM_BYTES] == payload;
    if Checked(hash, s) == Some(payload) {
      assert Raw(s).value == raw;
      assert IsDigits(256, raw[..|payload|]);
    }
  }

  /** The last four bytes of an accepted string are the first four of the digest of its payload's digest. */
  lemma CheckedSays(hash: Hash, s: string, payload: Bytes)
    requires Digests(hash) && Checked(hash, s) == Some(payload)
    ensures Raw(s) == Some(payload + hash(hash(payload))[..4])
  {
    hide Raw;
    var raw := Raw(s).value;
    assert raw == raw[..|raw| - 4] + raw[|raw| - 4..];
  }

  /** The encoding of the empty payload is too short to be accepted. */
  lemma ShortIsRejected(hash: Hash, payload: Bytes)
    requires Digests(hash) && payload == []
    ensures IsDigits(256, payload + Checksum(hash, payload))
    ensures Checked(hash, EncodeChecked(hash, payload)) == None
  {
    hide Raw, EncodeRaw;
    var raw := payload + Checksum(hash, payload);
    RawInvertsEncode(EncodeRaw(raw), raw);
  }

  // ----- published strings -----

  lemma NextLetter(s: string, n: nat, i: nat, c: char)
    requires Spelled(BASE58, s) && Value(58, Indices(BASE58, s)) == n && i < |BASE58| && BASE58[i] == c
    ensures Spelled(BASE58, s + [c]) && Value(58, Indices(BASE58, s + [c])) == n * 58 + i
  {
    hide BASE58, Value;
    AlphabetIsDistinct();
    FindAt(BASE58, i);
    assert Indices(BASE58, s + [c]) == Indices(BASE58, s) + [i];
    ValueOfAppend(58, Indices(BASE58, s), i);
  }

  /** The letters used below. */
  lemma SomeLetters()
    ensures |BASE58| == 58
    ensures BASE58[0] == '1' && BASE58[1] == '2' && BASE58[2] == '3' && BASE58[3] == '4' && BASE58[6] == '7' && BASE58[11] == 'C' && BASE58[13] == 'E'
    ensures BASE58[19] == 'L' && BASE58[21] == 'N' && BASE58[23] == 'Q' && BASE58[24] == 'R' && BASE58[25] == 'S' && BASE58[26] == 'T' && BASE58[27] == 'U'
    ensures BASE58[32] == 'Z' && BASE58[41] == 'i' && BASE58[46] == 'o' && BASE58[47] == 'p' && BASE58[49] == 'r'
  {
  }

  lemma HelloValues1()
    ensures Spelled(BASE58, "2NEpo7TZR") && Value(58, Indices(BASE58, "2NEpo7TZR")) == 174957012826608
  {
    hide BASE58, Value, Indices, Spelled;
    SomeLetters();
    NoDigits();
    NextLetter("", 0, 1, '2');
    NextLetter("" + "2", 1, 21, 'N');
    NextLetter("" + "2" + "N", 79, 13, 'E');
    NextLetter("" + "2" + "N" + "E", 4595, 47, 'p');
    NextLetter("" + "2" + "N" + "E" + "p", 266557, 46, 'o');
    NextLetter("" + "2" + "N" + "E" + "p" + "o", 15460352, 6, '7');
    NextLetter("" + "2" + "N" + "E" + "p" + "o" + "7", 896700422, 26, 'T');
    NextLetter("" + "2" + "N" + "E" + "p" + "o" + "7" + "T", 52008624502, 32, 'Z');
    NextLetter("" + "2" + "N" + "E" + "p" + "o" + "7" + "T" + "Z", 3016500221148, 24, 'R');
    assert "" + "2" + "N" + "E" + "p" + "o" + "7" + "T" + "Z" + "R" == "2NEpo7TZR";
  }

  lemma HelloValues()
    ensures Spelled(BASE58, "2NEpo7TZRRrLZSi2U") && Value(58, Indices(BASE58, "2NEpo7TZRRrLZSi2U")) == 22405534230753928650781647905
  {
    hide BASE58, Value, Indices, Spelled;
    SomeLetters();
    NoDigits();
    HelloValues1();
    NextLetter("2NEpo7TZR", 174957012826608, 24, 'R');
    NextLetter("2NEpo7TZR" + "R", 10147506743943288, 49, 'r');
    NextLetter("2NEpo7TZR" + "R" + "r", 588555391148710753, 19, 'L');
    NextLetter("2NEpo7TZR" + "R" + "r" + "L", 34136212686625223693, 32, 'Z');
    NextLetter("2NEpo7TZR" + "R" + "r" + "L" + "Z", 1979900335824262974226, 25, 'S');
    NextLetter("2NEpo7TZR" + "R" + "r" + "L" + "Z" + "S", 114834219477807252505133, 41, 'i');
    NextLetter("2NEpo7TZR" + "R" + "r" + "L" + "Z" + "S" + "i", 6660384729712820645297755, 1, '2');
    NextLetter("2NEpo7TZR" + "R" + "r" + "L" + "Z" + "S" + "i" + "2", 386302314323343597427269791, 27, 'U');
    assert "2NEpo7TZR" + "R" + "r" + "L" + "Z" + "S" + "i" + "2" + "U" == "2NEpo7TZRRrLZSi2U";
  }

  lemma HelloBytes()
    ensures Value(256, [0x48, 0x65, 0x6C, 0x6C, 0x6F, 0x20, 0x57, 0x6F, 0x72, 0x6C, 0x64, 0x21]) == 22405534230753928650781647905
  {
    hide Value;
    assert Value(256, []) == 0 by { NoValue(); }
    ValueOfAppend(256, [], 72);
    assert [] + [72] == [72];
    ValueOfAppend(256, [72], 101);
    assert [72] + [101] == [72, 101];
    ValueOfAppend(256, [72, 101], 108);
    assert [72, 101] + [108] == [72, 101, 108];
    ValueOfAppend(256, [72, 101, 108], 108);
    assert [72, 101, 108] + [108] == [72, 101, 108, 108];
    ValueOfAppend(256, [72, 101, 108, 108], 111);
    assert [72, 101, 108, 108] + [111] == [72, 101, 108, 108, 111];
    ValueOfAppend(256, [72, 101, 108, 108, 111], 32);
    assert [72, 101, 108, 108, 111] + [32] == [72, 101, 108, 108, 111, 32];
    ValueOfAppend(256, [72, 101, 108, 108, 111, 32], 87);
    assert [72, 101, 108, 108, 111, 32] + [87] == [72, 101, 108, 108, 111, 32, 87];
    ValueOfAppend(256, [72, 101, 108, 108, 111, 32, 87], 111);
    assert [72, 101, 108, 108, 111, 32, 87] + [111] == [72, 101, 108, 108, 111, 32, 87, 111];
    ValueOfAppend(256, [72, 101, 108, 108, 111, 32, 87, 111], 114);
    assert [72, 101, 108, 108, 111, 32, 87, 111] + [114] == [72, 101, 108, 108, 111, 32, 87, 111, 114];
    ValueOfAppend(256, [72, 101, 108, 108, 111, 32, 87, 111, 114], 108);
    assert [72, 101, 108, 108, 111, 32, 87, 111, 114] + [108] == [72, 101, 108, 108, 111, 32, 87, 111, 114, 108];
    ValueOfAppend(256, [72, 101, 108, 108, 111, 32, 87, 111, 114, 108], 100);
    assert [72, 101, 108, 108, 111, 32, 87, 111, 114, 108] + [100] == [72, 101, 108, 108, 111, 32, 87, 111, 114, 108, 100];
    ValueOfAppend(256, [72, 101, 108, 108, 111, 32, 87, 111, 114, 108, 100], 33);
    assert [72, 101, 108, 108, 111, 32, 87, 111, 114, 108, 100] + [33] == [72, 101, 108, 108, 111, 32, 87, 111, 114, 108, 100, 33];
  }

  /** The text "Hello World!" in base 58. */
  lemma HelloIsRead()
    ensures Raw("2NEpo7TZRRrLZSi2U") == Some([0x48, 0x65, 0x6C, 0x6C, 0x6F, 0x20, 0x57, 0x6F, 0x72, 0x6C, 0x64, 0x21])
  {
    hide BASE58, Value, Indices, Spelled, Minimal, Raw;
    HelloValues();
    HelloBytes();
    RawIs("2NEpo7TZRRrLZSi2U", 0, [0x48, 0x65, 0x6C, 0x6C, 0x6F, 0x20, 0x57, 0x6F, 0x72, 0x6C, 0x64, 0x21]);
    assert Zeros(0) + [0x48, 0x65, 0x6C, 0x6C, 0x6F, 0x20, 0x57, 0x6F, 0x72, 0x6C, 0x64, 0x21] == [0x48, 0x65, 0x6C, 0x6C, 0x6F, 0x20, 0x57, 0x6F, 0x72, 0x6C, 0x64, 0x21];
  }

  lemma ZerosValues()
    ensures Spelled(BASE58, "11233QC4") && Value(58, Indices(BASE58, "11233QC4")) == 679457997
  {
    hide BASE58, Value, Indices, Spelled;
    SomeLetters();
    NoDigits();
    NextLetter("", 0, 0, '1');
    NextLetter("" + "1", 0, 0, '1');
    NextLetter("" + "1" + "1", 0, 1, '2');
    NextLetter("" + "1" + "1" + "2", 1, 2, '3');
    NextLetter("" + "1" + "1" + "2" + "3", 60, 2, '3');
    NextLetter("" + "1" + "1" + "2" + "3" + "3", 3482, 23, 'Q');
    NextLetter("" + "1" + "1" + "2" + "3" + "3" + "Q", 201979, 11, 'C');
    NextLetter("" + "1" + "1" + "2" + "3" + "3" + "Q" + "C", 11714793, 3, '4');
    assert "" + "1" + "1" + "2" + "3" + "3" + "Q" + "C" + "4" == "11233QC4";
  }

  lemma ZerosBytes()
    ensures Value(256, [0x28, 0x7F, 0xB4, 0xCD]) == 679457997
  {
    hide Value;
    assert Value(256, []) == 0 by { NoValue(); }
    ValueOfAppend(256, [], 40);
    assert [] + [40] == [40];
    ValueOfAppend(256, [40], 127);
    assert [40] + [127] == [40, 127];
    ValueOfAppend(256, [40, 127], 180);
    assert [40, 127] + [180] == [40, 127, 180];
    ValueOfAppend(256, [40, 127, 180], 205);
    assert [40, 127, 180] + [205] == [40, 127, 180, 205];
  }

  /** Two leading zero bytes are two leading ones. */
  lemma ZerosIsRead()
    ensures Raw("11233QC4") == Some([0x00, 0x00, 0x28, 0x7F, 0xB4, 0xCD])
  {
    hide BASE58, Value, Indices, Spelled, Minimal, Raw;
    ZerosValues();
    ZerosBytes();
    RawIs("11233QC4", 2, [0x28, 0x7F, 0xB4, 0xCD]);
    assert Zeros(2) + [0x28, 0x7F, 0xB4, 0xCD] == [0x00, 0x00, 0x28, 0x7F, 0xB4, 0xCD];
  }

  lemma RawIs(s: string, ones: nat, digits: seq<nat>)
    requires Spelled(BASE58, s) && Value(58, Indices(BASE58, s)) == Value(256, digits) && LeadingOnes(s) == ones
    requires IsDigits(256, digits) && digits != [] && digits[0] > 0
    ensures Raw(s) == Some(Zeros(ones) + digits)
  {
    hide BASE58, Value, Indices, LeadingOnes, Minimal;
    OnesAreZeros(s);
    MinimalOfValue(256, digits);
  }

  lemma NoValue()
    ensures Value(256, []) == 0
  {
  }
}
