/** The grammar of references in a cryptographic bill of materials. */
module Naming {
  import opened Casings
  import opened Positional
  import opened Wrappers

  const ENDPOINT: string := "endpoint"
  const LEAF: string := "crypto/certificate/leaf"

  function LowerChar(c: char): char {
    if 'A' <= c <= 'Z' then c - 'A' + 'a' else c
  }

  function UpperChar(c: char): char {
    if 'a' <= c <= 'z' then c - 'a' + 'A' else c
  }

  /** On ASCII text both do what they do to each letter. */
  ghost predicate CasesAscii(casing: Casing) {
    forall s: string :: (forall i :: 0 <= i < |s| ==> s[i] < 128 as char) ==>
      casing.lower(s) == seq(|s|, i requires 0 <= i < |s| => LowerChar(s[i]))
      && casing.upper(s) == seq(|s|, i requires 0 <= i < |s| => UpperChar(s[i]))
  }

  function AlgorithmRef(casing: Casing, name: string): string {
    "crypto/algorithm/" + casing.lower(name)
  }

  function ProtocolRef(casing: Casing, protocol: string, version: string): string {
    "crypto/protocol/" + protocol + "-" + casing.lower(version)
  }

  /** Python's `key[:16]`. */
  function KeyPrefix(key: string): string {
    if |key| <= 16 then key else key[..16]
  }

  function WalletKeyRef(key: string): string {
    "crypto/related-material/wallet-pubkey-" + KeyPrefix(key)
  }

  function EphemeralRef(casing: Casing, group: string): string {
    "crypto/related-material/tls-ephemeral-" + casing.lower(group)
  }

  function ToolRef(name: string): string {
    "tool/" + name
  }

  /** An index with at least two digits. */
  function IndexDigits(index: nat): (digits: seq<nat>)
    ensures IsDigits(10, digits)
  {
    (if index < 10 then [0] else []) + Decimals(index)
  }

  function AnnotationRef(index: nat, rule: string): string {
    "annotation/" + DigitText(IndexDigits(index)) + "-" + rule
  }

  // ----- references of different kinds never meet -----

  datatype Kind = Endpoint | Algorithm | Protocol | Material | Certificate | Tool | Annotation | Unknown

  /** The kind a reference spells with its first letters. */
  function KindOf(ref: string): Kind {
    if |ref| < 5 then Unknown
    else if ref[0] == 'e' then Endpoint
    else if ref[0] == 't' then Tool
    else if ref[0] == 'a' then Annotation
    else if ref[0] != 'c' || |ref| < 8 then Unknown
    else if ref[7] == 'a' then Algorithm
    else if ref[7] == 'p' then Protocol
    else if ref[7] == 'r' then Material
    else if ref[7] == 'c' then Certificate
    else Unknown
  }

  lemma KindsOfRefs(casing: Casing, a: string, b: string, n: nat)
    ensures KindOf(ENDPOINT) == Endpoint && KindOf(LEAF) == Certificate
    ensures KindOf(AlgorithmRef(casing, a)) == Algorithm
    ensures KindOf(ProtocolRef(casing, a, b)) == Protocol
    ensures KindOf(WalletKeyRef(a)) == Material && KindOf(EphemeralRef(casing, a)) == Material
    ensures KindOf(ToolRef(a)) == Tool && KindOf(AnnotationRef(n, a)) == Annotation
  {
    assert ToolRef(a)[0] == 't';
  }

  /** What the discriminator of the CycloneDX library leaves behind: `BomRef.` and a digit. */
  predicate IsAutoRef(ref: string) {
    |ref| > 7 && ref[..7] == "BomRef." && '0' <= ref[7] <= '9'
  }

  lemma KnownKindIsNotAuto(ref: string)
    requires KindOf(ref) != Unknown
    ensures !IsAutoRef(ref)
  {
    assert |ref| > 7 ==> ref[..7][0] == ref[0];
    assert "BomRef."[0] == 'B';
  }

  /** A version and its protocol are told apart once the version's spelling is known. */
  lemma SameVersionSameProtocol(casing: Casing, p: string, q: string, version: string)
    requires ProtocolRef(casing, p, version) == ProtocolRef(casing, q, version)
    ensures p == q
  {
    var tail := "-" + casing.lower(version);
    var head := "crypto/protocol/";
    assert ProtocolRef(casing, p, version) == head + p + tail && ProtocolRef(casing, q, version) == head + q + tail;
    assert |p| == |q|;
    assert p == (head + p + tail)[|head|..|head| + |p|] == (head + q + tail)[|head|..|head| + |p|] == q;
  }

  // ----- annotation references -----

  lemma DigitTextInjective(a: seq<nat>, b: seq<nat>)
    requires IsDigits(10, a) && IsDigits(10, b) && DigitText(a) == DigitText(b)
    ensures a == b
  {
    assert |a| == |b|;
    forall i | 0 <= i < |a|
      ensures a[i] == b[i]
    {
      assert DigitText(a)[i] == DigitText(b)[i];
    }
  }

  lemma IndexDigitsValue(index: nat)
    ensures Value(10, IndexDigits(index)) == index
    ensures |IndexDigits(index)| >= 2 && (|IndexDigits(index)| == 2 <==> index < 100)
  {
    ValueOfDecimals(index);
    LeadingZeros(10, 1, Decimals(index));
    assert Zeros(1) == [0];
    assert [] + Decimals(index) == Decimals(index);
  }

  /** Two texts without a dash, each cut off by one, agree when the whole texts do. */
  lemma DashCuts(a: string, b: string, x: string, y: string)
    requires '-' !in a && '-' !in b && a + "-" + x == b + "-" + y
    ensures a == b
  {
    var s, t := a + "-" + x, b + "-" + y;
    assert s[|a|] == '-' && t[|b|] == '-';
    assert forall i :: 0 <= i < |a| ==> s[i] == a[i];
    assert forall i :: 0 <= i < |b| ==> t[i] == b[i];
    assert |a| == |b|;
    assert a == s[..|a|] && b == t[..|b|];
  }

  lemma AnnotationRefsDistinct(i: nat, j: nat, x: string, y: string)
    requires AnnotationRef(i, x) == AnnotationRef(j, y)
    ensures i == j
  {
    hide DigitText, IndexDigits;
    var head := "annotation/";
    var a, b := DigitText(IndexDigits(i)), DigitText(IndexDigits(j));
    assert AnnotationRef(i, x) == head + (a + "-" + x) && AnnotationRef(j, y) == head + (b + "-" + y);
    assert a + "-" + x == (head + (a + "-" + x))[|head|..] == b + "-" + y;
    DashCuts(a, b, x, y);
    DigitTextInjective(IndexDigits(i), IndexDigits(j));
    IndexDigitsValue(i);
    IndexDigitsValue(j);
  }

  // ----- names of public keys -----

  const PQ_SIGNATURES: seq<string> := [
    "ML-DSA-44", "ML-DSA-65", "ML-DSA-87",
    "SLH-DSA-SHA2-128S", "SLH-DSA-SHA2-128F", "SLH-DSA-SHA2-192S", "SLH-DSA-SHA2-192F",
    "SLH-DSA-SHA2-256S", "SLH-DSA-SHA2-256F", "SLH-DSA-SHAKE-128S", "SLH-DSA-SHAKE-128F",
    "SLH-DSA-SHAKE-192S", "SLH-DSA-SHAKE-192F", "SLH-DSA-SHAKE-256S", "SLH-DSA-SHAKE-256F"]

  /** The parameter set a post-quantum signature name stands for, in upper case. */
  function PqSignature(upper: string): Option<string> {
    if upper in PQ_SIGNATURES then Some(upper)
    else match upper
      case "MLDSA44" => Some("ML-DSA-44")
      case "MLDSA65" => Some("ML-DSA-65")
      case "MLDSA87" => Some("ML-DSA-87")
      case _ => None
  }

  function KeyFamily(lower: string): Option<string> {
    match lower
    case "rsaencryption" => Some("RSA")
    case "rsassa-pss" => Some("RSA")
    case "rsa-pss" => Some("RSA")
    case "id-ecpublickey" => Some("EC")
    case "ecpublickey" => Some("EC")
    case "id-ed25519" => Some("Ed25519")
    case "ed25519" => Some("Ed25519")
    case "id-ed448" => Some("Ed448")
    case "ed448" => Some("Ed448")
    case "dsaencryption" => Some("DSA")
    case "dsa" => Some("DSA")
    case _ => None
  }

  predicate Truthy(s: Option<string>) {
    s.Some? && s.value != ""
  }

  /** The name `classify_public_key` gives a key, or None when it cannot classify it. */
  function PublicKeyName(casing: Casing, algorithm: Option<string>, bits: Option<nat>, curve: Option<string>)
    : Option<string>
  {
    if !Truthy(algorithm) then None else
      var pq := PqSignature(casing.upper(algorithm.value));
      if pq.Some? then pq else
        var family := KeyFamily(casing.lower(algorithm.value));
        if family.None? then None
        else if Truthy(curve) then Some(family.value + "-" + curve.value)
        else if bits.Some? && bits.value > 0 then Some(family.value + "-" + DigitText(Decimals(bits.value)))
        else family
  }

  /** The families of public keys, by their names in lower case. */
  lemma FamiliesAre(l: string)
    ensures KeyFamily(l) == Some("RSA") <==> l in ["rsaencryption", "rsassa-pss", "rsa-pss"]
    ensures KeyFamily(l) == Some("EC") <==> l in ["id-ecpublickey", "ecpublickey"]
    ensures KeyFamily(l) == Some("Ed25519") <==> l in ["id-ed25519", "ed25519"]
    ensures KeyFamily(l) == Some("Ed448") <==> l in ["id-ed448", "ed448"]
    ensures KeyFamily(l) == Some("DSA") <==> l in ["dsaencryption", "dsa"]
    ensures KeyFamily(l).Some? ==> KeyFamily(l).value in ["RSA", "EC", "Ed25519", "Ed448", "DSA"]
  {
  }

  /** The name of a classified key: a post-quantum parameter set by itself; otherwise its family, with its
      curve, or else its size in decimal digits, behind a dash. */
  lemma KeyNamesAre(casing: Casing, algorithm: string, bits: Option<nat>, curve: Option<string>)
    requires algorithm != ""
    ensures var name, u := PublicKeyName(casing, Some(algorithm), bits, curve), casing.upper(algorithm);
      var family := KeyFamily(casing.lower(algorithm));
      && (u in PQ_SIGNATURES ==> name == Some(u))
      && (u in ["MLDSA44", "MLDSA65", "MLDSA87"] && u !in PQ_SIGNATURES ==> name.Some? && name.value == "ML-DSA-" + u[5..])
      && (u !in PQ_SIGNATURES && u !in ["MLDSA44", "MLDSA65", "MLDSA87"] ==>
            && (name.Some? <==> family.Some?)
            && (family.Some? ==>
                  var size := name.value[|family.value|..];
                  && family.value <= name.value
                  && (curve.Some? && curve.value != "" ==> size == "-" + curve.value)
                  && (!(curve.Some? && curve.value != "") && bits.Some? && bits.value > 0 ==>
                        IsNumeral(size, bits.value))
                  && (!(curve.Some? && curve.value != "") && !(bits.Some? && bits.value > 0) ==> size == "")))
  {
    hide PQ_SIGNATURES, KeyFamily;
    var family := KeyFamily(casing.lower(algorithm));
    if family.Some? && bits.Some? {
      NumeralIs(bits.value);
      assert (family.value + "-" + DigitText(Decimals(bits.value)))[|family.value|..] == "-" + DigitText(Decimals(bits.value));
    }
    if family.Some? && curve.Some? {
      assert (family.value + "-" + curve.value)[|family.value|..] == "-" + curve.value;
    }
    var u := casing.upper(algorithm);
    assert u == "MLDSA44" ==> "ML-DSA-" + u[5..] == "ML-DSA-44";
    assert u == "MLDSA65" ==> "ML-DSA-" + u[5..] == "ML-DSA-65";
    assert u == "MLDSA87" ==> "ML-DSA-" + u[5..] == "ML-DSA-87";
  }

  /** A dash and the decimal digits of a number. */
  ghost predicate IsNumeral(s: string, n: nat) {
    exists digits :: IsDigits(10, digits) && Value(10, digits) == n && s == "-" + DigitText(digits)
  }

  lemma NumeralIs(n: nat)
    ensures IsNumeral("-" + DigitText(Decimals(n)), n)
  {
    ValueOfDecimals(n);
  }

  const EC_ALGORITHM: string := "id-ecPublicKey"
  const CURVE: string := "secp256k1"

  lemma CasesLetters(casing: Casing, s: string)
    requires CasesAscii(casing) && forall i :: 0 <= i < |s| ==> s[i] < 128 as char
    ensures |casing.lower(s)| == |s| && forall i :: 0 <= i < |s| ==> casing.lower(s)[i] == LowerChar(s[i])
    ensures |casing.upper(s)| == |s| && forall i :: 0 <= i < |s| ==> casing.upper(s)[i] == UpperChar(s[i])
  {
  }

  lemma EcIsAscii()
    ensures forall i :: 0 <= i < |EC_ALGORITHM| ==> EC_ALGORITHM[i] < 128 as char
  {
  }

  lemma EcAlgorithmCases(casing: Casing)
    requires CasesAscii(casing)
    ensures casing.lower(EC_ALGORITHM) == "id-ecpublickey" && casing.upper(EC_ALGORITHM) == "ID-ECPUBLICKEY"
  {
    hide CasesAscii;
    EcIsAscii();
    CasesLetters(casing, EC_ALGORITHM);
    var l, u := casing.lower(EC_ALGORITHM), casing.upper(EC_ALGORITHM);
    assert |l| == 14 && |u| == 14;
    assert l[0] == 'i' && l[1] == 'd' && l[2] == '-' && l[3] == 'e' && l[4] == 'c' && l[5] == 'p' && l[6] == 'u';
    assert l[7] == 'b' && l[8] == 'l' && l[9] == 'i' && l[10] == 'c' && l[11] == 'k' && l[12] == 'e' && l[13] == 'y';
    assert u[0] == 'I' && u[1] == 'D' && u[2] == '-' && u[3] == 'E' && u[4] == 'C' && u[5] == 'P' && u[6] == 'U';
    assert u[7] == 'B' && u[8] == 'L' && u[9] == 'I' && u[10] == 'C' && u[11] == 'K' && u[12] == 'E' && u[13] == 'Y';
  }

  lemma EcIsNotPq()
    ensures PqSignature("ID-ECPUBLICKEY") == None
  {
    var name := "ID-ECPUBLICKEY";
    assert name[0] == 'I';
    assert forall i :: 0 <= i < |PQ_SIGNATURES| ==> PQ_SIGNATURES[i][0] != 'I';
    assert name != "MLDSA44" && name != "MLDSA65" && name != "MLDSA87";
  }

  lemma EcFamily()
    ensures KeyFamily("id-ecpublickey") == Some("EC")
  {
    var name := "id-ecpublickey";
    assert name[1] == 'd' && name[3] == 'e' && |name| == 14;
    assert "rsaencryption"[1] == 's' && "rsassa-pss"[1] == 's' && "rsa-pss"[1] == 's';
  }

  /** The wallet's key is always classified, under the name its material points at. */
  lemma WalletKeyName(casing: Casing)
    requires CasesAscii(casing)
    ensures PublicKeyName(casing, Some(EC_ALGORITHM), Some(256), Some(CURVE)) == Some("EC-" + CURVE)
  {
    hide CasesAscii, PqSignature;
    EcAlgorithmCases(casing);
    EcIsNotPq();
    EcFamily();
    assert Truthy(Some(EC_ALGORITHM)) && Truthy(Some(CURVE)) by {
      assert |EC_ALGORITHM| == 14 && |CURVE| == 9;
    }
    assert "EC" + "-" + CURVE == "EC-" + CURVE;
  }
}
