/** Where evidence shows up in the document, and when it silently does not. */
module CbomOccurrences {
  import opened Casings
  import opened Wrappers
  import opened Sequences
  import opened Naming
  import opened ScanEvidence
  import opened Inventory
  import opened CbomDocument
  import opened CbomSoundness
  import opened CbomTheorem

  /** The asset an evidence without a certificate is about. */
  function SubjectRef(casing: Casing, e: Evidence): string {
    var name := if Truthy(e.negotiatedGroup) then e.negotiatedGroup else e.cipherSuite;
    if Truthy(name) then AlgorithmRef(casing, name.value)
    else if Truthy(e.protocolVersion) then ProtocolRef(casing, e.protocol, e.protocolVersion.value)
    else ENDPOINT
  }

  /** The components `evidence_occurrences` attaches an evidence to, if the document has them. */
  function OccurrenceRefs(casing: Casing, e: Evidence): seq<string> {
    if e.certificate.None? then [SubjectRef(casing, e)] else
      [LEAF] + OptionalRef(SignatureRef(casing, e.certificate.value)) + OptionalRef(KeyRef(casing, e.certificate.value))
  }

  /** The evidence is recorded on at least one component, the endpoint included. */
  predicate IsRecorded(casing: Casing, d: Document, e: Evidence) {
    exists r :: r in OccurrenceRefs(casing, e) && r in GraphRefs(d)
  }

  lemma GraphRefsAre(casing: Casing, scan: Scan, reproducible: bool, r: string)
    ensures r in GraphRefs(DocumentOf(casing, scan, reproducible)) <==>
      r == ENDPOINT || r in AllRequested(casing, scan.evidence)
  {
    hide GraphOf, AllRequested, RefSet, AnchoredAll, Annotations, ToolList, FirstOccurrences, ProvidingNodes, Nodes,
         GroupedComponents, NativeComponents;
    var g := GraphOf(casing, scan);
    GraphHolds(casing, scan);
    RefSetIs(g.components);
    PatchesKeepRefs(casing, scan.evidence, g.components);
  }

  ghost predicate IsObservedVersion(casing: Casing, evidence: seq<Evidence>, r: string) {
    exists i :: 0 <= i < |evidence| && NamesVersion(evidence[i])
                && ProtocolRef(casing, evidence[i].protocol, evidence[i].protocolVersion.value) == r
  }

  /** Protocol components are those of positive evidence. */
  lemma ProtocolInventory(casing: Casing, evidence: seq<Evidence>, r: string)
    requires CasesAscii(casing) && KindOf(r) == Protocol
    ensures r in AllRequested(casing, evidence) <==> IsObservedVersion(casing, evidence, r)
  {
    hide CasesAscii, AssetsBefore, ProtocolRequests, Handshakes, LeafRequests, AllRequested, KindOf, AreAssets, Requested,
         IsObservedVersion, Versions;
    RequestedParts(casing, evidence);
    PartsAreAssets(casing, evidence);
    AssetKinds(casing, AssetsBefore(casing, evidence));
    AssetKinds(casing, Handshakes(casing, evidence));
    LeafKinds(casing, evidence);
    VersionsRequested(casing, evidence, r);
  }

  lemma VersionsRequested(casing: Casing, evidence: seq<Evidence>, r: string)
    ensures r in Requested(ProtocolRequests(casing, Versions(evidence), evidence)) <==> IsObservedVersion(casing, evidence, r)
  {
    hide ProtocolRef, ProtocolSuites, PositiveVersions, Versions;
    var vs := Versions(evidence);
    var rs := ProtocolRequests(casing, vs, evidence);
    VersionsOf(evidence);
    if r in Requested(rs) {
      var k :| 0 <= k < |rs| && rs[k].component.ref == r;
      assert vs[k] in vs;
      var i :| 0 <= i < |evidence| && NamesVersion(evidence[i]) && VersionOf(evidence[i]) == vs[k];
    }
    if IsObservedVersion(casing, evidence, r) {
      var i :| 0 <= i < |evidence| && NamesVersion(evidence[i])
               && ProtocolRef(casing, evidence[i].protocol, evidence[i].protocolVersion.value) == r;
      assert VersionOf(evidence[i]) in vs;
      var k :| 0 <= k < |vs| && vs[k] == VersionOf(evidence[i]);
      assert rs[k].component.ref == r;
    }
  }

  /** Evidence whose certificate the scan captured. */
  predicate CapturesCertificate(e: Evidence) {
    e.observation == Observed && e.certificate.Some?
  }

  lemma {:induction false} CertificatesAreCaptured(evidence: seq<Evidence>)
    ensures Certificates(evidence) != [] <==> exists i :: 0 <= i < |evidence| && CapturesCertificate(evidence[i])
  {
    if evidence == [] {
    } else {
      CertificatesAreCaptured(evidence[1..]);
      assert evidence == [evidence[0]] + evidence[1..];
    }
  }

  /** The certificate component is in the inventory exactly when a certificate was captured. */
  lemma LeafInventory(casing: Casing, evidence: seq<Evidence>)
    requires CasesAscii(casing)
    ensures LEAF in AllRequested(casing, evidence) <==> Certificates(evidence) != []
  {
    hide CasesAscii, AssetsBefore, ProtocolRequests, Handshakes, AllRequested, KindOf, AreAssets, Requested, Versions,
         CertificateRequests, LeafRequest, Resolve, AlgorithmNames;
    RequestedParts(casing, evidence);
    PartsAreAssets(casing, evidence);
    AssetKinds(casing, AssetsBefore(casing, evidence));
    AssetKinds(casing, Handshakes(casing, evidence));
    ProtocolKinds(casing, evidence);
    assert KindOf(LEAF) == Kind.Certificate by { KindsOfRefs(casing, "", "", 0); }
    if Certificates(evidence) == [] {
      NothingRequested();
    } else {
      LeafIsRequested(casing, Certificates(evidence)[0]);
    }
  }

  lemma LeafIsRequested(casing: Casing, c: Certificate)
    ensures LEAF in Requested(CertificateRequests(casing, c))
  {
    hide KeyRequests, AlgorithmRequest, KeyRef, SignatureRef;
    var rs := CertificateRequests(casing, c);
    assert rs[|rs| - 1].component.ref == LEAF;
  }

  /** What the evidence of a scan puts into the document under a reference. */
  ghost predicate InInventory(casing: Casing, evidence: seq<Evidence>, r: string) {
    || r == ENDPOINT
    || (r == LEAF && exists i :: 0 <= i < |evidence| && CapturesCertificate(evidence[i]))
    || (KindOf(r) == Algorithm && exists n :: IsNamed(casing, evidence, n) && AlgorithmRef(casing, n) == r)
    || (KindOf(r) == Protocol && IsObservedVersion(casing, evidence, r))
  }

  lemma InventoryIs(casing: Casing, scan: Scan, reproducible: bool, r: string)
    requires CasesAscii(casing) && (r == ENDPOINT || r == LEAF || KindOf(r) == Algorithm || KindOf(r) == Protocol)
    ensures r in GraphRefs(DocumentOf(casing, scan, reproducible)) <==> InInventory(casing, scan.evidence, r)
  {
    hide CasesAscii, DocumentOf, GraphRefs, AllRequested, IsNamed, AlgorithmRef, KindOf, IsObservedVersion,
         CapturesCertificate;
    GraphRefsAre(casing, scan, reproducible, r);
    assert KindOf(LEAF) == Kind.Certificate && KindOf(ENDPOINT) == Endpoint by { KindsOfRefs(casing, "", "", 0); }
    if r == LEAF {
      LeafInventory(casing, scan.evidence);
      CertificatesAreCaptured(scan.evidence);
    } else if KindOf(r) == Algorithm {
      AlgorithmInventory(casing, scan.evidence, r);
    } else if KindOf(r) == Protocol {
      ProtocolInventory(casing, scan.evidence, r);
    }
  }

  /** Evidence is recorded exactly when the inventory holds what it is about: the endpoint, a captured
      certificate, an algorithm that evidence names, a protocol version seen. Otherwise it is dropped. */
  lemma RecordedIff(casing: Casing, scan: Scan, reproducible: bool, e: Evidence)
    requires CasesAscii(casing)
    ensures IsRecorded(casing, DocumentOf(casing, scan, reproducible), e) <==>
      exists r :: r in OccurrenceRefs(casing, e) && InInventory(casing, scan.evidence, r)
  {
    hide CasesAscii, DocumentOf, GraphRefs, InInventory, OccurrenceRefs, KindOf;
    forall r | r in OccurrenceRefs(casing, e)
      ensures r in GraphRefs(DocumentOf(casing, scan, reproducible)) <==> InInventory(casing, scan.evidence, r)
    {
      OccurrenceKinds(casing, e, r);
      InventoryIs(casing, scan, reproducible, r);
    }
  }

  /** Some evidence names an algorithm that is this one up to the case of letters. */
  ghost predicate InSomeCase(casing: Casing, evidence: seq<Evidence>, name: string) {
    exists n :: IsNamed(casing, evidence, n) && casing.lower(n) == casing.lower(name)
  }

  lemma AlgorithmInInventory(casing: Casing, evidence: seq<Evidence>, name: string)
    ensures InInventory(casing, evidence, AlgorithmRef(casing, name)) <==> InSomeCase(casing, evidence, name)
  {
    hide IsNamed, KindOf;
    var head := "crypto/algorithm/";
    forall n
      ensures AlgorithmRef(casing, n) == AlgorithmRef(casing, name) <==> casing.lower(n) == casing.lower(name)
    {
      assert AlgorithmRef(casing, n)[|head|..] == casing.lower(n);
      assert AlgorithmRef(casing, name)[|head|..] == casing.lower(name);
    }
    KindsOfRefs(casing, name, "", 0);
  }

  /** What evidence is about, in order of precedence, and when it is recorded: its group, else its suite, when
      some evidence names it; else its protocol version, when some positive evidence shows it; a bare record
      always. Certificate evidence: with any captured certificate, or when its signature or key is named. */
  lemma RecordedWhen(casing: Casing, scan: Scan, reproducible: bool, e: Evidence)
    requires CasesAscii(casing)
    ensures IsRecorded(casing, DocumentOf(casing, scan, reproducible), e) <==>
      if e.certificate.Some? then
        var c := e.certificate.value;
        var key := PublicKeyName(casing, c.keyAlgorithm, c.keyBits, None);
        || (exists i :: 0 <= i < |scan.evidence| && CapturesCertificate(scan.evidence[i]))
        || (c.signatureAlgorithm != "UNKNOWN" && InSomeCase(casing, scan.evidence, c.signatureAlgorithm))
        || (key.Some? && InSomeCase(casing, scan.evidence, key.value))
      else if Truthy(e.negotiatedGroup) then InSomeCase(casing, scan.evidence, e.negotiatedGroup.value)
      else if Truthy(e.cipherSuite) then InSomeCase(casing, scan.evidence, e.cipherSuite.value)
      else if Truthy(e.protocolVersion)
      then IsObservedVersion(casing, scan.evidence, ProtocolRef(casing, e.protocol, e.protocolVersion.value))
      else true
  {
    hide CasesAscii, DocumentOf, IsRecorded, AlgorithmRef, ProtocolRef, KindOf, IsObservedVersion, InSomeCase, InInventory,
         PublicKeyName, CapturesCertificate;
    RecordedIff(casing, scan, reproducible, e);
    var refs := OccurrenceRefs(casing, e);
    if e.certificate.Some? {
      var c := e.certificate.value;
      var key := PublicKeyName(casing, c.keyAlgorithm, c.keyBits, None);
      LeafInInventory(casing, scan.evidence);
      AlgorithmInInventory(casing, scan.evidence, c.signatureAlgorithm);
      if key.Some? {
        AlgorithmInInventory(casing, scan.evidence, key.value);
      }
      assert forall r :: r in refs <==> r == LEAF || SignatureRef(casing, c) == Some(r) || KeyRef(casing, c) == Some(r);
      assert LEAF in refs;
      assert c.signatureAlgorithm != "UNKNOWN" ==> AlgorithmRef(casing, c.signatureAlgorithm) in refs;
      assert key.Some? ==> AlgorithmRef(casing, key.value) in refs;
    } else {
      var r := SubjectRef(casing, e);
      assert refs == [r] && r in refs;
      SubjectInInventory(casing, scan.evidence, e);
    }
  }

  lemma LeafInInventory(casing: Casing, evidence: seq<Evidence>)
    ensures InInventory(casing, evidence, LEAF) <==> exists i :: 0 <= i < |evidence| && CapturesCertificate(evidence[i])
  {
    hide IsNamed, IsObservedVersion, KindOf, CapturesCertificate;
    KindsOfRefs(casing, "", "", 0);
  }

  lemma SubjectInInventory(casing: Casing, evidence: seq<Evidence>, e: Evidence)
    ensures InInventory(casing, evidence, SubjectRef(casing, e)) <==>
      if Truthy(e.negotiatedGroup) then InSomeCase(casing, evidence, e.negotiatedGroup.value)
      else if Truthy(e.cipherSuite) then InSomeCase(casing, evidence, e.cipherSuite.value)
      else if Truthy(e.protocolVersion)
      then IsObservedVersion(casing, evidence, ProtocolRef(casing, e.protocol, e.protocolVersion.value))
      else true
  {
    hide AlgorithmRef, ProtocolRef, KindOf, IsObservedVersion, InSomeCase, IsNamed;
    if Truthy(e.negotiatedGroup) {
      AlgorithmInInventory(casing, evidence, e.negotiatedGroup.value);
    } else if Truthy(e.cipherSuite) {
      AlgorithmInInventory(casing, evidence, e.cipherSuite.value);
    } else if Truthy(e.protocolVersion) {
      KindsOfRefs(casing, e.protocol, e.protocolVersion.value, 0);
    }
  }

  lemma OccurrenceKinds(casing: Casing, e: Evidence, r: string)
    requires r in OccurrenceRefs(casing, e)
    ensures r == ENDPOINT || r == LEAF || KindOf(r) == Algorithm || KindOf(r) == Protocol
  {
    hide AlgorithmRef, ProtocolRef, KindOf, PublicKeyName, SubjectRef;
    if e.certificate.None? {
      SubjectKinds(casing, e);
    } else {
      var c := e.certificate.value;
      var key := PublicKeyName(casing, c.keyAlgorithm, c.keyBits, None);
      KindsOfRefs(casing, c.signatureAlgorithm, "", 0);
      if key.Some? {
        KindsOfRefs(casing, key.value, "", 0);
      }
    }
  }

  /** Captured certificate evidence is always recorded. */
  lemma CapturedIsRecorded(casing: Casing, scan: Scan, reproducible: bool, i: nat)
    requires CasesAscii(casing) && i < |scan.evidence| && CapturesCertificate(scan.evidence[i])
    ensures IsRecorded(casing, DocumentOf(casing, scan, reproducible), scan.evidence[i])
  {
    hide CasesAscii, DocumentOf, GraphRefs, KindOf;
    RecordedIff(casing, scan, reproducible, scan.evidence[i]);
    assert LEAF in OccurrenceRefs(casing, scan.evidence[i]) && InInventory(casing, scan.evidence, LEAF);
  }

  lemma SubjectKinds(casing: Casing, e: Evidence)
    ensures var r := SubjectRef(casing, e); r == ENDPOINT || KindOf(r) == Algorithm || KindOf(r) == Protocol
  {
    hide AlgorithmRef, ProtocolRef, KindOf;
    var name := if Truthy(e.negotiatedGroup) then e.negotiatedGroup else e.cipherSuite;
    if Truthy(name) {
      KindsOfRefs(casing, name.value, "", 0);
    } else if Truthy(e.protocolVersion) {
      KindsOfRefs(casing, e.protocol, e.protocolVersion.value, 0);
    }
  }

  /** So evidence about nothing but a protocol version, the confirmed absence of one for instance, is
      recorded exactly when positive evidence of the scan gives the version the same reference. */
  lemma AbsenceRecordedIff(casing: Casing, scan: Scan, reproducible: bool, e: Evidence)
    requires CasesAscii(casing)
    requires e.certificate.None? && !Truthy(e.negotiatedGroup) && !Truthy(e.cipherSuite) && Truthy(e.protocolVersion)
    ensures IsRecorded(casing, DocumentOf(casing, scan, reproducible), e) <==>
      exists j :: 0 <= j < |scan.evidence| && NamesVersion(scan.evidence[j])
                  && ProtocolRef(casing, scan.evidence[j].protocol, scan.evidence[j].protocolVersion.value)
                     == ProtocolRef(casing, e.protocol, e.protocolVersion.value)
  {
    hide CasesAscii, DocumentOf, ProtocolRef, KindOf, IsRecorded, IsNamed;
    RecordedIff(casing, scan, reproducible, e);
    var r := ProtocolRef(casing, e.protocol, e.protocolVersion.value);
    assert OccurrenceRefs(casing, e) == [r];
    assert KindOf(r) == Protocol && KindOf(ENDPOINT) == Endpoint && KindOf(LEAF) == Kind.Certificate by {
      KindsOfRefs(casing, e.protocol, e.protocolVersion.value, 0);
    }
    assert r in OccurrenceRefs(casing, e);
  }

  // ----- an evidence item that leaves no trace -----

  function VersionEvidence(id: string, observation: Observation, version: string): Evidence {
    Evidence(id, "tls.legacy.protocol", observation, "tls", Some(version), None, None, None, None, None, None, None)
  }

  /** The legacy sweep of an endpoint that offers TLS 1.2 and was seen not to offer TLS 1.0. */
  const MODERN_SCAN: Scan :=
    Scan([VersionEvidence("1", Offered, "TLSv1.2"), VersionEvidence("2", NotOffered, "TLSv1")], [], [], "1.0")

  /** The second result is dropped: no component of the document, the endpoint included, records it. */
  lemma RefusalIsDropped(casing: Casing, reproducible: bool)
    requires CasesAscii(casing)
    ensures IsRecorded(casing, DocumentOf(casing, MODERN_SCAN, reproducible), MODERN_SCAN.evidence[0])
    ensures !IsRecorded(casing, DocumentOf(casing, MODERN_SCAN, reproducible), MODERN_SCAN.evidence[1])
  {
    hide CasesAscii, DocumentOf, IsRecorded;
    var seen, refused := MODERN_SCAN.evidence[0], MODERN_SCAN.evidence[1];
    AbsenceRecordedIff(casing, MODERN_SCAN, reproducible, seen);
    AbsenceRecordedIff(casing, MODERN_SCAN, reproducible, refused);
    assert NamesVersion(seen) && !NamesVersion(refused);
    VersionsDiffer(casing);
  }

  lemma VersionsDiffer(casing: Casing)
    requires CasesAscii(casing)
    ensures ProtocolRef(casing, "tls", "TLSv1.2") != ProtocolRef(casing, "tls", "TLSv1")
  {
    hide CasesAscii;
    LowerKeepsLength(casing, "TLSv1.2");
    LowerKeepsLength(casing, "TLSv1");
    assert |ProtocolRef(casing, "tls", "TLSv1.2")| == |ProtocolRef(casing, "tls", "TLSv1")| + 2;
  }

  lemma LowerKeepsLength(casing: Casing, s: string)
    requires CasesAscii(casing) && forall i :: 0 <= i < |s| ==> s[i] < 128 as char
    ensures |casing.lower(s)| == |s|
  {
  }
}
