/** What the components of the document say: protocol versions with their suites and groups, the
    certificate, observations, and what the annotations are about. */
module CbomContents {
  import opened Casings
  import opened Wrappers
  import opened Sequences
  import opened Sorting
  import Positional
  import opened Naming
  import opened ScanEvidence
  import opened Inventory
  import opened BomBuilder
  import opened CbomDocument
  import opened CbomSoundness
  import opened CbomTheorem
  import opened CbomOccurrences

  // ----- protocol versions -----

  /** The component of a protocol version in the finished document. */
  function ProtocolComponent(casing: Casing, evidence: seq<Evidence>, v: Version): Component {
    GroupedComponent(casing, evidence, ProtocolRequest(casing, v, evidence).component)
  }

  lemma ProtocolsInGraph(casing: Casing, scan: Scan, c: Component)
    requires CasesAscii(casing) && c.asset.ProtocolAsset?
    ensures c in GraphOf(casing, scan).components <==>
      exists v :: v in Versions(scan.evidence) && c == ProtocolRequest(casing, v, scan.evidence).component
  {
    hide CasesAscii, AssetsBefore, Handshakes, LeafRequests, Versions, AreAssets, ProtocolRequest, GraphOf, AllRequested,
         CertificateRequests, Certificates, Resolve, AlgorithmNames, LeafRequest;
    var evidence := scan.evidence;
    var a, p := AssetsBefore(casing, evidence), ProtocolRequests(casing, Versions(evidence), evidence);
    var h, l := Handshakes(casing, evidence), LeafRequests(casing, evidence);
    var rs := Requests(casing, evidence);
    assert rs == a + p + h + l;
    GraphHolds(casing, scan);
    PartsAreAssets(casing, evidence);
    ProtocolRequestsAre(casing, Versions(evidence), evidence);
    NoProtocolAmongAssets(casing, a);
    NoProtocolAmongAssets(casing, h);
    NoProtocolInLeaf(casing, evidence);
    if c in GraphOf(casing, scan).components {
      var i :| 0 <= i < |rs| && rs[i].component == c;
      RequestPart(a, p, h, l, i);
      assert p[i - |a|] == ProtocolRequest(casing, Versions(evidence)[i - |a|], evidence);
    }
    if v :| v in Versions(evidence) && c == ProtocolRequest(casing, v, evidence).component {
      var k :| 0 <= k < |Versions(evidence)| && Versions(evidence)[k] == v;
      assert p[k] == ProtocolRequest(casing, v, evidence) && rs[|a| + k] == p[k];
    }
  }

  predicate NoProtocols(rs: seq<Request>) {
    forall i :: 0 <= i < |rs| ==> !rs[i].component.asset.ProtocolAsset?
  }

  lemma RequestPart(a: seq<Request>, p: seq<Request>, h: seq<Request>, l: seq<Request>, i: nat)
    requires NoProtocols(a) && NoProtocols(h) && NoProtocols(l) && i < |a + p + h + l|
    requires (a + p + h + l)[i].component.asset.ProtocolAsset?
    ensures |a| <= i < |a| + |p| && (a + p + h + l)[i] == p[i - |a|]
  {
    var all := a + p + h + l;
    assert forall j :: 0 <= j < |a| ==> all[j] == a[j];
    assert forall j :: |a| + |p| <= j < |a| + |p| + |h| ==> all[j] == h[j - |a| - |p|];
    assert forall j :: |a| + |p| + |h| <= j < |all| ==> all[j] == l[j - |a| - |p| - |h|];
  }

  lemma NoProtocolAmongAssets(casing: Casing, rs: seq<Request>)
    requires AreAssets(casing, rs)
    ensures NoProtocols(rs)
  {
    forall i | 0 <= i < |rs|
      ensures !rs[i].component.asset.ProtocolAsset?
    {
      assert IsAsset(casing, rs[i]);
    }
  }

  lemma NoProtocolInLeaf(casing: Casing, evidence: seq<Evidence>)
    ensures NoProtocols(LeafRequests(casing, evidence))
  {
    hide Certificates, PublicKeyName, AlgorithmRef;
  }

  /** The document holds one component for every protocol and version that positive evidence shows. */
  lemma ProtocolComponentsAre(casing: Casing, scan: Scan, reproducible: bool, c: Component)
    requires CasesAscii(casing) && c.asset.ProtocolAsset?
    ensures c in DocumentOf(casing, scan, reproducible).components <==>
      exists i :: 0 <= i < |scan.evidence| && NamesVersion(scan.evidence[i])
                  && c == ProtocolComponent(casing, scan.evidence, VersionOf(scan.evidence[i]))
  {
    hide CasesAscii, GraphOf, Versions, ProtocolRequest, GroupedComponent, NativeComponent, AnchoredAll, Annotations, ToolList,
         FirstOccurrences, ProvidingNodes, Nodes, PositiveVersions, VersionOf;
    var evidence, g := scan.evidence, GraphOf(casing, scan).components;
    var d := DocumentOf(casing, scan, reproducible);
    assert d.components == GroupedComponents(casing, evidence, NativeComponents(g));
    VersionsOf(evidence);
    if c in d.components {
      var k :| 0 <= k < |g| && GroupedComponent(casing, evidence, NativeComponent(g[k])) == c;
      PatchedProtocol(casing, evidence, g[k]);
      ProtocolsInGraph(casing, scan, g[k]);
      var v :| v in Versions(evidence) && g[k] == ProtocolRequest(casing, v, evidence).component;
      var i :| 0 <= i < |evidence| && NamesVersion(evidence[i]) && VersionOf(evidence[i]) == v;
    }
    if i :| 0 <= i < |evidence| && NamesVersion(evidence[i]) && c == ProtocolComponent(casing, evidence, VersionOf(evidence[i])) {
      var v := VersionOf(evidence[i]);
      var o := ProtocolRequest(casing, v, evidence).component;
      assert v in PositiveVersions(evidence);
      IsProtocol(casing, v, evidence);
      ProtocolsInGraph(casing, scan, o);
      PatchedProtocol(casing, evidence, o);
      var k :| 0 <= k < |g| && g[k] == o;
      assert d.components[k] == c;
    }
  }

  lemma IsProtocol(casing: Casing, v: Version, evidence: seq<Evidence>)
    ensures var c := ProtocolRequest(casing, v, evidence).component;
      c.asset.ProtocolAsset? && c.name == v.version && c.asset.protocol == v.protocol
      && c.ref == ProtocolRef(casing, v.protocol, v.version)
  {
  }

  lemma PatchedProtocol(casing: Casing, evidence: seq<Evidence>, c: Component)
    ensures GroupedComponent(casing, evidence, NativeComponent(c)).asset.ProtocolAsset? <==> c.asset.ProtocolAsset?
    ensures c.asset.ProtocolAsset? ==> NativeComponent(c) == c
  {
    hide GroupedSuites;
  }

  // ----- suites and groups -----

  /** Positive evidence that a suite of a protocol version was seen with a group. */
  predicate SeenGroup(evidence: seq<Evidence>, v: Version, suite: string, group: string, i: nat)
    requires i < |evidence|
  {
    && evidence[i].observation in {Negotiated, Offered, Observed} && v.version != ""
    && evidence[i].protocol == v.protocol && evidence[i].protocolVersion == Some(v.version)
    && evidence[i].cipherSuite == Some(suite) && evidence[i].negotiatedGroup == Some(group)
  }

  lemma SeenGroupIff(evidence: seq<Evidence>, v: Version, suite: string, group: string, i: nat)
    requires i < |evidence|
    ensures SeenGroup(evidence, v, suite, group, i) <==>
      SeenWith(evidence[i], v, suite) && evidence[i].negotiatedGroup == Some(group)
  {
  }

  /** Positive evidence of a suite under a protocol version. */
  predicate ShowsSuite(e: Evidence, v: Version, suite: string) {
    && e.observation in {Negotiated, Offered, Observed} && v.version != "" && suite != ""
    && e.protocol == v.protocol && e.protocolVersion == Some(v.version) && e.cipherSuite == Some(suite)
  }

  lemma ShowsSuiteIff(e: Evidence, v: Version, suite: string)
    ensures ShowsSuite(e, v, suite) <==> NamesSuite(e, v) && e.cipherSuite == Some(suite)
  {
  }

  /** Some positive evidence of a kind the generic emitter reads negotiates this group. */
  ghost predicate IsEmittedGroup(evidence: seq<Evidence>, group: string) {
    group != "" && exists i :: 0 <= i < |evidence| && Positive(evidence[i].observation)
                               && evidence[i].kind !in OTHERS_KINDS && evidence[i].negotiatedGroup == Some(group)
  }

  /** The kinds of evidence whose names other emitters read. */
  const OTHERS_KINDS: seq<string> := [
    "wallet.signature", "ssh.hostkey", "ssh.kex", "ssh.kex.weak", "ssh.cipher", "ssh.mac", "tls.legacy.cipher",
    "ike.cipher", "ike.dh_group", "ike.prf", "ike.integrity"]

  lemma OthersKinds(kind: string)
    ensures kind in OTHERS_KINDS <==> kind in SPECIALIZED
  {
  }

  /** The references a suite makes before groups are moved: its own, and those of emitted groups seen with it. */
  ghost predicate MadeBySuite(casing: Casing, evidence: seq<Evidence>, v: Version, suite: string, r: string) {
    || r == AlgorithmRef(casing, suite)
    || exists group, i :: 0 <= i < |evidence| && SeenGroup(evidence, v, suite, group, i) && IsEmittedGroup(evidence, group)
                          && r == AlgorithmRef(casing, group)
  }

  /** A TLS negotiation of this version, suite and group, as the wire showed it. */
  ghost predicate IsNegotiated(evidence: seq<Evidence>, version: string, suite: string, group: string) {
    exists i :: 0 <= i < |evidence|
      && evidence[i].observation in {Negotiated, Offered, Observed} && evidence[i].kind == "tls.negotiation"
      && evidence[i].protocol == "tls" && evidence[i].protocolVersion == Some(version)
      && evidence[i].cipherSuite == Some(suite) && evidence[i].negotiatedGroup == Some(group)
  }

  /** What a suite of a protocol version says in the finished document: exactly the groups negotiated
      under it, sorted and each once, and of the references it made those of other things than these. */
  ghost predicate SuiteSays(casing: Casing, evidence: seq<Evidence>, v: Version, s: Suite) {
    && (forall g :: g in s.groups <==> v.protocol == "tls" && IsNegotiated(evidence, v.version, s.name, g))
    && NoDuplicates(s.groups) && IsSorted(BY_TEXT, s.groups)
    && (forall r :: r in s.algorithms <==>
          MadeBySuite(casing, evidence, v, s.name, r) && !IsGroupRef(casing, s, r))
  }

  /** The reference of a listed group. */
  ghost predicate IsGroupRef(casing: Casing, s: Suite, r: string) {
    exists g :: g in s.groups && r == AlgorithmRef(casing, g)
  }

  lemma EmittedGroups(evidence: seq<Evidence>, group: string)
    ensures group in SelectedNames(Groups, evidence) <==> IsEmittedGroup(evidence, group)
  {
    hide SelectedNames, SPECIALIZED, OTHERS_KINDS;
    forall i | 0 <= i < |evidence|
      ensures evidence[i].kind in OTHERS_KINDS <==> evidence[i].kind in SPECIALIZED
    {
      OthersKinds(evidence[i].kind);
    }
    if group in SelectedNames(Groups, evidence) {
      var i :| 0 <= i < |evidence| && Selects(Groups, evidence[i]) && Select(Groups, evidence[i]) == Some(group);
    }
    if IsEmittedGroup(evidence, group) {
      var i :| 0 <= i < |evidence| && Positive(evidence[i].observation)
               && evidence[i].kind !in OTHERS_KINDS && evidence[i].negotiatedGroup == Some(group);
      assert Selects(Groups, evidence[i]);
    }
  }

  lemma AlgorithmRefsOf(casing: Casing, names: seq<string>, r: string)
    ensures r in AlgorithmRefs(casing, names) <==> exists n :: n in names && r == AlgorithmRef(casing, n)
  {
    hide AlgorithmRef;
    if n :| n in names && r == AlgorithmRef(casing, n) {
      var i :| 0 <= i < |names| && names[i] == n;
      assert AlgorithmRefs(casing, names)[i] == r;
    }
  }

  lemma UnpatchedSuite(casing: Casing, evidence: seq<Evidence>, v: Version, suite: string, r: string)
    ensures SuiteOf(casing, v, suite, evidence).groups == [] && SuiteOf(casing, v, suite, evidence).name == suite
    ensures r in SuiteOf(casing, v, suite, evidence).algorithms <==> MadeBySuite(casing, evidence, v, suite, r)
  {
    hide SelectedNames, GroupsOf, AlgorithmRef, SortedNames, IsEmittedGroup;
    var groups := GroupsOf(v, suite, SelectedNames(Groups, evidence), evidence);
    SortedNamesOf(AlgorithmRefs(casing, groups));
    AlgorithmRefsOf(casing, groups, r);
    if r in AlgorithmRefs(casing, groups) {
      var n :| n in groups && r == AlgorithmRef(casing, n);
      EmittedGroups(evidence, n);
      var i :| 0 <= i < |evidence| && SeenWith(evidence[i], v, suite) && evidence[i].negotiatedGroup == Some(n);
      SeenGroupIff(evidence, v, suite, n, i);
    }
    if group, i :| 0 <= i < |evidence| && SeenGroup(evidence, v, suite, group, i) && IsEmittedGroup(evidence, group)
                   && r == AlgorithmRef(casing, group) {
      EmittedGroups(evidence, group);
      SeenGroupIff(evidence, v, suite, group, i);
      assert group in groups;
    }
  }

  lemma NegotiatedGroups(evidence: seq<Evidence>, version: string, suite: string)
    ensures forall g :: g in TlsGroups(evidence, version, suite) <==> IsNegotiated(evidence, version, suite, g)
    ensures NoDuplicates(TlsGroups(evidence, version, suite)) && IsSorted(BY_TEXT, TlsGroups(evidence, version, suite))
  {
    hide GroupNames, SortedNames, NoDuplicates, IsSorted;
    SortedNamesOf(GroupNames(evidence, version, suite));
    forall g
      ensures g in GroupNames(evidence, version, suite) <==> IsNegotiated(evidence, version, suite, g)
    {
      if IsNegotiated(evidence, version, suite, g) {
        var i :| 0 <= i < |evidence|
          && evidence[i].observation in {Negotiated, Offered, Observed} && evidence[i].kind == "tls.negotiation"
          && evidence[i].protocol == "tls" && evidence[i].protocolVersion == Some(version)
          && evidence[i].cipherSuite == Some(suite) && evidence[i].negotiatedGroup == Some(g);
        assert IsGroupEvidence(evidence[i], version, suite);
      }
    }
  }

  lemma GroupedSuiteSays(casing: Casing, evidence: seq<Evidence>, v: Version, suite: string)
    ensures var u := SuiteOf(casing, v, suite, evidence);
      && (v.protocol == "tls" ==> SuiteSays(casing, evidence, v, GroupedSuite(casing, evidence, v.version, u)))
      && (v.protocol != "tls" ==> SuiteSays(casing, evidence, v, u))
      && GroupedSuite(casing, evidence, v.version, u).name == suite
  {
    hide TlsGroups, SuiteOf, MadeBySuite, IsNegotiated, AlgorithmRef, AlgorithmRefs, NoDuplicates, IsSorted;
    var u := SuiteOf(casing, v, suite, evidence);
    var groups := TlsGroups(evidence, v.version, suite);
    var s := GroupedSuite(casing, evidence, v.version, u);
    NegotiatedGroups(evidence, v.version, suite);
    NothingSorted();
    UnpatchedSuite(casing, evidence, v, suite, "");
    assert s.groups == groups;
    forall r
      ensures r in u.algorithms <==> MadeBySuite(casing, evidence, v, suite, r)
      ensures r in AlgorithmRefs(casing, groups) <==> IsGroupRef(casing, s, r)
    {
      UnpatchedSuite(casing, evidence, v, suite, r);
      AlgorithmRefsOf(casing, groups, r);
    }
  }

  lemma NothingSorted()
    ensures NoDuplicates<string>([]) && IsSorted(BY_TEXT, [])
  {
  }

  /** The suites of a protocol version: every suite that positive evidence shows with it, in order and once,
      each with the groups negotiated under it and the references it made, apart from those of its groups. */
  lemma SuitesAre(casing: Casing, evidence: seq<Evidence>, v: Version)
    ensures var c := ProtocolComponent(casing, evidence, v);
      && c.asset.ProtocolAsset? && c.name == v.version && c.asset.protocol == v.protocol
      && c.ref == ProtocolRef(casing, v.protocol, v.version)
      && (forall k :: 0 <= k < |c.asset.suites| ==> SuiteSays(casing, evidence, v, c.asset.suites[k]))
      && (forall n :: n in SuiteNames(c.asset.suites) <==>
            exists i :: 0 <= i < |evidence| && ShowsSuite(evidence[i], v, n))
      && NoDuplicates(SuiteNames(c.asset.suites)) && IsSorted(BY_TEXT, SuiteNames(c.asset.suites))
  {
    hide SuiteSays, SuiteOf, SuitesOf, SortedNames, GroupedSuite, ProtocolRef, NoDuplicates, IsSorted, ShowsSuite, NamesSuite;
    var c := ProtocolComponent(casing, evidence, v);
    var names := SortedNames(SuitesOf(v, evidence));
    SortedNamesOf(SuitesOf(v, evidence));
    forall k | 0 <= k < |names|
      ensures SuiteSays(casing, evidence, v, c.asset.suites[k]) && c.asset.suites[k].name == names[k]
    {
      GroupedSuiteSays(casing, evidence, v, names[k]);
      SuiteIsNamed(casing, v, names[k], evidence);
    }
    assert SuiteNames(c.asset.suites) == names;
    forall n
      ensures n in names <==> exists i :: 0 <= i < |evidence| && ShowsSuite(evidence[i], v, n)
    {
      forall i | 0 <= i < |evidence|
        ensures ShowsSuite(evidence[i], v, n) <==> NamesSuite(evidence[i], v) && evidence[i].cipherSuite == Some(n)
      {
        ShowsSuiteIff(evidence[i], v, n);
      }
    }
  }

  lemma SuiteIsNamed(casing: Casing, v: Version, suite: string, evidence: seq<Evidence>)
    ensures SuiteOf(casing, v, suite, evidence).name == suite
  {
  }

  function SuiteNames(suites: seq<Suite>): (names: seq<string>)
    ensures |names| == |suites|
  {
    seq(|suites|, i requires 0 <= i < |suites| => suites[i].name)
  }

  /** So in the finished document: every suite of every protocol version says what the evidence says. */
  lemma DocumentSuites(casing: Casing, scan: Scan, reproducible: bool, c: Component, k: nat)
    requires CasesAscii(casing) && c in DocumentOf(casing, scan, reproducible).components
    requires c.asset.ProtocolAsset? && k < |c.asset.suites|
    ensures SuiteSays(casing, scan.evidence, Version(c.asset.protocol, c.name), c.asset.suites[k])
  {
    hide CasesAscii, DocumentOf, ProtocolComponent, SuiteSays;
    ProtocolComponentsAre(casing, scan, reproducible, c);
    var i :| 0 <= i < |scan.evidence| && NamesVersion(scan.evidence[i])
             && c == ProtocolComponent(casing, scan.evidence, VersionOf(scan.evidence[i]));
    SuitesAre(casing, scan.evidence, VersionOf(scan.evidence[i]));
  }

  // ----- components that no group patch touches -----

  lemma PatchedComponents(casing: Casing, scan: Scan, reproducible: bool, c: Component)
    requires !c.asset.ProtocolAsset?
    ensures c in DocumentOf(casing, scan, reproducible).components <==>
      exists o :: o in GraphOf(casing, scan).components && c == NativeComponent(o)
  {
    hide GraphOf, NativeComponent, GroupedSuites, AnchoredAll, Annotations, ToolList, FirstOccurrences, ProvidingNodes, Nodes;
    var evidence, g := scan.evidence, GraphOf(casing, scan).components;
    var d := DocumentOf(casing, scan, reproducible);
    assert d.components == GroupedComponents(casing, evidence, NativeComponents(g));
    forall k | 0 <= k < |g|
      ensures d.components[k] == c <==> NativeComponent(g[k]) == c
    {
    }
    if c in d.components {
      var k :| 0 <= k < |g| && d.components[k] == c;
      assert g[k] in g && c == NativeComponent(g[k]);
    }
    if o :| o in g && c == NativeComponent(o) {
      var k :| 0 <= k < |g| && g[k] == o;
      assert d.components[k] == c;
    }
  }

  // ----- the certificate -----

  /** The reference of an algorithm name, spelled out. */
  function Spelled(casing: Casing, name: string): string {
    "crypto/algorithm/" + casing.lower(name)
  }

  /** The certificate in the finished document: its subject, its signature algorithm, its subject key, and
      the native list of both in this order. */
  predicate CertificateSays(casing: Casing, cert: Certificate, c: Component) {
    var signature := if cert.signatureAlgorithm == "UNKNOWN" then [] else [Spelled(casing, cert.signatureAlgorithm)];
    var named := PublicKeyName(casing, cert.keyAlgorithm, cert.keyBits, None);
    var key := if named.None? then [] else [Spelled(casing, named.value)];
    && c.ref == "crypto/certificate/leaf" && c.name == cert.subject && c.asset.CertificateAsset?
    && c.asset.signatureRef == (if signature == [] then None else Some(signature[0]))
    && c.asset.keyRef == (if key == [] then None else Some(key[0]))
    && c.asset.related == signature + key
  }

  /** The certificate component of a document is that of the first captured certificate. */
  lemma CertificateIs(casing: Casing, scan: Scan, reproducible: bool, c: Component)
    requires CasesAscii(casing) && c in DocumentOf(casing, scan, reproducible).components && c.asset.CertificateAsset?
    ensures Certificates(scan.evidence) != [] && CertificateSays(casing, Certificates(scan.evidence)[0], c)
  {
    hide CasesAscii, GraphOf, DocumentOf, AllRequested, PublicKeyName, Certificates;
    PatchedComponents(casing, scan, reproducible, c);
    var o :| o in GraphOf(casing, scan).components && c == NativeComponent(o);
    CertificateRequested(casing, scan, o);
    LeafSays(casing, Certificates(scan.evidence)[0], o);
  }

  lemma LeafSays(casing: Casing, cert: Certificate, o: Component)
    requires o == LeafRequest(casing, cert).component
    ensures CertificateSays(casing, cert, NativeComponent(o))
  {
    hide PublicKeyName;
  }

  lemma CertificateRequested(casing: Casing, scan: Scan, o: Component)
    requires CasesAscii(casing) && o in GraphOf(casing, scan).components && o.asset.CertificateAsset?
    ensures Certificates(scan.evidence) != [] && o == LeafRequest(casing, Certificates(scan.evidence)[0]).component
  {
    hide CasesAscii, AssetsBefore, Handshakes, Versions, AreAssets, ProtocolRequests, GraphOf, AllRequested, AreProtocols,
         CertificateRequests, Certificates, Resolve, AlgorithmNames, LeafRequest;
    var evidence := scan.evidence;
    var a, p := AssetsBefore(casing, evidence), ProtocolRequests(casing, Versions(evidence), evidence);
    var h, l := Handshakes(casing, evidence), LeafRequests(casing, evidence);
    var rs := Requests(casing, evidence);
    GraphHolds(casing, scan);
    PartsAreAssets(casing, evidence);
    ProtocolRequestsAre(casing, Versions(evidence), evidence);
    NoCertificates(casing, a);
    NoCertificates(casing, h);
    NoCertificateAmongProtocols(p);
    var i :| 0 <= i < |rs| && rs[i].component == o;
    var k := CertificateIsLast(a, p, h, l, i);
    CertificateOfLeaf(casing, evidence, k);
  }

  lemma CertificateIsLast(a: seq<Request>, p: seq<Request>, h: seq<Request>, l: seq<Request>, i: nat) returns (k: nat)
    requires forall j :: 0 <= j < |a| ==> !a[j].component.asset.CertificateAsset?
    requires forall j :: 0 <= j < |p| ==> !p[j].component.asset.CertificateAsset?
    requires forall j :: 0 <= j < |h| ==> !h[j].component.asset.CertificateAsset?
    requires i < |a + p + h + l| && (a + p + h + l)[i].component.asset.CertificateAsset?
    ensures k < |l| && l[k] == (a + p + h + l)[i]
  {
    var rs := a + p + h + l;
    assert forall j :: 0 <= j < |a| ==> rs[j] == a[j];
    assert forall j :: |a| <= j < |a| + |p| ==> rs[j] == p[j - |a|];
    assert forall j :: |a| + |p| <= j < |a| + |p| + |h| ==> rs[j] == h[j - |a| - |p|];
    k := i - |a| - |p| - |h|;
  }

  lemma CertificateOfLeaf(casing: Casing, evidence: seq<Evidence>, k: nat)
    requires CasesAscii(casing) && k < |LeafRequests(casing, evidence)|
    requires LeafRequests(casing, evidence)[k].component.asset.CertificateAsset?
    ensures Certificates(evidence) != []
    ensures LeafRequests(casing, evidence)[k].component == LeafRequest(casing, Certificates(evidence)[0]).component
  {
    hide CasesAscii, AreAssets, CertificateRequests, Certificates, LeafRequest;
    var l := LeafRequests(casing, evidence);
    assert Certificates(evidence) != [];
    CertificateRequestsAre(casing, Certificates(evidence)[0]);
    NoCertificates(casing, l[..|l| - 1]);
    assert forall j :: 0 <= j < |l| - 1 ==> l[j] == l[..|l| - 1][j];
  }

  lemma NoCertificates(casing: Casing, rs: seq<Request>)
    requires AreAssets(casing, rs)
    ensures forall i :: 0 <= i < |rs| ==> !rs[i].component.asset.CertificateAsset?
  {
    forall i | 0 <= i < |rs|
      ensures !rs[i].component.asset.CertificateAsset?
    {
      assert IsAsset(casing, rs[i]);
    }
  }

  lemma NoCertificateAmongProtocols(rs: seq<Request>)
    requires AreProtocols(rs)
    ensures forall i :: 0 <= i < |rs| ==> !rs[i].component.asset.CertificateAsset?
  {
  }

  // ----- annotations -----

  /** What a finding is about: its group, else its algorithm, else its protocol version, else the endpoint. */
  predicate IsAbout(casing: Casing, f: Finding, ref: string) {
    if f.negotiatedGroup.Some? && f.negotiatedGroup.value != "" then ref == Spelled(casing, f.negotiatedGroup.value)
    else if f.algorithm.Some? && f.algorithm.value != "" then ref == Spelled(casing, f.algorithm.value)
    else if f.protocolVersion.Some? && f.protocolVersion.value != ""
    then ref == "crypto/protocol/" + f.protocol + "-" + casing.lower(f.protocolVersion.value)
    else ref == "endpoint"
  }

  /** Every finding has one annotation, numbered in order. Its subject is what the finding is about where the
      document has that, and the endpoint only where it has not. */
  lemma AnnotationsSay(casing: Casing, scan: Scan, reproducible: bool, i: nat)
    requires i < |scan.findings|
    ensures var d, f := DocumentOf(casing, scan, reproducible), scan.findings[i];
      && |d.annotations| == |scan.findings|
      && d.annotations[i].ref == "annotation/" + Positional.DigitText(IndexDigits(i)) + "-" + f.rule
      && |d.annotations[i].subjects| == 1
      && (IsAbout(casing, f, d.annotations[i].subjects[0]) ||
          (d.annotations[i].subjects[0] == "endpoint" && forall r :: IsAbout(casing, f, r) ==> r !in Refs(d.components)))
      && d.annotations[i].subjects[0] in GraphRefs(d)
  {
    hide GraphOf, GroupedComponents, NativeComponents, ToolList, FirstOccurrences, ProvidingNodes, Nodes, IndexDigits;
    var d, f := DocumentOf(casing, scan, reproducible), scan.findings[i];
    assert d.annotations[i] == Anchored(Refs(d.components), AnnotationEntry(AnnotationRef(i, f.rule), [SubjectOf(casing, f)]));
    assert IsAbout(casing, f, SubjectOf(casing, f));
    assert GraphRefs(d)[0] == "endpoint";
  }

  // ----- tools -----

  /** The tools of a document: QuReddy itself and every dependency that did not fail, under their names and
      versions; a path on the host is told only in a document that need not be reproducible. */
  lemma ToolsAre(casing: Casing, scan: Scan, reproducible: bool, t: ToolEntry)
    ensures t in DocumentOf(casing, scan, reproducible).tools ==>
      || t == ToolEntry("qureddy", "tool/qureddy", Some(scan.version), [])
      || exists i :: 0 <= i < |scan.dependencies| && !scan.dependencies[i].failed
                     && t.name == scan.dependencies[i].name && t.ref == "tool/" + t.name
                     && t.version == scan.dependencies[i].version && TellsPath(t, scan.dependencies[i], reproducible)
                     && TellsRole(t, scan.dependencies[i])
    ensures exists t :: t in DocumentOf(casing, scan, reproducible).tools && t.name == "qureddy" && t.version == Some(scan.version)
    ensures forall i :: 0 <= i < |scan.dependencies| && !scan.dependencies[i].failed ==>
      exists t :: t in DocumentOf(casing, scan, reproducible).tools && t.name == scan.dependencies[i].name
  {
    hide GraphOf, GroupedComponents, NativeComponents, ProvidingNodes, Nodes, AnchoredAll, Annotations, ToolProperties, ToolRef;
    var tools := DocumentOf(casing, scan, reproducible).tools;
    var list := ToolList(scan, reproducible);
    var own := ToolEntry(QUREDDY, ToolRef(QUREDDY), Some(scan.version), []);
    assert list[0] == own && own in tools;
    forall i | 0 <= i < |scan.dependencies| && !scan.dependencies[i].failed
      ensures ToolOf(scan.dependencies[i], reproducible) in tools
    {
      assert ToolOf(scan.dependencies[i], reproducible) in DependencyTools(scan.dependencies, reproducible);
      assert ToolOf(scan.dependencies[i], reproducible) in list;
    }
    ToolRefIs(QUREDDY);
    if t in tools && t != own {
      assert t in list && t in DependencyTools(scan.dependencies, reproducible);
      var i :| 0 <= i < |scan.dependencies| && !scan.dependencies[i].failed && t == ToolOf(scan.dependencies[i], reproducible);
      ToolRefIs(scan.dependencies[i].name);
      PathsAreTold(scan.dependencies[i], reproducible);
      RolesAreTold(scan.dependencies[i], reproducible);
    }
  }

  lemma ToolRefIs(name: string)
    ensures ToolRef(name) == "tool/" + name
  {
  }

  /** The role of a tool, and what the probed OpenSSL can do. */
  predicate TellsRole(t: ToolEntry, d: Dependency) {
    if d.OpenSsl? then
      && ("qureddy:collector.role", "local-probe-runtime") in t.properties
      && ("qureddy:openssl.supports_tls13_groups", if d.tls13 then "true" else "false") in t.properties
      && ("qureddy:openssl.supports_x25519mlkem768", if d.mlkem then "true" else "false") in t.properties
    else ("qureddy:collector.role", "external-tool-adapter") in t.properties
  }

  lemma RolesAreTold(d: Dependency, reproducible: bool)
    ensures TellsRole(ToolOf(d, reproducible), d)
  {
    hide ToolRef;
    var p := ToolOf(d, reproducible).properties;
    assert p[0] in p;
    if d.OpenSsl? {
      assert p[1] in p && p[2] in p;
    }
  }

  /** Whether the entry of a tool tells the path it was found at. */
  predicate TellsPath(t: ToolEntry, d: Dependency, reproducible: bool) {
    var key := if d.OpenSsl? then "qureddy:openssl.path" else "qureddy:collector.path";
    && (!reproducible && d.path.Some? ==> (key, d.path.value) in t.properties)
    && (reproducible ==> forall i :: 0 <= i < |t.properties| ==> t.properties[i].0 != key)
  }

  lemma PathsAreTold(d: Dependency, reproducible: bool)
    ensures TellsPath(ToolOf(d, reproducible), d, reproducible)
  {
    hide ToolRef;
    var t := ToolOf(d, reproducible);
    var last := |t.properties| - 1;
    assert !reproducible && d.path.Some? ==> t.properties[last] in t.properties;
  }

  // ----- observations -----

  /** Seen negotiated beats seen offered beats merely observed. */
  predicate AtLeast(o: Observation, other: Observation) {
    o == Negotiated || (o == Offered && other != Negotiated) || (o == Observed && other == Observed)
  }

  /** The strongest of what one emitter read of a name. */
  ghost predicate IsStrongest(evidence: seq<Evidence>, emitter: Emitter, name: string, o: Observation) {
    && (exists i :: 0 <= i < |evidence| && SelectedAs(emitter, evidence[i], name, o))
    && forall i :: 0 <= i < |evidence| && SelectedAs(emitter, evidence[i], name, evidence[i].observation) ==>
         AtLeast(o, evidence[i].observation)
  }

  /** Where an algorithm component comes from: an emitter with its strongest observation, a recorded handshake
      signature with its own, or a key whose algorithm carries none. */
  ghost predicate IsExplained(casing: Casing, evidence: seq<Evidence>, c: Component) {
    c.asset.AlgorithmAsset? ==>
      && c.ref == Spelled(casing, c.name)
      && match c.asset.observation
         case Some(o) =>
           || (exists emitter :: IsStrongest(evidence, emitter, c.name, o))
           || (exists i :: 0 <= i < |evidence| && IsNegotiation(evidence[i]) && evidence[i].handshakeSignature == Some(c.name)
                           && evidence[i].observation == o)
         case None => NamedByWallet(evidence, c.name) || NamedByCertificate(casing, evidence, c.name)
  }

  ghost predicate AllExplained(casing: Casing, evidence: seq<Evidence>, rs: seq<Request>) {
    forall i :: 0 <= i < |rs| ==> IsExplained(casing, evidence, rs[i].component)
  }

  lemma ExplainedConcat(casing: Casing, evidence: seq<Evidence>, a: seq<Request>, b: seq<Request>)
    requires AllExplained(casing, evidence, a) && AllExplained(casing, evidence, b)
    ensures AllExplained(casing, evidence, a + b)
  {
    hide IsExplained;
  }

  lemma EmitterExplained(casing: Casing, evidence: seq<Evidence>, emitter: Emitter)
    ensures AllExplained(casing, evidence, AssetRequests(casing, emitter, evidence))
  {
    hide SelectedNames, SortedNames, Strongest, SelectedAs;
    var names := SortedNames(SelectedNames(emitter, evidence));
    SortedNamesOf(SelectedNames(emitter, evidence));
    forall k | 0 <= k < |names|
      ensures IsExplained(casing, evidence, AlgorithmRequest(casing, names[k], Some(ObservationOf(emitter, evidence, names[k]))).component)
    {
      StrongestNames(emitter, evidence);
      StrongestIsMaximum(emitter, evidence, names[k]);
      MaximumIsStrongest(evidence, emitter, names[k]);
    }
  }

  lemma MaximumIsStrongest(evidence: seq<Evidence>, emitter: Emitter, name: string)
    requires name in SelectedNames(emitter, evidence) && name in Strongest(emitter, evidence)
    ensures IsStrongest(evidence, emitter, name, ObservationOf(emitter, evidence, name))
  {
    hide SelectedNames, Strongest;
    StrongestIsMaximum(emitter, evidence, name);
  }

  lemma NoneExplained(casing: Casing, evidence: seq<Evidence>)
    ensures AllExplained(casing, evidence, [])
  {
  }

  lemma WalletExplained(casing: Casing, evidence: seq<Evidence>)
    requires CasesAscii(casing)
    ensures AllExplained(casing, evidence, WalletKeyRequests(casing, evidence))
  {
    hide CasesAscii, PublicKeyName, IsExplained, WalletMaterial, RecoveredKeys;
    var keys := RecoveredKeys(evidence);
    if keys == [] {
      NoneExplained(casing, evidence);
    } else {
      WalletKeyName(casing);
      KeyExplained(casing, evidence);
      MaterialsExplained(casing, evidence, keys);
      var first := KeyRequests(casing, Some(EC_ALGORITHM), Some(256), Some(CURVE));
      ExplainedConcat(casing, evidence, first, WalletMaterials(casing, keys));
    }
  }

  lemma KeyExplained(casing: Casing, evidence: seq<Evidence>)
    requires RecoveredKeys(evidence) != []
    requires PublicKeyName(casing, Some(EC_ALGORITHM), Some(256), Some(CURVE)) == Some(WALLET_NAME)
    ensures AllExplained(casing, evidence, KeyRequests(casing, Some(EC_ALGORITHM), Some(256), Some(CURVE)))
  {
    hide PublicKeyName, RecoveredKeys;
  }

  lemma MaterialsExplained(casing: Casing, evidence: seq<Evidence>, keys: seq<string>)
    ensures AllExplained(casing, evidence, WalletMaterials(casing, keys))
  {
  }

  lemma SignatureExplained(casing: Casing, evidence: seq<Evidence>, e: Evidence, emitted: seq<string>)
    requires e in evidence && IsNegotiation(e)
    ensures AllExplained(casing, evidence, SignatureRequests(casing, e) + EphemeralRequests(casing, e, emitted))
  {
    var k :| 0 <= k < |evidence| && evidence[k] == e;
    assert e.handshakeSignature.Some? ==>
      IsNegotiation(evidence[k]) && evidence[k].handshakeSignature == Some(e.handshakeSignature.value);
  }

  lemma {:induction false} HandshakesExplained(casing: Casing, evidence: seq<Evidence>, es: seq<Evidence>, emitted: seq<string>)
    requires forall e :: e in es ==> e in evidence && IsNegotiation(e)
    ensures AllExplained(casing, evidence, HandshakeRequests(casing, es, emitted))
  {
    hide IsExplained, SignatureRequests, EphemeralRequests, IsNegotiation;
    if es == [] {
    } else {
      var init, last := es[..|es| - 1], es[|es| - 1];
      HandshakesExplained(casing, evidence, init, emitted);
      SignatureExplained(casing, evidence, last, emitted);
      ExplainedConcat(casing, evidence, HandshakeRequests(casing, init, emitted),
                      SignatureRequests(casing, last) + EphemeralRequests(casing, last, emitted));
    }
  }

  lemma LeafExplained(casing: Casing, evidence: seq<Evidence>)
    ensures AllExplained(casing, evidence, LeafRequests(casing, evidence))
  {
    hide Certificates, PublicKeyName;
  }

  lemma ProtocolsExplained(casing: Casing, evidence: seq<Evidence>)
    ensures AllExplained(casing, evidence, ProtocolRequests(casing, Versions(evidence), evidence))
  {
    hide Versions;
  }

  lemma BeforeExplained(casing: Casing, evidence: seq<Evidence>)
    requires CasesAscii(casing)
    ensures AllExplained(casing, evidence, AssetsBefore(casing, evidence))
  {
    hide CasesAscii, AssetRequests, WalletKeyRequests, AllExplained;
    forall emitter
      ensures AllExplained(casing, evidence, AssetRequests(casing, emitter, evidence))
    {
      EmitterExplained(casing, evidence, emitter);
    }
    WalletExplained(casing, evidence);
    var a, b := AssetRequests(casing, Groups, evidence), AssetRequests(casing, HostKeys, evidence);
    var w, k := AssetRequests(casing, WalletSignatures, evidence), WalletKeyRequests(casing, evidence);
    var c := AssetRequests(casing, SshKex, evidence);
    var s, m := AssetRequests(casing, SshCiphers, evidence), AssetRequests(casing, SshMacs, evidence);
    var i, j := AssetRequests(casing, IkeCiphers, evidence), AssetRequests(casing, IkeMacs, evidence);
    var g := AssetRequests(casing, IkeGroups, evidence);
    var t, l := AssetRequests(casing, CipherSuites, evidence), AssetRequests(casing, LegacyCiphers, evidence);
    ExplainedConcat(casing, evidence, a, b);
    ExplainedConcat(casing, evidence, w, k);
    ExplainedConcat(casing, evidence, a + b, w + k);
    ExplainedConcat(casing, evidence, a + b + (w + k), c);
    ExplainedConcat(casing, evidence, s, m);
    ExplainedConcat(casing, evidence, a + b + (w + k) + c, s + m);
    ExplainedConcat(casing, evidence, i, j);
    ExplainedConcat(casing, evidence, i + j, g);
    ExplainedConcat(casing, evidence, a + b + (w + k) + c + (s + m), i + j + g);
    ExplainedConcat(casing, evidence, a + b + (w + k) + c + (s + m) + (i + j + g), t);
    ExplainedConcat(casing, evidence, a + b + (w + k) + c + (s + m) + (i + j + g) + t, l);
  }

  /** Every algorithm in the finished document stands under its own reference, with an observation that some
      evidence made of it and no stronger evidence of the same kind contradicts. */
  lemma ObservationsAreStrongest(casing: Casing, scan: Scan, reproducible: bool, c: Component)
    requires CasesAscii(casing) && c in DocumentOf(casing, scan, reproducible).components
    ensures IsExplained(casing, scan.evidence, c)
  {
    hide CasesAscii, DocumentOf, GraphOf, AssetsBefore, ProtocolRequests, HandshakeRequests, LeafRequests, Negotiations, Versions,
         SelectedNames, AllRequested, Sort, IsExplained;
    if c.asset.AlgorithmAsset? {
      var evidence := scan.evidence;
      PatchedComponents(casing, scan, reproducible, c);
      var o :| o in GraphOf(casing, scan).components && c == NativeComponent(o);
      assert o == c;
      var a, p := AssetsBefore(casing, evidence), ProtocolRequests(casing, Versions(evidence), evidence);
      var h, l := Handshakes(casing, evidence), LeafRequests(casing, evidence);
      BeforeExplained(casing, evidence);
      ProtocolsExplained(casing, evidence);
      SortKeeps(BY_ID, Negotiations(evidence));
      HandshakesExplained(casing, evidence, Sort(BY_ID, Negotiations(evidence)), SelectedNames(Groups, evidence));
      LeafExplained(casing, evidence);
      ExplainedConcat(casing, evidence, a, p);
      ExplainedConcat(casing, evidence, a + p, h);
      ExplainedConcat(casing, evidence, a + p + h, l);
      GraphHolds(casing, scan);
    } else {
      NotAnAlgorithm(casing, scan.evidence, c);
    }
  }

  lemma NotAnAlgorithm(casing: Casing, evidence: seq<Evidence>, c: Component)
    requires !c.asset.AlgorithmAsset?
    ensures IsExplained(casing, evidence, c)
  {
  }
}
