/** When the document built from a scan passes its validator. */
module CbomTheorem {
  import opened Casings
  import opened Wrappers
  import opened Sequences
  import opened Sorting
  import opened Naming
  import opened ScanEvidence
  import opened Inventory
  import opened CbomDocument
  import opened CbomSoundness

  // ----- the three conditions, on the scan alone -----

  /** Different protocol versions have different references, which lower-casing can spoil. */
  predicate DistinctProtocols(casing: Casing, evidence: seq<Evidence>) {
    forall i, j | 0 <= i < |evidence| && 0 <= j < |evidence| && NamesVersion(evidence[i]) && NamesVersion(evidence[j])
      :: VersionOf(evidence[i]) != VersionOf(evidence[j]) ==>
           ProtocolRef(casing, evidence[i].protocol, evidence[i].protocolVersion.value)
             != ProtocolRef(casing, evidence[j].protocol, evidence[j].protocolVersion.value)
  }

  /** A dependency that is recorded as a tool. */
  predicate IsUsable(d: Dependency) {
    !d.failed
  }

  /** No usable dependency is called like QuReddy, and two with one name are the same tool. */
  predicate DistinctTools(scan: Scan, reproducible: bool) {
    var ds := scan.dependencies;
    && (forall i :: 0 <= i < |ds| && IsUsable(ds[i]) ==> ds[i].name != QUREDDY)
    && (forall i, j | 0 <= i < |ds| && 0 <= j < |ds| && IsUsable(ds[i]) && IsUsable(ds[j])
          :: ds[i].name == ds[j].name ==> ToolOf(ds[i], reproducible) == ToolOf(ds[j], reproducible))
  }

  /** Legacy-cipher evidence that puts a suite into a protocol version. */
  predicate ListsLegacySuite(e: Evidence) {
    NamesVersion(e) && e.kind == LEGACY_CIPHER && Truthy(e.cipherSuite)
  }

  /** Every such suite is also an algorithm that evidence names. */
  ghost predicate LegacySuitesNamed(casing: Casing, evidence: seq<Evidence>) {
    forall i :: 0 <= i < |evidence| && ListsLegacySuite(evidence[i]) ==>
      exists n :: IsNamed(casing, evidence, n)
                  && AlgorithmRef(casing, n) == AlgorithmRef(casing, evidence[i].cipherSuite.value)
  }

  /** The legacy scanner puts the suite into both fields, and then the condition holds. */
  lemma BothFieldsSuffice(casing: Casing, evidence: seq<Evidence>)
    requires forall i :: 0 <= i < |evidence| && ListsLegacySuite(evidence[i]) ==>
      evidence[i].negotiatedGroup == evidence[i].cipherSuite
    ensures LegacySuitesNamed(casing, evidence)
  {
    forall i | 0 <= i < |evidence| && ListsLegacySuite(evidence[i])
      ensures IsNamed(casing, evidence, evidence[i].cipherSuite.value)
    {
      assert NamesAsset(evidence[i], evidence[i].cipherSuite.value);
    }
  }

  // ----- the graph -----

  lemma GraphHolds(casing: Casing, scan: Scan)
    ensures var g := GraphOf(casing, scan);
      && RefSet(g.components) == AllRequested(casing, scan.evidence) && ProvidesAll(g)
      && (forall c :: c in g.components ==>
            exists i :: 0 <= i < |Requests(casing, scan.evidence)| && Requests(casing, scan.evidence)[i].component == c)
      && (forall i :: 0 <= i < |Requests(casing, scan.evidence)| && !Requests(casing, scan.evidence)[i].guarded ==>
            Requests(casing, scan.evidence)[i].component in g.components)
  {
    hide Requests, PutAll;
    assert RefSet(EMPTY.components) == {};
    assert ProvidesAll(EMPTY);
    PutAllEffect(EMPTY, Requests(casing, scan.evidence));
  }

  predicate DistinctVersionRefs(casing: Casing, versions: seq<Version>) {
    forall i, j :: 0 <= i < j < |versions| ==>
      ProtocolRef(casing, versions[i].protocol, versions[i].version)
        != ProtocolRef(casing, versions[j].protocol, versions[j].version)
  }

  lemma VersionRefsIff(casing: Casing, evidence: seq<Evidence>)
    ensures DistinctVersionRefs(casing, Versions(evidence)) <==> DistinctProtocols(casing, evidence)
  {
    hide ProtocolRef, PositiveVersions, Versions;
    VersionsOf(evidence);
    var vs := Versions(evidence);
    if DistinctVersionRefs(casing, vs) {
      forall i, j | 0 <= i < |evidence| && 0 <= j < |evidence| && NamesVersion(evidence[i]) && NamesVersion(evidence[j])
                    && VersionOf(evidence[i]) != VersionOf(evidence[j])
        ensures ProtocolRef(casing, evidence[i].protocol, evidence[i].protocolVersion.value)
             != ProtocolRef(casing, evidence[j].protocol, evidence[j].protocolVersion.value)
      {
        assert VersionOf(evidence[i]) in vs && VersionOf(evidence[j]) in vs;
        var k :| 0 <= k < |vs| && vs[k] == VersionOf(evidence[i]);
        var l :| 0 <= l < |vs| && vs[l] == VersionOf(evidence[j]);
        assert k < l || l < k;
      }
    }
    if DistinctProtocols(casing, evidence) {
      forall k, l | 0 <= k < l < |vs|
        ensures ProtocolRef(casing, vs[k].protocol, vs[k].version) != ProtocolRef(casing, vs[l].protocol, vs[l].version)
      {
        assert vs[k] in vs && vs[l] in vs;
        var i :| 0 <= i < |evidence| && NamesVersion(evidence[i]) && VersionOf(evidence[i]) == vs[k];
        var j :| 0 <= j < |evidence| && NamesVersion(evidence[j]) && VersionOf(evidence[j]) == vs[l];
        assert vs[k] != vs[l];
      }
    }
  }

  /** Different versions make different protocol components, whatever their references. */
  lemma ProtocolComponentsDiffer(casing: Casing, evidence: seq<Evidence>, i: nat, j: nat)
    requires i < j < |Versions(evidence)|
    ensures var rs := ProtocolRequests(casing, Versions(evidence), evidence); rs[i].component != rs[j].component
  {
    hide ProtocolSuites, Versions, ProtocolRef;
    VersionsOf(evidence);
    var v, w := Versions(evidence)[i], Versions(evidence)[j];
    assert v != w;
    if ProtocolRef(casing, v.protocol, v.version) == ProtocolRef(casing, w.protocol, w.version) && v.version == w.version {
      SameVersionSameProtocol(casing, v.protocol, w.protocol, v.version);
      assert false;
    }
  }

  /** Requested references of assets are of two kinds. */
  lemma AssetKinds(casing: Casing, rs: seq<Request>)
    requires AreAssets(casing, rs)
    ensures forall r :: r in Requested(rs) ==> KindOf(r) == Algorithm || KindOf(r) == Material
    ensures forall i :: 0 <= i < |rs| ==> rs[i].guarded
  {
    hide KindOf, AlgorithmRef;
    forall i | 0 <= i < |rs|
      ensures rs[i].guarded && KindOf(rs[i].component.ref) in {Algorithm, Material}
    {
      assert IsAsset(casing, rs[i]);
      KindsOfRefs(casing, rs[i].component.name, "", 0);
    }
  }

  /** Only two protocol versions can share a reference. */
  lemma GraphDistinctIff(casing: Casing, scan: Scan)
    requires CasesAscii(casing)
    ensures DistinctRefs(GraphOf(casing, scan)) <==> DistinctProtocols(casing, scan.evidence)
  {
    hide CasesAscii, AssetsBefore, ProtocolRequests, Handshakes, LeafRequests, PutAll, DistinctRefs, Requested, RefSet,
         AreAssets, NamedAssets, Resolve, KindOf, Versions, DistinctProtocols, LeafRequest, AllRequested, AlgorithmNames;
    var evidence := scan.evidence;
    PartsAre(casing, evidence);
    var a, p := AssetsBefore(casing, evidence), ProtocolRequests(casing, Versions(evidence), evidence);
    var h, l := Handshakes(casing, evidence), LeafRequests(casing, evidence);
    PutAllConcat(EMPTY, a, p);
    PutAllConcat(EMPTY, a + p, h);
    PutAllConcat(EMPTY, a + p + h, l);
    var before := PutAll(EMPTY, a);
    PartsAreAssets(casing, evidence);
    AssetKinds(casing, a);
    AssetKinds(casing, h);
    EmptyIsDistinct();
    GuardedKeepDistinct(EMPTY, a);
    PutAllEffect(EMPTY, a);
    ProtocolsDistinctIff(casing, evidence, before);
    GuardedKeepDistinct(PutAll(before, p), h);
    PutAllEffect(before, p);
    PutAllEffect(PutAll(before, p), h);
    LeafKeepsDistinct(casing, evidence, PutAll(PutAll(before, p), h));
  }

  lemma PartsAreAssets(casing: Casing, evidence: seq<Evidence>)
    requires CasesAscii(casing)
    ensures AreAssets(casing, AssetsBefore(casing, evidence)) && AreAssets(casing, Handshakes(casing, evidence))
  {
    hide CasesAscii, AreAssets, AssetsBefore, Handshakes, ProtocolRequests, LeafRequests, Resolve, AlgorithmNames;
    PartsAre(casing, evidence);
  }

  lemma EmptyIsDistinct()
    ensures DistinctRefs(EMPTY) && RefSet(EMPTY.components) == {}
  {
  }

  lemma ProtocolsDistinctIff(casing: Casing, evidence: seq<Evidence>, g: Graph)
    requires DistinctRefs(g) && forall r :: r in RefSet(g.components) ==> KindOf(r) != Protocol
    ensures var p := ProtocolRequests(casing, Versions(evidence), evidence);
      && (DistinctRefs(PutAll(g, p)) <==> DistinctProtocols(casing, evidence))
      && (forall r :: r in Requested(p) ==> KindOf(r) == Protocol)
  {
    hide PutAll, DistinctRefs, RefSet, KindOf, ProtocolSuites, Versions, ProtocolRef;
    var versions := Versions(evidence);
    var p := ProtocolRequests(casing, versions, evidence);
    ProtocolRequestsAre(casing, versions, evidence);
    forall i, j | 0 <= i < j < |p|
      ensures p[i].component != p[j].component
    {
      ProtocolComponentsDiffer(casing, evidence, i, j);
    }
    UnguardedDistinct(g, p);
    VersionRefsIff(casing, evidence);
    assert forall i :: 0 <= i < |p| ==>
      p[i].component.ref == ProtocolRef(casing, versions[i].protocol, versions[i].version);
  }

  lemma LeafKeepsDistinct(casing: Casing, evidence: seq<Evidence>, g: Graph)
    requires CasesAscii(casing) && forall r :: r in RefSet(g.components) ==> KindOf(r) != Kind.Certificate
    ensures DistinctRefs(PutAll(g, LeafRequests(casing, evidence))) <==> DistinctRefs(g)
  {
    hide CasesAscii, PutAll, DistinctRefs, RefSet, KindOf, Certificates, CertificateRequests, AreAssets, Put, Requested,
         Resolve, AlgorithmNames;
    if Certificates(evidence) != [] {
      var c := Certificates(evidence)[0];
      var l := CertificateRequests(casing, c);
      CertificateRequestsAre(casing, c);
      var init, leaf := l[..|l| - 1], l[|l| - 1];
      AssetKinds(casing, init);
      GuardedKeepDistinct(g, init);
      PutAllEffect(g, init);
      KindsOfRefs(casing, "", "", 0);
      PutDistinct(PutAll(g, init), leaf);
      LastPut(g, l);
    } else {
      NoPut(g);
    }
  }

  lemma LastPut(g: Graph, rs: seq<Request>)
    requires rs != []
    ensures PutAll(g, rs) == Put(PutAll(g, rs[..|rs| - 1]), rs[|rs| - 1])
  {
  }

  lemma NoPut(g: Graph)
    ensures PutAll(g, []) == g
  {
  }

  // ----- tools -----

  /** Equal entries merge, so references stay distinct when equal references mean equal entries. */
  lemma ToolRefsIff(tools: seq<ToolEntry>)
    ensures NoDuplicates(ToolRefs(FirstOccurrences(tools)))
       <==> forall s, t :: s in tools && t in tools && s.ref == t.ref ==> s == t
  {
    var merged := FirstOccurrences(tools);
    var refs := ToolRefs(merged);
    FirstOccurrencesAreDistinct(tools);
    if NoDuplicates(refs) {
      forall s, t | s in tools && t in tools && s.ref == t.ref
        ensures s == t
      {
        var i :| 0 <= i < |merged| && merged[i] == s;
        var j :| 0 <= j < |merged| && merged[j] == t;
        assert refs[i] == refs[j];
        assert i == j;
      }
    }
    if forall s, t :: s in tools && t in tools && s.ref == t.ref ==> s == t {
      forall i, j | 0 <= i < j < |refs|
        ensures refs[i] != refs[j]
      {
        assert merged[i] in tools && merged[j] in tools && merged[i] != merged[j];
      }
    }
  }

  lemma ToolRefInjective(a: string, b: string)
    requires ToolRef(a) == ToolRef(b)
    ensures a == b
  {
    assert ToolRef(a)[5..] == a && ToolRef(b)[5..] == b;
  }

  lemma ToolsDistinctIff(scan: Scan, reproducible: bool)
    ensures NoDuplicates(ToolRefs(FirstOccurrences(ToolList(scan, reproducible)))) <==> DistinctTools(scan, reproducible)
  {
    hide ToolProperties, ToolRef, FirstOccurrences, NoDuplicates, ToolRefs, DependencyTools;
    var ds, tools := scan.dependencies, ToolList(scan, reproducible);
    var own := ToolEntry(QUREDDY, ToolRef(QUREDDY), Some(scan.version), []);
    ToolRefsIff(tools);
    assert forall t :: t in tools <==> t == own || t in DependencyTools(ds, reproducible);
    if forall s, t :: s in tools && t in tools && s.ref == t.ref ==> s == t {
      forall i | 0 <= i < |ds| && !ds[i].failed
        ensures ds[i].name != QUREDDY && ToolOf(ds[i], reproducible) in tools
      {
        assert ToolOf(ds[i], reproducible) in tools;
        assert own in tools && own.properties != ToolOf(ds[i], reproducible).properties;
      }
    }
    if DistinctTools(scan, reproducible) {
      forall s, t | s in tools && t in tools && s.ref == t.ref
        ensures s == t
      {
        ToolRefsAreNames(scan, reproducible, s);
        ToolRefsAreNames(scan, reproducible, t);
        ToolRefInjective(s.name, t.name);
      }
    }
  }

  lemma ToolRefsAreNames(scan: Scan, reproducible: bool, t: ToolEntry)
    requires t in ToolList(scan, reproducible)
    ensures t.ref == ToolRef(t.name)
    ensures t == ToolEntry(QUREDDY, ToolRef(QUREDDY), Some(scan.version), [])
            || exists i :: 0 <= i < |scan.dependencies| && !scan.dependencies[i].failed
                           && t == ToolOf(scan.dependencies[i], reproducible)
  {
    hide ToolProperties, ToolRef;
  }

  // ----- declared references -----

  /** Components are algorithms, materials, protocol versions or the certificate. */
  lemma GraphKinds(casing: Casing, scan: Scan)
    requires CasesAscii(casing)
    ensures forall r :: r in AllRequested(casing, scan.evidence) ==>
      KindOf(r) in {Algorithm, Material, Protocol, Kind.Certificate}
  {
    hide CasesAscii, AssetsBefore, ProtocolRequests, Handshakes, Requested, AllRequested, AreAssets, NamedAssets, Resolve,
         KindOf, Versions, AlgorithmNames;
    var evidence := scan.evidence;
    PartsAreAssets(casing, evidence);
    AssetKinds(casing, AssetsBefore(casing, evidence));
    AssetKinds(casing, Handshakes(casing, evidence));
    RequestedParts(casing, evidence);
    ProtocolKinds(casing, evidence);
    LeafKinds(casing, evidence);
  }

  lemma ProtocolKinds(casing: Casing, evidence: seq<Evidence>)
    ensures forall r :: r in Requested(ProtocolRequests(casing, Versions(evidence), evidence)) ==> KindOf(r) == Protocol
  {
    hide ProtocolRequests, KindOf, Versions;
    ProtocolRequestsAre(casing, Versions(evidence), evidence);
  }

  lemma LeafKinds(casing: Casing, evidence: seq<Evidence>)
    ensures forall r :: r in Requested(LeafRequests(casing, evidence)) ==>
      KindOf(r) in {Algorithm, Material, Kind.Certificate}
  {
    hide Certificates, CertificateRequests, AreAssets, Resolve, AlgorithmNames, Requested, KindOf;
    if Certificates(evidence) == [] {
      assert Requested([]) == {} by { NothingRequested(); }
    } else {
      var l := CertificateRequests(casing, Certificates(evidence)[0]);
      CertificateRequestsAre(casing, Certificates(evidence)[0]);
      var init, leaf := l[..|l| - 1], l[|l| - 1];
      assert l == init + [leaf];
      RequestedConcat(init, [leaf]);
      AssetKinds(casing, init);
      KindsOfRefs(casing, "", "", 0);
      OneRequested(leaf);
    }
  }

  lemma NothingRequested()
    ensures Requested([]) == {}
  {
  }

  lemma OneRequested(r: Request)
    ensures Requested([r]) == {r.component.ref}
  {
    assert [r][0].component.ref in Requested([r]);
  }

  lemma ConcatDistinct(a: seq<string>, b: seq<string>)
    requires forall r :: r in a ==> r !in b
    ensures NoDuplicates(a + b) <==> NoDuplicates(a) && NoDuplicates(b)
  {
    var all := a + b;
    if NoDuplicates(all) {
      forall i, j | 0 <= i < j < |a|
        ensures a[i] != a[j]
      {
        assert all[i] == a[i] && all[j] == a[j];
      }
      forall i, j | 0 <= i < j < |b|
        ensures b[i] != b[j]
      {
        assert all[|a| + i] == b[i] && all[|a| + j] == b[j];
      }
    }
    if NoDuplicates(a) && NoDuplicates(b) {
      forall i, j | 0 <= i < j < |all|
        ensures all[i] != all[j]
      {
        if i < |a| <= j {
          assert all[i] in a && all[j] in b;
        }
      }
    }
  }

  /** The patches leave references alone. */
  lemma PatchesKeepRefs(casing: Casing, evidence: seq<Evidence>, components: seq<Component>)
    ensures Refs(GroupedComponents(casing, evidence, NativeComponents(components))) == Refs(components)
  {
    hide GroupedSuites;
  }

  lemma AnnotationsAre(casing: Casing, findings: seq<Finding>, refs: seq<string>)
    ensures var annotations := AnchoredAll(refs, Annotations(casing, findings));
      && NoDuplicates(AnnotationRefs(annotations))
      && (forall r :: r in AnnotationRefs(annotations) ==> KindOf(r) == Annotation)
      && (forall r :: r in SubjectRefs(annotations) ==> r == ENDPOINT || r in refs)
  {
    hide SubjectOf, AnnotationRef, KindOf;
    var annotations := AnchoredAll(refs, Annotations(casing, findings));
    var all := AnnotationRefs(annotations);
    assert forall i :: 0 <= i < |all| ==> all[i] == AnnotationRef(i, findings[i].rule);
    forall i, j | 0 <= i < j < |all|
      ensures all[i] != all[j]
    {
      if all[i] == all[j] {
        AnnotationRefsDistinct(i, j, findings[i].rule, findings[j].rule);
      }
    }
    forall i | 0 <= i < |all|
      ensures KindOf(all[i]) == Annotation
    {
      KindsOfRefs(casing, findings[i].rule, "", i);
    }
  }

  lemma ToolKinds(casing: Casing, scan: Scan, reproducible: bool)
    ensures forall r :: r in ToolRefs(FirstOccurrences(ToolList(scan, reproducible))) ==> KindOf(r) == Tool
  {
    hide ToolList, KindOf, ToolRef, FirstOccurrences;
    var tools := FirstOccurrences(ToolList(scan, reproducible));
    forall i | 0 <= i < |tools|
      ensures KindOf(tools[i].ref) == Tool
    {
      assert tools[i] in ToolList(scan, reproducible);
      ToolRefsAreNames(scan, reproducible, tools[i]);
      KindsOfRefs(casing, tools[i].name, "", 0);
    }
  }

  /** Nothing is declared twice, or left with a generated reference, exactly under the first two conditions. */
  lemma DeclaredIff(casing: Casing, scan: Scan, reproducible: bool)
    requires CasesAscii(casing)
    ensures var declared := DeclaredRefs(DocumentOf(casing, scan, reproducible));
      && (NoDuplicates(declared) <==> DistinctProtocols(casing, scan.evidence) && DistinctTools(scan, reproducible))
      && (forall r :: r in declared ==> !IsAutoRef(r))
  {
    hide CasesAscii, GraphOf, GroupedComponents, NativeComponents, ToolList, FirstOccurrences, AnchoredAll, Annotations,
         KindOf, IsAutoRef, DistinctProtocols, DistinctTools, AllRequested, NoDuplicates, ToolRefs, AnnotationRefs, RefSet;
    var d, g := DocumentOf(casing, scan, reproducible), GraphOf(casing, scan);
    PatchesKeepRefs(casing, scan.evidence, g.components);
    GraphHolds(casing, scan);
    GraphKinds(casing, scan);
    RefSetIs(g.components);
    GraphDistinctIff(casing, scan);
    ToolsDistinctIff(scan, reproducible);
    ToolKinds(casing, scan, reproducible);
    AnnotationsAre(casing, scan.findings, Refs(d.components));
    KindsOfRefs(casing, "", "", 0);
    var refs, tools, notes := Refs(g.components), ToolRefs(d.tools), AnnotationRefs(d.annotations);
    EndpointIsDistinct();
    assert forall r :: r in refs ==> r in AllRequested(casing, scan.evidence);
    ConcatDistinct([ENDPOINT], refs);
    ConcatDistinct([ENDPOINT] + refs, tools);
    ConcatDistinct([ENDPOINT] + refs + tools, notes);
    forall r | r in DeclaredRefs(d)
      ensures !IsAutoRef(r)
    {
      KnownKindIsNotAuto(r);
    }
  }

  lemma EndpointIsDistinct()
    ensures NoDuplicates([ENDPOINT])
  {
  }

  // ----- references made -----

  /** A patched component references what it did before, apart from groups moved away. */
  lemma PatchedRefs(casing: Casing, evidence: seq<Evidence>, c: Component, r: string)
    requires r in ComponentRefs(GroupedComponent(casing, evidence, NativeComponent(c)))
    requires c.asset.CertificateAsset? ==> c.asset.related == []
    ensures r in ComponentRefs(c)
  {
    hide TlsGroups, AlgorithmRefs;
    var p := NativeComponent(c);
    if c.asset.ProtocolAsset? && c.asset.protocol == "tls" {
      var suites := GroupedSuites(casing, evidence, c.name, c.asset.suites);
      var i :| 0 <= i < |suites| && r in suites[i].algorithms;
      assert r in c.asset.suites[i].algorithms;
    }
  }

  /** With the legacy suites named, everything a protocol version lists is in the inventory. */
  lemma ProtocolsResolve(casing: Casing, evidence: seq<Evidence>)
    requires CasesAscii(casing) && LegacySuitesNamed(casing, evidence)
    ensures Resolve(ProtocolRequests(casing, Versions(evidence), evidence), AllRequested(casing, evidence))
  {
    hide CasesAscii, AllRequested, LegacySuitesNamed, AlgorithmRef, ProtocolRef, Versions, ProtocolSuites;
    var rs := ProtocolRequests(casing, Versions(evidence), evidence);
    forall i, r | 0 <= i < |rs| && r in ComponentRefs(rs[i].component)
      ensures r in AllRequested(casing, evidence)
    {
      var v := Versions(evidence)[i];
      var suites := ProtocolSuites(casing, v, evidence);
      var k :| 0 <= k < |suites| && r in suites[k].algorithms;
      SuiteResolves(casing, v, evidence, k, r);
    }
  }

  lemma SuiteResolves(casing: Casing, v: Version, evidence: seq<Evidence>, k: nat, r: string)
    requires CasesAscii(casing) && LegacySuitesNamed(casing, evidence)
    requires k < |ProtocolSuites(casing, v, evidence)| && r in ProtocolSuites(casing, v, evidence)[k].algorithms
    ensures r in AllRequested(casing, evidence)
  {
    hide CasesAscii, AllRequested, LegacySuitesNamed, AlgorithmRef, SuitesOf, SortedNames, SelectedNames, GroupsOf;
    var name := SortedNames(SuitesOf(v, evidence))[k];
    var groups := GroupsOf(v, name, SelectedNames(Groups, evidence), evidence);
    SortedNamesOf(SuitesOf(v, evidence));
    SortedNamesOf(AlgorithmRefs(casing, groups));
    if r == AlgorithmRef(casing, name) {
      SuiteIsKnown(casing, v, evidence, name);
    } else {
      assert r in AlgorithmRefs(casing, groups);
      var g :| 0 <= g < |groups| && AlgorithmRef(casing, groups[g]) == r;
      assert groups[g] in SelectedNames(Groups, evidence);
      GroupsAreKnown(casing, evidence);
    }
  }

  lemma SuiteIsKnown(casing: Casing, v: Version, evidence: seq<Evidence>, name: string)
    requires CasesAscii(casing) && LegacySuitesNamed(casing, evidence) && name in SuitesOf(v, evidence)
    ensures AlgorithmRef(casing, name) in AllRequested(casing, evidence)
  {
    hide CasesAscii, AllRequested, AlgorithmRef, SuitesOf, KindOf, NamedByCertificate, NamedBySignature, NamedByWallet;
    var i :| 0 <= i < |evidence| && NamesSuite(evidence[i], v) && evidence[i].cipherSuite == Some(name);
    var e := evidence[i];
    assert KindOf(AlgorithmRef(casing, name)) == Algorithm by { KindsOfRefs(casing, name, "", 0); }
    AlgorithmInventory(casing, evidence, AlgorithmRef(casing, name));
    if e.kind == LEGACY_CIPHER {
      assert ListsLegacySuite(e);
    } else {
      assert NamesAsset(e, name);
    }
  }

  /** Every component of the graph resolves its references within the graph. */
  lemma GraphResolves(casing: Casing, scan: Scan, c: Component, r: string)
    requires CasesAscii(casing) && LegacySuitesNamed(casing, scan.evidence)
    requires c in GraphOf(casing, scan).components && r in ComponentRefs(c)
    ensures r in AllRequested(casing, scan.evidence)
  {
    hide CasesAscii, LegacySuitesNamed, GraphOf, AllRequested, AssetsBefore, ProtocolRequests, Handshakes, LeafRequests,
         ComponentRefs, AreAssets, AlgorithmNames, Versions, Requests;
    var evidence := scan.evidence;
    GraphHolds(casing, scan);
    PartsAre(casing, evidence);
    ProtocolsResolve(casing, evidence);
    RequestsResolve(casing, evidence);
  }

  lemma RequestsResolve(casing: Casing, evidence: seq<Evidence>)
    requires CasesAscii(casing) && LegacySuitesNamed(casing, evidence)
    ensures Resolve(Requests(casing, evidence), AllRequested(casing, evidence))
  {
    hide CasesAscii, LegacySuitesNamed, AllRequested, AssetsBefore, ProtocolRequests, Handshakes, LeafRequests,
         AreAssets, AlgorithmNames, Versions, Resolve;
    var known := AllRequested(casing, evidence);
    PartsAre(casing, evidence);
    ProtocolsResolve(casing, evidence);
    var a, p := AssetsBefore(casing, evidence), ProtocolRequests(casing, Versions(evidence), evidence);
    var h, l := Handshakes(casing, evidence), LeafRequests(casing, evidence);
    ResolveConcat(a, p, known);
    ResolveConcat(a + p, h, known);
    ResolveConcat(a + p + h, l, known);
  }

  /** The endpoint's node provides every component and nothing else; all other nodes provide nothing. */
  lemma EndpointProvides(casing: Casing, scan: Scan, reproducible: bool)
    requires CasesAscii(casing)
    ensures var d := DocumentOf(casing, scan, reproducible);
      && |d.dependencies| == 1 + |d.components| && d.dependencies[0].ref == ENDPOINT
      && (forall r :: r in d.dependencies[0].provided <==> r in Refs(d.components))
      && NoDuplicates(d.dependencies[0].provided) && IsSorted(BY_TEXT, d.dependencies[0].provided)
      && (forall i :: 0 < i < |d.dependencies| ==>
            d.dependencies[i] == DependencyNode(d.components[i - 1].ref, [], []))
  {
    hide CasesAscii, GraphOf, GroupedComponents, NativeComponents, KindOf, AllRequested, RefSet, SortedNames;
    var d, g := DocumentOf(casing, scan, reproducible), GraphOf(casing, scan);
    PatchesKeepRefs(casing, scan.evidence, g.components);
    GraphHolds(casing, scan);
    GraphKinds(casing, scan);
    RefSetIs(g.components);
    KindsOfRefs(casing, "", "", 0);
    ProvidedAreRefs(g);
    SortedNamesOf(g.provided);
    var nodes := Nodes([ENDPOINT] + Refs(g.components));
    assert d.dependencies[0] == ProvidingNode(nodes[0], g.provided);
    forall i | 0 < i < |d.dependencies|
      ensures d.dependencies[i] == DependencyNode(d.components[i - 1].ref, [], [])
    {
      assert nodes[i].ref == Refs(g.components)[i - 1] == Refs(d.components)[i - 1] == d.components[i - 1].ref;
      assert Refs(g.components)[i - 1] in RefSet(g.components);
    }
  }

  lemma ProvidedAreRefs(g: Graph)
    requires ProvidesAll(g)
    ensures forall r :: r in g.provided <==> r in Refs(g.components)
  {
    RefSetIs(g.components);
    forall r
      ensures r in g.provided <==> r in RefSet(g.components)
    {
      if r in g.provided {
        var i :| 0 <= i < |g.provided| && g.provided[i] == r;
      }
    }
  }

  predicate Unpatched(rs: seq<Request>) {
    forall i :: 0 <= i < |rs| && rs[i].component.asset.CertificateAsset? ==> rs[i].component.asset.related == []
  }

  lemma UnpatchedConcat(a: seq<Request>, b: seq<Request>)
    requires Unpatched(a) && Unpatched(b)
    ensures Unpatched(a + b)
  {
  }

  lemma AssetsAreUnpatched(casing: Casing, rs: seq<Request>)
    requires AreAssets(casing, rs)
    ensures Unpatched(rs)
  {
    forall i | 0 <= i < |rs|
      ensures !rs[i].component.asset.CertificateAsset?
    {
      assert IsAsset(casing, rs[i]);
    }
  }

  lemma ProtocolsAreUnpatched(rs: seq<Request>)
    requires AreProtocols(rs)
    ensures Unpatched(rs)
  {
  }

  lemma LeafIsUnpatched(casing: Casing, evidence: seq<Evidence>)
    ensures Unpatched(LeafRequests(casing, evidence))
  {
    hide Certificates, CertificateRequests, AreAssets, Resolve, AlgorithmNames, Requested, Unpatched;
    if Certificates(evidence) == [] {
      NoneUnpatched();
    } else {
      var l := CertificateRequests(casing, Certificates(evidence)[0]);
      CertificateRequestsAre(casing, Certificates(evidence)[0]);
      var init, leaf := l[..|l| - 1], l[|l| - 1];
      assert l == init + [leaf];
      AssetsAreUnpatched(casing, init);
      OneUnpatched(leaf);
      UnpatchedConcat(init, [leaf]);
    }
  }

  lemma NoneUnpatched()
    ensures Unpatched([])
  {
  }

  lemma OneUnpatched(r: Request)
    requires r.component.asset.CertificateAsset? ==> r.component.asset.related == []
    ensures Unpatched([r])
  {
  }

  /** Certificates carry no related assets before the patch that adds them. */
  lemma NoRelatedYet(casing: Casing, scan: Scan, c: Component)
    requires CasesAscii(casing) && c in GraphOf(casing, scan).components && c.asset.CertificateAsset?
    ensures c.asset.related == []
  {
    hide CasesAscii, GraphOf, AllRequested, Requests;
    GraphHolds(casing, scan);
    RequestsAreUnpatched(casing, scan.evidence);
  }

  lemma RequestsAreUnpatched(casing: Casing, evidence: seq<Evidence>)
    requires CasesAscii(casing)
    ensures Unpatched(Requests(casing, evidence))
  {
    hide CasesAscii, AssetsBefore, ProtocolRequests, Handshakes, LeafRequests, Versions, Unpatched, AreAssets, AreProtocols;
    var a, p := AssetsBefore(casing, evidence), ProtocolRequests(casing, Versions(evidence), evidence);
    var h, l := Handshakes(casing, evidence), LeafRequests(casing, evidence);
    PartsAreAssets(casing, evidence);
    ProtocolRequestsAre(casing, Versions(evidence), evidence);
    AssetsAreUnpatched(casing, a);
    AssetsAreUnpatched(casing, h);
    ProtocolsAreUnpatched(p);
    LeafIsUnpatched(casing, evidence);
    UnpatchedConcat(a, p);
    UnpatchedConcat(a + p, h);
    UnpatchedConcat(a + p + h, l);
  }

  /** The references of the document's parts lead into the graph when the legacy suites are named. */
  lemma AllResolve(casing: Casing, scan: Scan, reproducible: bool, r: string)
    requires CasesAscii(casing) && LegacySuitesNamed(casing, scan.evidence)
    requires r in ReferencedRefs(DocumentOf(casing, scan, reproducible))
    ensures r in GraphRefs(DocumentOf(casing, scan, reproducible))
  {
    hide CasesAscii, LegacySuitesNamed, GraphOf, AllRequested, ComponentRefs, GroupedComponent, NativeComponent, KindOf,
         AnchoredAll, Annotations, SubjectRefs, NodeRefs, CryptoRefs, ToolList, FirstOccurrences, RefSet, ProvidingNodes, Nodes,
         NoDuplicates;
    var d, g := DocumentOf(casing, scan, reproducible), GraphOf(casing, scan);
    PatchesKeepRefs(casing, scan.evidence, g.components);
    GraphHolds(casing, scan);
    RefSetIs(g.components);
    AnnotationsAre(casing, scan.findings, Refs(d.components));
    if r in CryptoRefs(d.components) {
      var i :| 0 <= i < |d.components| && r in ComponentRefs(d.components[i]);
      var c := g.components[i];
      assert d.components[i] == GroupedComponent(casing, scan.evidence, NativeComponent(c));
      if c.asset.CertificateAsset? {
        NoRelatedYet(casing, scan, c);
      }
      PatchedRefs(casing, scan.evidence, c, r);
      GraphResolves(casing, scan, c, r);
    } else if r in NodeRefs(d.dependencies) {
      NodesResolve(casing, scan, reproducible, r);
    }
  }

  lemma NodesResolve(casing: Casing, scan: Scan, reproducible: bool, r: string)
    requires CasesAscii(casing) && r in NodeRefs(DocumentOf(casing, scan, reproducible).dependencies)
    ensures r in GraphRefs(DocumentOf(casing, scan, reproducible))
  {
    hide CasesAscii, DocumentOf, NodeRefs;
    var d := DocumentOf(casing, scan, reproducible);
    EndpointProvides(casing, scan, reproducible);
    var i :| 0 <= i < |d.dependencies|
             && (r == d.dependencies[i].ref || r in d.dependencies[i].dependsOn || r in d.dependencies[i].provided);
    if i > 0 {
      assert Refs(d.components)[i - 1] == r;
    } else {
      NoEndpointEdges(casing, scan, reproducible);
    }
  }

  lemma NoEndpointEdges(casing: Casing, scan: Scan, reproducible: bool)
    ensures var d := DocumentOf(casing, scan, reproducible);
      d.dependencies != [] && d.dependencies[0].dependsOn == [] && d.endpoint == ENDPOINT
  {
    hide GraphOf, GroupedComponents, NativeComponents, AnchoredAll, Annotations, ToolList, FirstOccurrences, SortedNames;
  }

  /** An unnamed legacy suite is referenced by its protocol version and resolved by nothing. */
  lemma UnnamedSuiteDangles(casing: Casing, scan: Scan, reproducible: bool, i: nat)
    requires CasesAscii(casing) && i < |scan.evidence| && ListsLegacySuite(scan.evidence[i])
    requires forall n :: IsNamed(casing, scan.evidence, n) ==>
      AlgorithmRef(casing, n) != AlgorithmRef(casing, scan.evidence[i].cipherSuite.value)
    ensures var d, r := DocumentOf(casing, scan, reproducible), AlgorithmRef(casing, scan.evidence[i].cipherSuite.value);
      r in ReferencedRefs(d) && r !in GraphRefs(d)
  {
    hide CasesAscii, IsNamed, AlgorithmRef, DocumentOf, GraphRefs, ReferencedRefs;
    UnnamedIsUnknown(casing, scan, reproducible, scan.evidence[i].cipherSuite.value);
    UnnamedIsReferenced(casing, scan, reproducible, i);
  }

  lemma UnnamedIsUnknown(casing: Casing, scan: Scan, reproducible: bool, name: string)
    requires CasesAscii(casing)
    requires forall n :: IsNamed(casing, scan.evidence, n) ==> AlgorithmRef(casing, n) != AlgorithmRef(casing, name)
    ensures AlgorithmRef(casing, name) !in GraphRefs(DocumentOf(casing, scan, reproducible))
  {
    hide CasesAscii, GraphOf, AllRequested, IsNamed, AlgorithmRef, KindOf, RefSet, AnchoredAll, Annotations,
         ToolList, FirstOccurrences, ProvidingNodes, Nodes, GroupedComponents, NativeComponents;
    var g, r := GraphOf(casing, scan), AlgorithmRef(casing, name);
    KindsOfRefs(casing, name, "", 0);
    AlgorithmInventory(casing, scan.evidence, r);
    GraphHolds(casing, scan);
    RefSetIs(g.components);
    PatchesKeepRefs(casing, scan.evidence, g.components);
  }

  lemma UnnamedIsReferenced(casing: Casing, scan: Scan, reproducible: bool, i: nat)
    requires i < |scan.evidence| && ListsLegacySuite(scan.evidence[i])
    requires !IsNamed(casing, scan.evidence, scan.evidence[i].cipherSuite.value)
    ensures AlgorithmRef(casing, scan.evidence[i].cipherSuite.value) in ReferencedRefs(DocumentOf(casing, scan, reproducible))
  {
    hide GraphOf, IsNamed, AlgorithmRef, NodeRefs, SubjectRefs, AnchoredAll, Annotations, ToolList, FirstOccurrences,
         ProvidingNodes, Nodes, GroupedComponent, NativeComponent, ComponentRefs, ProtocolRequest, ListsLegacySuite;
    var d, g := DocumentOf(casing, scan, reproducible), GraphOf(casing, scan);
    VersionIsListed(scan.evidence[i]);
    var c := ProtocolRequest(casing, VersionOf(scan.evidence[i]), scan.evidence).component;
    VersionIsPut(casing, scan, i);
    var k :| 0 <= k < |g.components| && g.components[k] == c;
    assert d.components[k] == GroupedComponent(casing, scan.evidence, NativeComponent(c));
    SuiteIsReferenced(casing, scan.evidence, i);
    assert AlgorithmRef(casing, scan.evidence[i].cipherSuite.value) in CryptoRefs(d.components);
  }

  lemma VersionIsListed(e: Evidence)
    requires ListsLegacySuite(e)
    ensures NamesVersion(e) && e.cipherSuite.Some?
  {
  }

  lemma VersionIsPut(casing: Casing, scan: Scan, i: nat)
    requires i < |scan.evidence| && NamesVersion(scan.evidence[i])
    ensures ProtocolRequest(casing, VersionOf(scan.evidence[i]), scan.evidence).component in GraphOf(casing, scan).components
  {
    hide GraphOf, AssetsBefore, Handshakes, LeafRequests, Versions, ProtocolSuites, AllRequested, RefSet, PositiveVersions;
    var evidence, v := scan.evidence, VersionOf(scan.evidence[i]);
    VersionsOf(evidence);
    assert v in Versions(evidence);
    var j :| 0 <= j < |Versions(evidence)| && Versions(evidence)[j] == v;
    GraphHolds(casing, scan);
    var a, p := AssetsBefore(casing, evidence), ProtocolRequests(casing, Versions(evidence), evidence);
    var rs := Requests(casing, evidence);
    assert rs == a + p + Handshakes(casing, evidence) + LeafRequests(casing, evidence);
    assert rs[|a| + j] == p[j] == ProtocolRequest(casing, v, evidence);
  }

  lemma NoGroupsOfUnnamed(casing: Casing, evidence: seq<Evidence>, version: string, name: string)
    requires name != "" && !IsNamed(casing, evidence, name)
    ensures GroupNames(evidence, version, name) == []
  {
    hide NamedByCertificate, NamedBySignature, NamedByWallet;
    assert forall j :: 0 <= j < |evidence| ==> !NamesAsset(evidence[j], name);
    assert forall j :: 0 <= j < |evidence| && IsGroupEvidence(evidence[j], version, name) ==> NamesAsset(evidence[j], name);
    var found := GroupNames(evidence, version, name);
    assert forall n :: n !in found;
    HasElement(found);
  }

  /** The patched protocol version still references the suite, unless evidence of a negotiation names it. */
  lemma SuiteIsReferenced(casing: Casing, evidence: seq<Evidence>, i: nat)
    requires i < |evidence| && ListsLegacySuite(evidence[i])
    requires !IsNamed(casing, evidence, evidence[i].cipherSuite.value)
    ensures AlgorithmRef(casing, evidence[i].cipherSuite.value)
      in ComponentRefs(GroupedComponent(casing, evidence,
           NativeComponent(ProtocolRequest(casing, VersionOf(evidence[i]), evidence).component)))
  {
    hide AlgorithmRef, ProtocolRef, SortedNames, SuitesOf, GroupsOf, SelectedNames, GroupNames, IsNamed;
    var e, v := evidence[i], VersionOf(evidence[i]);
    var name := e.cipherSuite.value;
    var names := SortedNames(SuitesOf(v, evidence));
    SortedNamesOf(SuitesOf(v, evidence));
    assert NamesSuite(e, v);
    assert name in SuitesOf(v, evidence);
    var k :| 0 <= k < |names| && names[k] == name;
    var suites := ProtocolSuites(casing, v, evidence);
    assert suites[k] == SuiteOf(casing, v, name, evidence);
    SortedNamesOf(GroupNames(evidence, v.version, name));
    NoGroupsOfUnnamed(casing, evidence, v.version, name);
    assert GroupedSuite(casing, evidence, v.version, suites[k]) == suites[k];
    var c := ProtocolRequest(casing, v, evidence).component;
    var patched := GroupedComponent(casing, evidence, NativeComponent(c));
    assert patched.asset.suites[k] == suites[k];
    assert AlgorithmRef(casing, name) in patched.asset.suites[k].algorithms;
  }

  /** Nothing dangles exactly when every listed legacy suite is named. */
  lemma ReferencedIff(casing: Casing, scan: Scan, reproducible: bool)
    requires CasesAscii(casing)
    ensures var d := DocumentOf(casing, scan, reproducible);
      (forall r :: r in ReferencedRefs(d) ==> r in GraphRefs(d)) <==> LegacySuitesNamed(casing, scan.evidence)
  {
    hide CasesAscii, ReferencedRefs, GraphRefs, IsNamed, AlgorithmRef, DocumentOf, ListsLegacySuite;
    var d := DocumentOf(casing, scan, reproducible);
    if LegacySuitesNamed(casing, scan.evidence) {
      forall r | r in ReferencedRefs(d)
        ensures r in GraphRefs(d)
      {
        AllResolve(casing, scan, reproducible, r);
      }
    } else {
      var i := UnnamedSuite(casing, scan.evidence);
      UnnamedSuiteDangles(casing, scan, reproducible, i);
    }
  }

  lemma UnnamedSuite(casing: Casing, evidence: seq<Evidence>) returns (i: nat)
    requires !LegacySuitesNamed(casing, evidence)
    ensures i < |evidence| && ListsLegacySuite(evidence[i])
    ensures forall n :: IsNamed(casing, evidence, n) ==>
      AlgorithmRef(casing, n) != AlgorithmRef(casing, evidence[i].cipherSuite.value)
  {
    hide IsNamed, AlgorithmRef;
    i :| 0 <= i < |evidence| && ListsLegacySuite(evidence[i])
         && !exists n :: IsNamed(casing, evidence, n)
                         && AlgorithmRef(casing, n) == AlgorithmRef(casing, evidence[i].cipherSuite.value);
  }

  /** The builder satisfies its validator exactly when tools are distinct, protocol versions stay
      distinct in lower case, every listed legacy suite is named by some evidence, and no text of the
      document looks like a secret. */
  lemma BuilderSatisfiesValidator(casing: Casing, scan: Scan, reproducible: bool, secret: bool)
    requires CasesAscii(casing)
    ensures Validate(DocumentOf(casing, scan, reproducible), secret) == None <==>
      && DistinctTools(scan, reproducible) && DistinctProtocols(casing, scan.evidence)
      && LegacySuitesNamed(casing, scan.evidence) && !secret
  {
    hide CasesAscii, DeclaredRefs, ReferencedRefs, GraphRefs, Validate, DistinctTools, DistinctProtocols, IsAutoRef,
         NoDuplicates, LegacySuitesNamed;
    ValidIff(DocumentOf(casing, scan, reproducible), secret);
    DeclaredIff(casing, scan, reproducible);
    ReferencedIff(casing, scan, reproducible);
  }
}
