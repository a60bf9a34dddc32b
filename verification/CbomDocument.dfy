/** The bill-of-materials document: serialization, the patches for what the library omits, and the
    semantic validator that every document must pass. */
module CbomDocument {
  import opened Casings
  import opened Wrappers
  import opened Sequences
  import opened Sorting
  import opened Naming
  import opened ScanEvidence
  import opened Inventory
  import opened BomBuilder

  datatype DependencyNode = DependencyNode(ref: string, dependsOn: seq<string>, provided: seq<string>)

  datatype AnnotationEntry = AnnotationEntry(ref: string, subjects: seq<string>)

  datatype ToolEntry = ToolEntry(name: string, ref: string, version: Option<string>, properties: seq<(string, string)>)

  datatype Document = Document(
    specVersion: string, endpoint: string, components: seq<Component>, tools: seq<ToolEntry>,
    dependencies: seq<DependencyNode>, annotations: seq<AnnotationEntry>)

  const SPEC_VERSION: string := "1.7"

  // ----- tools -----

  function Flag(b: bool): string {
    if b then "true" else "false"
  }

  /** Host paths are left out of reproducible documents. */
  function ToolProperties(d: Dependency, reproducible: bool): (properties: seq<(string, string)>)
    ensures properties != []
  {
    match d
    case OpenSsl(_, path, _, tls13, mlkem, _) =>
      [("qureddy:collector.role", "local-probe-runtime"),
       ("qureddy:openssl.supports_tls13_groups", Flag(tls13)),
       ("qureddy:openssl.supports_x25519mlkem768", Flag(mlkem))]
      + if path.Some? && !reproducible then [("qureddy:openssl.path", path.value)] else []
    case External(_, path, _, _) =>
      [("qureddy:collector.role", "external-tool-adapter")]
      + if path.Some? && !reproducible then [("qureddy:collector.path", path.value)] else []
  }

  const QUREDDY: string := "qureddy"

  function ToolOf(d: Dependency, reproducible: bool): ToolEntry {
    ToolEntry(d.name, ToolRef(d.name), d.version, ToolProperties(d, reproducible))
  }

  /** The collection tools: QuReddy itself, then every dependency that did not fail. */
  function ToolList(scan: Scan, reproducible: bool): seq<ToolEntry> {
    [ToolEntry(QUREDDY, ToolRef(QUREDDY), Some(scan.version), [])] + DependencyTools(scan.dependencies, reproducible)
  }

  function DependencyTools(dependencies: seq<Dependency>, reproducible: bool): (tools: seq<ToolEntry>)
    ensures forall t :: t in tools <==>
      exists i :: 0 <= i < |dependencies| && !dependencies[i].failed && t == ToolOf(dependencies[i], reproducible)
  {
    if dependencies == [] then []
    else
      var init, last := dependencies[..|dependencies| - 1], dependencies[|dependencies| - 1];
      assert dependencies == init + [last];
      DependencyTools(init, reproducible) + if last.failed then [] else [ToolOf(last, reproducible)]
  }

  // ----- the patches -----

  /** `relatedCryptographicAssets` repeats the certificate's references. */
  function NativeComponent(c: Component): Component {
    match c.asset
    case CertificateAsset(signature, key, _) =>
      var related := OptionalRef(signature) + OptionalRef(key);
      if related == [] then c else c.(asset := c.asset.(related := related))
    case _ => c
  }

  predicate IsGroupEvidence(e: Evidence, version: string, suite: string) {
    Positive(e.observation) && e.kind == TLS_NEGOTIATION && e.protocol == "tls"
    && e.protocolVersion == Some(version) && e.cipherSuite == Some(suite) && e.negotiatedGroup.Some?
  }

  function GroupNames(evidence: seq<Evidence>, version: string, suite: string): (names: seq<string>)
    ensures forall n :: n in names <==>
      exists i :: 0 <= i < |evidence| && IsGroupEvidence(evidence[i], version, suite) && evidence[i].negotiatedGroup == Some(n)
  {
    if evidence == [] then []
    else
      var init, last := evidence[..|evidence| - 1], evidence[|evidence| - 1];
      assert evidence == init + [last];
      GroupNames(init, version, suite)
      + if IsGroupEvidence(last, version, suite) then [last.negotiatedGroup.value] else []
  }

  /** The named groups negotiated with a suite of a TLS version. */
  function TlsGroups(evidence: seq<Evidence>, version: string, suite: string): seq<string> {
    SortedNames(GroupNames(evidence, version, suite))
  }

  function Without(refs: seq<string>, dropped: seq<string>): (kept: seq<string>)
    ensures forall r :: r in kept <==> r in refs && r !in dropped
  {
    if refs == [] then []
    else (if refs[0] in dropped then [] else [refs[0]]) + Without(refs[1..], dropped)
  }

  /** Groups move from the algorithms of a suite to its native field. */
  function GroupedSuite(casing: Casing, evidence: seq<Evidence>, version: string, s: Suite): Suite {
    var groups := TlsGroups(evidence, version, s.name);
    if groups == [] then s
    else Suite(s.name, Without(s.algorithms, AlgorithmRefs(casing, groups)), groups)
  }

  function GroupedSuites(casing: Casing, evidence: seq<Evidence>, version: string, suites: seq<Suite>): (r: seq<Suite>)
    ensures |r| == |suites|
  {
    seq(|suites|, i requires 0 <= i < |suites| => GroupedSuite(casing, evidence, version, suites[i]))
  }

  function GroupedComponent(casing: Casing, evidence: seq<Evidence>, c: Component): Component {
    if c.asset.ProtocolAsset? && c.asset.protocol == "tls"
    then c.(asset := c.asset.(suites := GroupedSuites(casing, evidence, c.name, c.asset.suites)))
    else c
  }

  function NativeComponents(components: seq<Component>): (r: seq<Component>)
    ensures |r| == |components|
  {
    seq(|components|, i requires 0 <= i < |components| => NativeComponent(components[i]))
  }

  function GroupedComponents(casing: Casing, evidence: seq<Evidence>, components: seq<Component>): (r: seq<Component>)
    ensures |r| == |components|
  {
    seq(|components|, i requires 0 <= i < |components| => GroupedComponent(casing, evidence, components[i]))
  }

  /** What the library writes: a node for the endpoint and for each component. */
  function Nodes(refs: seq<string>): (nodes: seq<DependencyNode>)
    ensures |nodes| == |refs|
  {
    seq(|refs|, i requires 0 <= i < |refs| => DependencyNode(refs[i], [], []))
  }

  function ProvidingNode(node: DependencyNode, provided: seq<string>): DependencyNode {
    if node.ref == ENDPOINT && provided != [] then node.(provided := SortedNames(provided)) else node
  }

  function ProvidingNodes(nodes: seq<DependencyNode>, provided: seq<string>): (r: seq<DependencyNode>)
    ensures |r| == |nodes|
  {
    seq(|nodes|, i requires 0 <= i < |nodes| => ProvidingNode(nodes[i], provided))
  }

  // ----- annotations -----

  /** The asset a finding is about. */
  function SubjectOf(casing: Casing, f: Finding): string {
    if Truthy(f.negotiatedGroup) then AlgorithmRef(casing, f.negotiatedGroup.value)
    else if Truthy(f.algorithm) then AlgorithmRef(casing, f.algorithm.value)
    else if Truthy(f.protocolVersion) then ProtocolRef(casing, f.protocol, f.protocolVersion.value)
    else ENDPOINT
  }

  function Annotations(casing: Casing, findings: seq<Finding>): (r: seq<AnnotationEntry>)
    ensures |r| == |findings|
  {
    seq(|findings|, i requires 0 <= i < |findings| =>
      AnnotationEntry(AnnotationRef(i, findings[i].rule), [SubjectOf(casing, findings[i])]))
  }

  function Anchored(refs: seq<string>, annotation: AnnotationEntry): AnnotationEntry {
    annotation.(subjects := seq(|annotation.subjects|, i requires 0 <= i < |annotation.subjects| =>
      if annotation.subjects[i] == ENDPOINT || annotation.subjects[i] in refs then annotation.subjects[i] else ENDPOINT))
  }

  function AnchoredAll(refs: seq<string>, annotations: seq<AnnotationEntry>): (r: seq<AnnotationEntry>)
    ensures |r| == |annotations|
  {
    seq(|annotations|, i requires 0 <= i < |annotations| => Anchored(refs, annotations[i]))
  }

  // ----- the whole document -----

  function GraphOf(casing: Casing, scan: Scan): Graph {
    PutAll(EMPTY, Requests(casing, scan.evidence))
  }

  function DocumentOf(casing: Casing, scan: Scan, reproducible: bool): Document {
    var g := GraphOf(casing, scan);
    var components := GroupedComponents(casing, scan.evidence, NativeComponents(g.components));
    Document(
      SPEC_VERSION, ENDPOINT, components, FirstOccurrences(ToolList(scan, reproducible)),
      ProvidingNodes(Nodes([ENDPOINT] + Refs(g.components)), g.provided),
      AnchoredAll(Refs(components), Annotations(casing, scan.findings)))
  }

  // ----- the validator -----

  datatype Fault = WrongSpecVersion | DuplicateRef | AutoRef | DanglingRef | SecretLike

  function ToolRefs(tools: seq<ToolEntry>): (refs: seq<string>)
    ensures |refs| == |tools|
  {
    seq(|tools|, i requires 0 <= i < |tools| => tools[i].ref)
  }

  function AnnotationRefs(annotations: seq<AnnotationEntry>): (refs: seq<string>)
    ensures |refs| == |annotations|
  {
    seq(|annotations|, i requires 0 <= i < |annotations| => annotations[i].ref)
  }

  function GraphRefs(d: Document): seq<string> {
    [d.endpoint] + Refs(d.components)
  }

  function DeclaredRefs(d: Document): seq<string> {
    GraphRefs(d) + ToolRefs(d.tools) + AnnotationRefs(d.annotations)
  }

  function NodeRefs(nodes: seq<DependencyNode>): (refs: seq<string>)
    ensures forall r :: r in refs <==>
      exists i :: 0 <= i < |nodes| && (r == nodes[i].ref || r in nodes[i].dependsOn || r in nodes[i].provided)
  {
    if nodes == [] then []
    else
      assert nodes == [nodes[0]] + nodes[1..];
      [nodes[0].ref] + nodes[0].dependsOn + nodes[0].provided + NodeRefs(nodes[1..])
  }

  function SuiteRefs(suites: seq<Suite>): (refs: seq<string>)
    ensures forall r :: r in refs <==> exists i :: 0 <= i < |suites| && r in suites[i].algorithms
  {
    if suites == [] then []
    else
      assert suites == [suites[0]] + suites[1..];
      suites[0].algorithms + SuiteRefs(suites[1..])
  }

  function OptionalRef(ref: Option<string>): seq<string> {
    if ref.Some? then [ref.value] else []
  }

  /** The references one component makes. */
  function ComponentRefs(c: Component): seq<string> {
    match c.asset
    case AlgorithmAsset(_) => []
    case ProtocolAsset(_, suites) => SuiteRefs(suites)
    case CertificateAsset(signature, key, related) => OptionalRef(signature) + OptionalRef(key) + related
    case MaterialAsset(algorithmRef, _, _) => [algorithmRef]
  }

  function CryptoRefs(components: seq<Component>): (refs: seq<string>)
    ensures forall r :: r in refs <==> exists i :: 0 <= i < |components| && r in ComponentRefs(components[i])
  {
    if components == [] then []
    else
      assert components == [components[0]] + components[1..];
      ComponentRefs(components[0]) + CryptoRefs(components[1..])
  }

  function SubjectRefs(annotations: seq<AnnotationEntry>): (refs: seq<string>)
    ensures forall r :: r in refs <==> exists i :: 0 <= i < |annotations| && r in annotations[i].subjects
  {
    if annotations == [] then []
    else
      assert annotations == [annotations[0]] + annotations[1..];
      annotations[0].subjects + SubjectRefs(annotations[1..])
  }

  function ReferencedRefs(d: Document): seq<string> {
    NodeRefs(d.dependencies) + CryptoRefs(d.components) + SubjectRefs(d.annotations)
  }

  function DuplicateRefs(declared: seq<string>): set<string> {
    set r | r in declared && multiset(declared)[r] > 1
  }

  function AutoRefs(declared: seq<string>): set<string> {
    set r | r in declared && IsAutoRef(r)
  }

  function DanglingRefs(d: Document): set<string> {
    set r | r in ReferencedRefs(d) && r !in GraphRefs(d)
  }

  /** `validate_cbom_semantics`: the first fault found, if any. `secret` is the answer of the last test,
      a pattern search over the text of the whole document. */
  function Validate(d: Document, secret: bool): Option<Fault> {
    if d.specVersion != SPEC_VERSION then Some(WrongSpecVersion)
    else if DuplicateRefs(DeclaredRefs(d)) != {} then Some(DuplicateRef)
    else if AutoRefs(DeclaredRefs(d)) != {} then Some(AutoRef)
    else if DanglingRefs(d) != {} then Some(DanglingRef)
    else if secret then Some(SecretLike)
    else None
  }

  /** A document without fault declares nothing twice, resolves everything it references and shows no secret. */
  lemma ValidIff(d: Document, secret: bool)
    ensures Validate(d, secret) == None <==>
      && d.specVersion == SPEC_VERSION
      && NoDuplicates(DeclaredRefs(d)) && (forall r :: r in DeclaredRefs(d) ==> !IsAutoRef(r))
      && (forall r :: r in ReferencedRefs(d) ==> r in GraphRefs(d)) && !secret
  {
    hide DeclaredRefs, ReferencedRefs, GraphRefs, IsAutoRef;
    var declared := DeclaredRefs(d);
    if NoDuplicates(declared) {
      CountsOfDistinct(declared);
      assert DuplicateRefs(declared) == {};
    } else if DuplicateRefs(declared) == {} {
      NoneRepeated(declared);
    }
    if Validate(d, secret) == None {
      assert forall r :: r in declared ==> r !in AutoRefs(declared);
      assert forall r :: r in ReferencedRefs(d) ==> r !in DanglingRefs(d);
    }
    if forall r :: r in declared ==> !IsAutoRef(r) {
      assert AutoRefs(declared) == {};
    }
    if forall r :: r in ReferencedRefs(d) ==> r in GraphRefs(d) {
      assert DanglingRefs(d) == {};
    }
  }

  /** The first fault in the order of the tests. */
  lemma FirstFault(d: Document, secret: bool)
    ensures Validate(d, secret) == Some(WrongSpecVersion) <==> d.specVersion != "1.7"
    ensures Validate(d, secret) == Some(DuplicateRef) <==> d.specVersion == "1.7" && !NoDuplicates(DeclaredRefs(d))
    ensures Validate(d, secret) == Some(AutoRef) <==>
      d.specVersion == "1.7" && NoDuplicates(DeclaredRefs(d)) && exists r :: r in DeclaredRefs(d) && IsAutoRef(r)
    ensures Validate(d, secret) == Some(DanglingRef) <==>
      && d.specVersion == "1.7" && NoDuplicates(DeclaredRefs(d)) && (forall r :: r in DeclaredRefs(d) ==> !IsAutoRef(r))
      && exists r :: r in ReferencedRefs(d) && r !in GraphRefs(d)
    ensures Validate(d, secret) == Some(SecretLike) ==> secret
  {
    hide DeclaredRefs, ReferencedRefs, GraphRefs, IsAutoRef, NoDuplicates;
    var declared := DeclaredRefs(d);
    DuplicatesAre(declared);
    assert AutoRefs(declared) != {} <==> exists r :: r in declared && IsAutoRef(r) by {
      assert forall r :: r in AutoRefs(declared) <==> r in declared && IsAutoRef(r);
    }
    assert DanglingRefs(d) != {} <==> exists r :: r in ReferencedRefs(d) && r !in GraphRefs(d) by {
      assert forall r :: r in DanglingRefs(d) <==> r in ReferencedRefs(d) && r !in GraphRefs(d);
    }
  }

  lemma DuplicatesAre(declared: seq<string>)
    ensures DuplicateRefs(declared) == {} <==> NoDuplicates(declared)
  {
    if NoDuplicates(declared) {
      CountsOfDistinct(declared);
    } else if DuplicateRefs(declared) == {} {
      NoneRepeated(declared);
    }
  }

  /** Everything a document references: nodes and their edges, the algorithms of suites, what certificates and
      key material point at, and the subjects of annotations. */
  lemma ReferencesAre(d: Document, r: string)
    ensures r in ReferencedRefs(d) <==>
      || (exists i :: 0 <= i < |d.dependencies| &&
            (r == d.dependencies[i].ref || r in d.dependencies[i].dependsOn || r in d.dependencies[i].provided))
      || (exists i :: 0 <= i < |d.components| && PointsAt(d.components[i], r))
      || (exists i :: 0 <= i < |d.annotations| && r in d.annotations[i].subjects)
  {
    hide ComponentRefs;
    forall i | 0 <= i < |d.components|
      ensures r in ComponentRefs(d.components[i]) <==> PointsAt(d.components[i], r)
    {
      PointersAre(d.components[i], r);
    }
  }

  ghost predicate PointsAt(c: Component, r: string) {
    || (c.asset.ProtocolAsset? && exists k :: 0 <= k < |c.asset.suites| && r in c.asset.suites[k].algorithms)
    || (c.asset.CertificateAsset? && (c.asset.signatureRef == Some(r) || c.asset.keyRef == Some(r) || r in c.asset.related))
    || (c.asset.MaterialAsset? && c.asset.algorithmRef == r)
  }

  lemma PointersAre(c: Component, r: string)
    ensures r in ComponentRefs(c) <==> PointsAt(c, r)
  {
  }

  /** Everything a document declares: its endpoint, its components, its tools and its annotations. */
  lemma DeclarationsAre(d: Document, r: string)
    ensures r in GraphRefs(d) <==> r == d.endpoint || exists i :: 0 <= i < |d.components| && d.components[i].ref == r
    ensures r in DeclaredRefs(d) <==>
      || r in GraphRefs(d)
      || (exists i :: 0 <= i < |d.tools| && d.tools[i].ref == r)
      || (exists i :: 0 <= i < |d.annotations| && d.annotations[i].ref == r)
    ensures |DeclaredRefs(d)| == 1 + |d.components| + |d.tools| + |d.annotations|
  {
    assert forall i :: 0 <= i < |d.components| ==> Refs(d.components)[i] == d.components[i].ref;
    assert forall i :: 0 <= i < |d.tools| ==> ToolRefs(d.tools)[i] == d.tools[i].ref;
    assert forall i :: 0 <= i < |d.annotations| ==> AnnotationRefs(d.annotations)[i] == d.annotations[i].ref;
  }

  lemma NoneRepeated(declared: seq<string>)
    requires DuplicateRefs(declared) == {}
    ensures NoDuplicates(declared)
  {
    forall r
      ensures multiset(declared)[r] <= 1
    {
      assert r in declared ==> r !in DuplicateRefs(declared);
      assert r !in declared ==> r !in multiset(declared);
    }
    DistinctFromCounts(declared);
  }

  // ----- building -----

  datatype BuildError = TooManyCertificates | Invalid(fault: Fault)

  /** The document while it is patched in place. */
  class Payload {
    const casing: Casing
    var components: seq<Component>
    var dependencies: seq<DependencyNode>
    var annotations: seq<AnnotationEntry>

    /** The library's serialization of the graph. */
    constructor (casing: Casing, serialized: seq<Component>)
      ensures this.casing == casing && components == serialized
      ensures dependencies == Nodes([ENDPOINT] + Refs(serialized)) && annotations == []
    {
      this.casing := casing;
      components := serialized;
      dependencies := Nodes([ENDPOINT] + Refs(serialized));
      annotations := [];
    }

    /** `_patch_provides_edges`. */
    method PatchProvidesEdges(provided: seq<string>)
      modifies this`dependencies
      ensures dependencies == ProvidingNodes(old(dependencies), provided)
    {
      for i := 0 to |dependencies|
        invariant |dependencies| == |old(dependencies)|
        invariant forall k :: 0 <= k < i ==> dependencies[k] == ProvidingNode(old(dependencies)[k], provided)
        invariant forall k :: i <= k < |dependencies| ==> dependencies[k] == old(dependencies)[k]
      {
        var node := dependencies[i];
        if node.ref == ENDPOINT && provided != [] {
          dependencies := dependencies[i := node.(provided := SortedNames(provided))];
        }
      }
    }

    /** `_patch_native_crypto_fields`. */
    method PatchNativeCryptoFields()
      modifies this`components
      ensures components == NativeComponents(old(components))
    {
      for i := 0 to |components|
        invariant |components| == |old(components)|
        invariant forall k :: 0 <= k < i ==> components[k] == NativeComponent(old(components)[k])
        invariant forall k :: i <= k < |components| ==> components[k] == old(components)[k]
      {
        var c := components[i];
        if c.asset.CertificateAsset? {
          var related := [];
          if c.asset.signatureRef.Some? {
            related := related + [c.asset.signatureRef.value];
          }
          if c.asset.keyRef.Some? {
            related := related + [c.asset.keyRef.value];
          }
          assert related == OptionalRef(c.asset.signatureRef) + OptionalRef(c.asset.keyRef);
          assert NativeComponent(c) == if related == [] then c else c.(asset := c.asset.(related := related));
          if related != [] {
            components := components[i := c.(asset := c.asset.(related := related))];
          }
        }
      }
    }

    /** `_patch_tls_group_fields`. */
    method PatchTlsGroupFields(evidence: seq<Evidence>)
      modifies this`components
      ensures components == GroupedComponents(casing, evidence, old(components))
    {
      hide TlsGroups, Without;
      var groups := TlsGroupsBySuite(evidence);
      for i := 0 to |components|
        invariant |components| == |old(components)|
        invariant forall k :: 0 <= k < i ==> components[k] == GroupedComponent(casing, evidence, old(components)[k])
        invariant forall k :: i <= k < |components| ==> components[k] == old(components)[k]
      {
        var c := components[i];
        if c.asset.ProtocolAsset? && c.asset.protocol == "tls" {
          var suites := PatchSuites(c.name, c.asset.suites, evidence, groups);
          components := components[i := c.(asset := c.asset.(suites := suites))];
        }
      }
    }

    method PatchSuites(version: string, suites: seq<Suite>, ghost evidence: seq<Evidence>,
                       groups: map<(string, string), seq<string>>)
      returns (patched: seq<Suite>)
      requires forall v, s :: (v, s) in groups <==> GroupNames(evidence, v, s) != []
      requires forall v, s :: (v, s) in groups ==> groups[(v, s)] == TlsGroups(evidence, v, s)
      ensures patched == GroupedSuites(casing, evidence, version, suites)
    {
      hide GroupNames, Without, AlgorithmRefs, SortedNames;
      patched := suites;
      for i := 0 to |suites|
        invariant |patched| == |suites|
        invariant forall k :: 0 <= k < i ==> patched[k] == GroupedSuite(casing, evidence, version, suites[k])
        invariant forall k :: i <= k < |suites| ==> patched[k] == suites[k]
      {
        var s := suites[i];
        SortedNamesOf(GroupNames(evidence, version, s.name));
        if (version, s.name) in groups {
          var named := groups[(version, s.name)];
          patched := patched[i := Suite(s.name, Without(s.algorithms, AlgorithmRefs(casing, named)), named)];
        }
      }
    }

    /** `_reanchor_annotations`: no subject is left without a component. */
    method AttachFindings(findings: seq<Finding>)
      requires annotations == []
      modifies this`annotations
      ensures annotations == AnchoredAll(Refs(components), Annotations(casing, findings))
    {
      var built := Annotations(casing, findings);
      if built != [] {
        annotations := AnchoredAll(Refs(components), built);
      }
    }
  }

  /** `_tls_groups_by_suite`. */
  method TlsGroupsBySuite(evidence: seq<Evidence>) returns (r: map<(string, string), seq<string>>)
    ensures forall v, s :: (v, s) in r <==> GroupNames(evidence, v, s) != []
    ensures forall v, s :: (v, s) in r ==> r[(v, s)] == TlsGroups(evidence, v, s)
  {
    hide FirstOccurrences, Sort, GroupNames;
    NoGroupNames();
    assert evidence[..0] == [];
    var grouped: map<(string, string), seq<string>> := map[];
    for i := 0 to |evidence|
      invariant forall v, s :: (v, s) in grouped <==> GroupNames(evidence[..i], v, s) != []
      invariant forall v, s :: (v, s) in grouped ==> grouped[(v, s)] == FirstOccurrences(GroupNames(evidence[..i], v, s))
    {
      var e := evidence[i];
      GroupNamesNext(evidence, i);
      EmptyHasNoFirst();
      if Positive(e.observation) && e.kind == TLS_NEGOTIATION && e.protocol == "tls"
         && e.protocolVersion.Some? && e.cipherSuite.Some? && e.negotiatedGroup.Some? {
        var key, group := (e.protocolVersion.value, e.cipherSuite.value), e.negotiatedGroup.value;
        var seen := if key in grouped then grouped[key] else [];
        NextName(GroupNames(evidence[..i], key.0, key.1), group);
        grouped := grouped[key := if group in seen then seen else seen + [group]];
      }
    }
    assert evidence[..|evidence|] == evidence;
    r := map k | k in grouped :: Sort(BY_TEXT, grouped[k]);
  }

  lemma NoGroupNames()
    ensures forall version, suite :: GroupNames([], version, suite) == []
  {
  }

  lemma GroupNamesNext(evidence: seq<Evidence>, i: nat)
    requires i < |evidence|
    ensures forall version, suite ::
      && (IsGroupEvidence(evidence[i], version, suite) ==>
            GroupNames(evidence[..i + 1], version, suite)
              == GroupNames(evidence[..i], version, suite) + [evidence[i].negotiatedGroup.value])
      && (!IsGroupEvidence(evidence[i], version, suite) ==>
            GroupNames(evidence[..i + 1], version, suite) == GroupNames(evidence[..i], version, suite))
  {
    assert evidence[..i + 1][..i] == evidence[..i];
  }

  lemma EmptyHasNoFirst()
    ensures FirstOccurrences<string>([]) == []
  {
  }

  /** `build_cbom_payload`: the document of the scan if it is valid, else why not. */
  method BuildPayload(casing: Casing, scan: Scan, reproducible: bool, secret: bool)
    returns (r: Result<Document, BuildError>)
    ensures |Certificates(scan.evidence)| > 1 ==> r == Err(TooManyCertificates)
    ensures |Certificates(scan.evidence)| <= 1 ==>
      var d := DocumentOf(casing, scan, reproducible);
      r == if Validate(d, secret) == None then Ok(d) else Err(Invalid(Validate(d, secret).value))
  {
    hide Validate, Requests, PutAll, ProvidingNodes, Nodes, NativeComponents, GroupedComponents, AnchoredAll,
         Annotations, FirstOccurrences, Certificates;
    var bom := new Bom(casing);
    var tools := FirstOccurrences(ToolList(scan, reproducible));
    var added := bom.AddObservedComponents(scan.evidence);
    if added.Err? {
      return Err(TooManyCertificates);
    }
    var payload := new Payload(casing, bom.components);
    payload.PatchProvidesEdges(bom.provided);
    payload.PatchNativeCryptoFields();
    payload.PatchTlsGroupFields(scan.evidence);
    payload.AttachFindings(scan.findings);
    var d := Document(SPEC_VERSION, ENDPOINT, payload.components, tools, payload.dependencies, payload.annotations);
    var fault := Validate(d, secret);
    if fault.Some? {
      return Err(Invalid(fault.value));
    }
    return Ok(d);
  }
}
