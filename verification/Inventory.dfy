/** The component graph of a bill of materials: what the emitters ask for, and what putting it into
    the document gives. */
module Inventory {
  import opened Casings
  import opened Wrappers
  import opened Sequences
  import opened Sorting
  import opened Naming
  import opened ScanEvidence

  datatype Suite = Suite(name: string, algorithms: seq<string>, groups: seq<string>)

  datatype Asset =
    | AlgorithmAsset(observation: Option<Observation>)
    | ProtocolAsset(protocol: string, suites: seq<Suite>)
    | CertificateAsset(signatureRef: Option<string>, keyRef: Option<string>, related: seq<string>)
    | MaterialAsset(algorithmRef: string, size: Option<nat>, value: Option<string>)

  datatype Component = Component(ref: string, name: string, asset: Asset)

  /** The components and the references the endpoint provides. */
  datatype Graph = Graph(components: seq<Component>, provided: seq<string>)

  const EMPTY: Graph := Graph([], [])

  function Refs(components: seq<Component>): (refs: seq<string>)
    ensures |refs| == |components|
  {
    seq(|components|, i requires 0 <= i < |components| => components[i].ref)
  }

  /** A component an emitter asks for; a guarded one gives way to an earlier one with its reference. */
  datatype Request = Request(component: Component, guarded: bool)

  /** Components form a set: one equal to an earlier one is no addition. */
  function Put(g: Graph, r: Request): Graph {
    var c := r.component;
    if r.guarded && c.ref in Refs(g.components) then g
    else Graph(if c in g.components then g.components else g.components + [c], g.provided + [c.ref])
  }

  function PutAll(g: Graph, rs: seq<Request>): Graph {
    if rs == [] then g else Put(PutAll(g, rs[..|rs| - 1]), rs[|rs| - 1])
  }

  lemma {:induction false} PutAllConcat(g: Graph, a: seq<Request>, b: seq<Request>)
    ensures PutAll(g, a + b) == PutAll(PutAll(g, a), b)
  {
    hide Put;
    if b == [] {
      assert a + b == a;
    } else {
      var init, last := b[..|b| - 1], b[|b| - 1];
      assert (a + b)[..|a + b| - 1] == a + init && (a + b)[|a + b| - 1] == last;
      PutAllConcat(g, a, init);
    }
  }

  // ----- requests -----

  function AlgorithmRequest(casing: Casing, name: string, observation: Option<Observation>): Request {
    Request(Component(AlgorithmRef(casing, name), name, AlgorithmAsset(observation)), true)
  }

  function ObservationOf(emitter: Emitter, evidence: seq<Evidence>, name: string): Observation {
    var strongest := Strongest(emitter, evidence);
    if name in strongest then strongest[name] else Observed
  }

  /** One algorithm per selected name, in sorted order, with its strongest observation. */
  function AssetRequests(casing: Casing, emitter: Emitter, evidence: seq<Evidence>): seq<Request> {
    var names := SortedNames(SelectedNames(emitter, evidence));
    NamedRequests(casing, emitter, evidence, names)
  }

  function NamedRequests(casing: Casing, emitter: Emitter, evidence: seq<Evidence>, names: seq<string>)
    : (rs: seq<Request>)
    ensures |rs| == |names|
  {
    seq(|names|, i requires 0 <= i < |names| =>
      AlgorithmRequest(casing, names[i], Some(ObservationOf(emitter, evidence, names[i]))))
  }

  function KeyRequests(casing: Casing, algorithm: Option<string>, bits: Option<nat>, curve: Option<string>)
    : (rs: seq<Request>)
  {
    var name := PublicKeyName(casing, algorithm, bits, curve);
    if name.None? then [] else [AlgorithmRequest(casing, name.value, None)]
  }

  function WalletMaterial(casing: Casing, key: string): Request {
    Request(Component(WalletKeyRef(key), "Account public key (" + CURVE + ")",
                      MaterialAsset(AlgorithmRef(casing, "EC-" + CURVE), Some(256), Some(key))), true)
  }

  function WalletMaterials(casing: Casing, keys: seq<string>): (rs: seq<Request>)
    ensures |rs| == |keys|
  {
    seq(|keys|, i requires 0 <= i < |keys| => WalletMaterial(casing, keys[i]))
  }

  function WalletKeyRequests(casing: Casing, evidence: seq<Evidence>): seq<Request> {
    var keys := RecoveredKeys(evidence);
    if keys == [] then []
    else KeyRequests(casing, Some(EC_ALGORITHM), Some(256), Some(CURVE)) + WalletMaterials(casing, keys)
  }

  function AlgorithmRefs(casing: Casing, names: seq<string>): (refs: seq<string>)
    ensures |refs| == |names|
  {
    seq(|names|, i requires 0 <= i < |names| => AlgorithmRef(casing, names[i]))
  }

  /** A suite of a protocol version, with its own algorithm and the groups seen with it. */
  function SuiteOf(casing: Casing, v: Version, name: string, evidence: seq<Evidence>): Suite {
    var groups := GroupsOf(v, name, SelectedNames(Groups, evidence), evidence);
    Suite(name, [AlgorithmRef(casing, name)] + SortedNames(AlgorithmRefs(casing, groups)), [])
  }

  function ProtocolSuites(casing: Casing, v: Version, evidence: seq<Evidence>): seq<Suite> {
    var names := SortedNames(SuitesOf(v, evidence));
    SuitesNamed(casing, v, names, evidence)
  }

  function SuitesNamed(casing: Casing, v: Version, names: seq<string>, evidence: seq<Evidence>): (suites: seq<Suite>)
    ensures |suites| == |names|
  {
    seq(|names|, i requires 0 <= i < |names| => SuiteOf(casing, v, names[i], evidence))
  }

  /** Protocols are added without a guard. */
  function ProtocolRequest(casing: Casing, v: Version, evidence: seq<Evidence>): Request {
    Request(Component(ProtocolRef(casing, v.protocol, v.version), v.version,
                      ProtocolAsset(v.protocol, ProtocolSuites(casing, v, evidence))), false)
  }

  function ProtocolRequests(casing: Casing, versions: seq<Version>, evidence: seq<Evidence>): (rs: seq<Request>)
    ensures |rs| == |versions|
  {
    seq(|versions|, i requires 0 <= i < |versions| => ProtocolRequest(casing, versions[i], evidence))
  }

  function SignatureRequests(casing: Casing, e: Evidence): seq<Request> {
    if e.handshakeSignature.None? then []
    else [AlgorithmRequest(casing, e.handshakeSignature.value, Some(e.observation))]
  }

  function EphemeralRequests(casing: Casing, e: Evidence, emitted: seq<string>): seq<Request> {
    if e.negotiatedGroup.None? || e.keyBits.None? || e.negotiatedGroup.value !in emitted then []
    else
      var group := e.negotiatedGroup.value;
      [Request(Component(EphemeralRef(casing, group), "TLS ephemeral public key (" + group + ")",
                         MaterialAsset(AlgorithmRef(casing, group), e.keyBits, None)), true)]
  }

  function HandshakeRequests(casing: Casing, negotiations: seq<Evidence>, emitted: seq<string>): seq<Request> {
    if negotiations == [] then []
    else
      var last := negotiations[|negotiations| - 1];
      HandshakeRequests(casing, negotiations[..|negotiations| - 1], emitted)
      + (SignatureRequests(casing, last) + EphemeralRequests(casing, last, emitted))
  }

  function SignatureRef(casing: Casing, c: Certificate): Option<string> {
    if c.signatureAlgorithm == "UNKNOWN" then None else Some(AlgorithmRef(casing, c.signatureAlgorithm))
  }

  function KeyRef(casing: Casing, c: Certificate): Option<string> {
    var name := PublicKeyName(casing, c.keyAlgorithm, c.keyBits, None);
    if name.None? then None else Some(AlgorithmRef(casing, name.value))
  }

  function LeafRequest(casing: Casing, c: Certificate): Request {
    Request(Component(LEAF, c.subject, CertificateAsset(SignatureRef(casing, c), KeyRef(casing, c), [])), false)
  }

  /** The subject key first, then the signature, then the certificate that points at both. */
  function CertificateRequests(casing: Casing, c: Certificate): seq<Request> {
    KeyRequests(casing, c.keyAlgorithm, c.keyBits, None)
    + (if c.signatureAlgorithm == "UNKNOWN" then [] else [AlgorithmRequest(casing, c.signatureAlgorithm, None)])
    + [LeafRequest(casing, c)]
  }

  /** Everything before the protocols: all of it guarded. */
  function AssetsBefore(casing: Casing, evidence: seq<Evidence>): seq<Request> {
    AssetRequests(casing, Groups, evidence)
    + AssetRequests(casing, HostKeys, evidence)
    + (AssetRequests(casing, WalletSignatures, evidence) + WalletKeyRequests(casing, evidence))
    + AssetRequests(casing, SshKex, evidence)
    + (AssetRequests(casing, SshCiphers, evidence) + AssetRequests(casing, SshMacs, evidence))
    + (AssetRequests(casing, IkeCiphers, evidence) + AssetRequests(casing, IkeMacs, evidence)
       + AssetRequests(casing, IkeGroups, evidence))
    + AssetRequests(casing, CipherSuites, evidence)
    + AssetRequests(casing, LegacyCiphers, evidence)
  }

  function Handshakes(casing: Casing, evidence: seq<Evidence>): seq<Request> {
    HandshakeRequests(casing, Sort(BY_ID, Negotiations(evidence)), SelectedNames(Groups, evidence))
  }

  function LeafRequests(casing: Casing, evidence: seq<Evidence>): seq<Request> {
    var certificates := Certificates(evidence);
    if certificates == [] then [] else CertificateRequests(casing, certificates[0])
  }

  /** What a scan's evidence asks the document to hold, in the order of emission. */
  function Requests(casing: Casing, evidence: seq<Evidence>): seq<Request> {
    AssetsBefore(casing, evidence)
    + ProtocolRequests(casing, Versions(evidence), evidence)
    + Handshakes(casing, evidence)
    + LeafRequests(casing, evidence)
  }

  // ----- putting requests -----

  function Requested(rs: seq<Request>): set<string> {
    set i | 0 <= i < |rs| :: rs[i].component.ref
  }

  function RefSet(components: seq<Component>): set<string> {
    set i | 0 <= i < |components| :: components[i].ref
  }

  lemma RefSetIs(components: seq<Component>)
    ensures forall r :: r in RefSet(components) <==> r in Refs(components)
  {
    forall r
      ensures r in RefSet(components) <==> r in Refs(components)
    {
      if r in RefSet(components) {
        var i :| 0 <= i < |components| && components[i].ref == r;
        assert Refs(components)[i] == r;
      }
    }
  }

  /** The endpoint provides exactly the components. */
  predicate ProvidesAll(g: Graph) {
    RefSet(g.components) == set i | 0 <= i < |g.provided| :: g.provided[i]
  }

  lemma PutEffect(g: Graph, r: Request)
    ensures RefSet(Put(g, r).components) == RefSet(g.components) + {r.component.ref}
    ensures ProvidesAll(g) ==> ProvidesAll(Put(g, r))
    ensures g.components <= Put(g, r).components
    ensures !r.guarded ==> r.component in Put(g, r).components
    ensures forall c :: c in Put(g, r).components ==> c in g.components || c == r.component
  {
    var h := Put(g, r);
    RefSetIs(g.components);
    var c := r.component;
    if c in g.components {
      var i :| 0 <= i < |g.components| && g.components[i] == c;
      assert c.ref in RefSet(g.components);
    } else {
      assert (g.components + [c])[|g.components|] == c;
      assert RefSet(g.components + [c]) == RefSet(g.components) + {c.ref} by {
        forall r | r in RefSet(g.components)
          ensures r in RefSet(g.components + [c])
        {
          var i :| 0 <= i < |g.components| && g.components[i].ref == r;
          assert (g.components + [c])[i].ref == r;
        }
      }
    }
    if h != g {
      var before, after := g.provided, h.provided;
      assert (set i | 0 <= i < |after| :: after[i]) == (set i | 0 <= i < |before| :: before[i]) + {c.ref} by {
        assert after[|before|] == c.ref;
        assert forall i :: 0 <= i < |before| ==> after[i] == before[i];
      }
    }
  }

  /** The document holds a component under every requested reference, and nothing that was not asked for. */
  lemma {:induction false} PutAllEffect(g: Graph, rs: seq<Request>)
    ensures RefSet(PutAll(g, rs).components) == RefSet(g.components) + Requested(rs)
    ensures ProvidesAll(g) ==> ProvidesAll(PutAll(g, rs))
    ensures g.components <= PutAll(g, rs).components
    ensures forall i :: 0 <= i < |rs| && !rs[i].guarded ==> rs[i].component in PutAll(g, rs).components
    ensures forall c :: c in PutAll(g, rs).components ==>
      c in g.components || exists i :: 0 <= i < |rs| && rs[i].component == c
  {
    hide Put;
    if rs == [] {
    } else {
      var init, last := rs[..|rs| - 1], rs[|rs| - 1];
      assert rs == init + [last];
      PutAllEffect(g, init);
      PutEffect(PutAll(g, init), last);
      assert Requested(rs) == Requested(init) + {last.component.ref} by {
        forall r | r in Requested(init)
          ensures r in Requested(rs)
        {
          var i :| 0 <= i < |init| && init[i].component.ref == r;
          assert rs[i].component.ref == r;
        }
        assert rs[|init|] == last;
      }
      forall c | c in PutAll(g, rs).components
        ensures c in g.components || exists i :: 0 <= i < |rs| && rs[i].component == c
      {
        if c !in g.components && c != last.component {
          var i :| 0 <= i < |init| && init[i].component == c;
          assert rs[i].component == c;
        } else if c == last.component {
          assert rs[|init|].component == c;
        }
      }
    }
  }

  lemma RequestedConcat(a: seq<Request>, b: seq<Request>)
    ensures Requested(a + b) == Requested(a) + Requested(b)
  {
    forall r
      ensures r in Requested(a + b) <==> r in Requested(a) + Requested(b)
    {
      if r in Requested(a) {
        var i :| 0 <= i < |a| && a[i].component.ref == r;
        assert (a + b)[i].component.ref == r;
      }
      if r in Requested(b) {
        var i :| 0 <= i < |b| && b[i].component.ref == r;
        assert (a + b)[|a| + i].component.ref == r;
      }
    }
  }

  // ----- repeated references -----

  predicate DistinctRefs(g: Graph) {
    NoDuplicates(Refs(g.components))
  }

  lemma PutDistinct(g: Graph, r: Request)
    ensures r.guarded || r.component.ref !in RefSet(g.components) ==> (DistinctRefs(Put(g, r)) <==> DistinctRefs(g))
    ensures !r.guarded && r.component.ref in RefSet(g.components) && r.component !in g.components
      ==> !DistinctRefs(Put(g, r))
    ensures !DistinctRefs(g) ==> !DistinctRefs(Put(g, r))
  {
    RefSetIs(g.components);
    var before, after := Refs(g.components), Refs(Put(g, r).components);
    var c := r.component;
    if after != before {
      assert after == before + [c.ref];
      assert after[|before|] == c.ref;
      if c.ref in before {
        var i :| 0 <= i < |before| && before[i] == c.ref;
        assert after[i] == after[|before|];
      }
      if !NoDuplicates(before) {
        var i, j :| 0 <= i < j < |before| && before[i] == before[j];
        assert after[i] == after[j];
      }
    }
  }

  /** Guarded requests never repeat a reference. */
  lemma {:induction false} GuardedKeepDistinct(g: Graph, rs: seq<Request>)
    requires forall i :: 0 <= i < |rs| ==> rs[i].guarded
    ensures DistinctRefs(PutAll(g, rs)) <==> DistinctRefs(g)
  {
    hide Put, DistinctRefs;
    if rs == [] {
    } else {
      var init := rs[..|rs| - 1];
      GuardedKeepDistinct(g, init);
      PutDistinct(PutAll(g, init), rs[|rs| - 1]);
    }
  }

  /** Unguarded requests that are different components, new to the graph, repeat a reference exactly
      when two of them share one. */
  lemma {:induction false} UnguardedDistinct(g: Graph, rs: seq<Request>)
    requires DistinctRefs(g)
    requires forall i :: 0 <= i < |rs| ==> !rs[i].guarded && rs[i].component.ref !in RefSet(g.components)
    requires forall i, j :: 0 <= i < j < |rs| ==> rs[i].component != rs[j].component
    ensures DistinctRefs(PutAll(g, rs))
       <==> forall i, j :: 0 <= i < j < |rs| ==> rs[i].component.ref != rs[j].component.ref
  {
    hide Put, DistinctRefs, Requested;
    if rs == [] {
    } else {
      var n := |rs| - 1;
      var init, last := rs[..n], rs[n].component;
      UnguardedDistinct(g, init);
      PutAllEffect(g, init);
      PutDistinct(PutAll(g, init), rs[n]);
      NotYetPut(g, init, last);
      LastIsNew(rs);
    }
  }

  lemma LastIsNew(rs: seq<Request>)
    requires rs != []
    ensures var n := |rs| - 1;
      (forall i, j :: 0 <= i < j < |rs| ==> rs[i].component.ref != rs[j].component.ref) <==>
        && (forall i, j :: 0 <= i < j < n ==> rs[i].component.ref != rs[j].component.ref)
        && rs[n].component.ref !in Requested(rs[..n])
  {
    var n := |rs| - 1;
    assert forall i :: 0 <= i < n ==> rs[..n][i] == rs[i];
    assert forall i :: 0 <= i < n ==> rs[i].component.ref in Requested(rs[..n]);
  }

  lemma NotYetPut(g: Graph, rs: seq<Request>, c: Component)
    requires c.ref !in RefSet(g.components)
    requires forall i :: 0 <= i < |rs| ==> rs[i].component != c
    ensures c !in PutAll(g, rs).components
  {
    PutAllEffect(g, rs);
  }
}
