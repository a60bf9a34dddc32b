/** The emitters: each adds the components its part of the evidence asks for. */
module BomBuilder {
  import opened Casings
  import opened Wrappers
  import opened Sequences
  import opened Sorting
  import opened Naming
  import opened ScanEvidence
  import opened Inventory

  datatype CbomError = ManyCertificates

  /** The algorithm references of an emitter, by name. */
  function NamedRefs(casing: Casing, names: seq<string>): map<string, string> {
    map n | n in names :: AlgorithmRef(casing, n)
  }

  class Bom {
    const casing: Casing
    var components: seq<Component>
    var provided: seq<string>

    constructor (casing: Casing)
      ensures this.casing == casing && Contents() == EMPTY
    {
      this.casing := casing;
      components, provided := [], [];
    }

    ghost function Contents(): Graph
      reads this
    {
      Graph(components, provided)
    }

    /** `add_provides_edge` after adding to the component set. */
    method Add(c: Component)
      modifies this
      ensures Contents() == Put(old(Contents()), Request(c, false))
    {
      if c !in components {
        components := components + [c];
      }
      provided := provided + [c.ref];
    }

    method HasRef(ref: string) returns (found: bool)
      ensures found <==> ref in Refs(components)
    {
      for i := 0 to |components|
        invariant forall k :: 0 <= k < i ==> components[k].ref != ref
      {
        if components[i].ref == ref {
          assert Refs(components)[i] == ref;
          return true;
        }
      }
      return false;
    }

    method AddGuarded(c: Component)
      modifies this
      ensures Contents() == Put(old(Contents()), Request(c, true))
    {
      var found := HasRef(c.ref);
      if !found {
        Add(c);
      }
    }

    /** `add_algorithm_component`: a second component with the same reference is not added. */
    method AddAlgorithmComponent(name: string, observation: Option<Observation>) returns (ref: string)
      modifies this
      ensures ref == AlgorithmRef(casing, name) && ref in Refs(components)
      ensures Contents() == PutAll(old(Contents()), [AlgorithmRequest(casing, name, observation)])
    {
      ref := AlgorithmRef(casing, name);
      OneRequest(Contents(), AlgorithmRequest(casing, name, observation));
      PutEffect(Contents(), AlgorithmRequest(casing, name, observation));
      AddGuarded(Component(ref, name, AlgorithmAsset(observation)));
      RefSetIs(components);
    }

    /** `add_public_key_material`. */
    method AddPublicKeyMaterial(ref: string, name: string, algorithmRef: string, size: Option<nat>, value: Option<string>)
      modifies this
      ensures Contents()
           == PutAll(old(Contents()), [Request(Component(ref, name, MaterialAsset(algorithmRef, size, value)), true)])
    {
      var c := Component(ref, name, MaterialAsset(algorithmRef, size, value));
      OneRequest(Contents(), Request(c, true));
      AddGuarded(c);
    }

    /** `add_public_key_component`: a key that cannot be classified adds nothing. */
    method AddPublicKeyComponent(algorithm: Option<string>, bits: Option<nat>, curve: Option<string>)
      returns (ref: Option<string>)
      modifies this
      ensures Contents() == PutAll(old(Contents()), KeyRequests(casing, algorithm, bits, curve))
      ensures ref.Some? <==> PublicKeyName(casing, algorithm, bits, curve).Some?
      ensures ref.Some? ==> ref.value == AlgorithmRef(casing, PublicKeyName(casing, algorithm, bits, curve).value)
    {
      var name := PublicKeyName(casing, algorithm, bits, curve);
      if name.None? {
        return None;
      }
      var added := AddAlgorithmComponent(name.value, None);
      return Some(added);
    }

    /** The collecting loop of `add_algorithm_assets`: the strongest observation of every name, and
        the names in the order of their first appearance. */
    method CollectStrongest(emitter: Emitter, evidence: seq<Evidence>)
      returns (strongest: map<string, Observation>, names: seq<string>)
      ensures strongest == Strongest(emitter, evidence)
      ensures names == FirstOccurrences(SelectedNames(emitter, evidence))
    {
      hide Select, Strongest, SelectedNames, FirstOccurrences;
      strongest, names := map[], [];
      NothingCollected(emitter);
      assert evidence[..0] == [];
      for i := 0 to |evidence|
        invariant strongest == Strongest(emitter, evidence[..i])
        invariant names == FirstOccurrences(SelectedNames(emitter, evidence[..i]))
      {
        CollectNext(emitter, evidence, i);
        if Positive(evidence[i].observation) {
          var name := Select(emitter, evidence[i]);
          if Truthy(name) {
            if name.value !in strongest {
              names := names + [name.value];
              strongest := strongest[name.value := evidence[i].observation];
            } else if Rank(evidence[i].observation) > Rank(strongest[name.value]) {
              strongest := strongest[name.value := evidence[i].observation];
            }
          }
        }
      }
      assert evidence[..|evidence|] == evidence;
    }

    /** `add_algorithm_assets`: collect, keep the strongest, emit in sorted order. */
    method AddAlgorithmAssets(emitter: Emitter, evidence: seq<Evidence>) returns (refs: map<string, string>)
      modifies this
      ensures Contents() == PutAll(old(Contents()), AssetRequests(casing, emitter, evidence))
      ensures refs == NamedRefs(casing, SelectedNames(emitter, evidence))
    {
      hide PutAll, AlgorithmRequest, AlgorithmRef, NamedRequests, Strongest, SelectedNames, FirstOccurrences, Sort;
      var strongest, names := CollectStrongest(emitter, evidence);
      refs := map[];
      var sorted := Sort(BY_TEXT, names);
      assert sorted == SortedNames(SelectedNames(emitter, evidence));
      AssetsAreNamed(emitter, evidence);
      ghost var start := Contents();
      NoRequests(start);
      assert sorted[..0] == [] && NamedRequests(casing, emitter, evidence, []) == [];
      for i := 0 to |sorted|
        invariant Contents() == PutAll(start, NamedRequests(casing, emitter, evidence, sorted[..i]))
        invariant refs == map n | n in sorted[..i] :: AlgorithmRef(casing, n)
      {
        var name := sorted[i];
        NamedRequestsNext(casing, emitter, evidence, sorted, i);
        PutAllConcat(start, NamedRequests(casing, emitter, evidence, sorted[..i]),
                     [AlgorithmRequest(casing, name, Some(ObservationOf(emitter, evidence, name)))]);
        assert name in strongest;
        var ref := AddAlgorithmComponent(name, Some(strongest[name]));
        refs := refs[name := ref];
        assert sorted[..i + 1] == sorted[..i] + [name];
      }
      assert sorted[..|sorted|] == sorted;
    }

    /** `add_wallet_signature_components`. */
    method AddWalletSignatureComponents(evidence: seq<Evidence>)
      modifies this
      ensures Contents() == PutAll(old(Contents()),
                AssetRequests(casing, WalletSignatures, evidence) + WalletKeyRequests(casing, evidence))
    {
      hide PutAll, AssetRequests, KeyRequests, WalletMaterial, WalletMaterials;
      ghost var start, assets := Contents(), AssetRequests(casing, WalletSignatures, evidence);
      var _ := AddAlgorithmAssets(WalletSignatures, evidence);
      PutAllConcat(start, assets, WalletKeyRequests(casing, evidence));
      var keys := RecoveredKeys(evidence);
      if keys == [] {
        NoRequests(Contents());
        return;
      }
      ghost var keyed := KeyRequests(casing, Some(EC_ALGORITHM), Some(256), Some(CURVE));
      ghost var middle := PutAll(start, assets);
      var _ := AddPublicKeyComponent(Some(EC_ALGORITHM), Some(256), Some(CURVE));
      assert WalletMaterials(casing, []) == [];
      assert keys[..0] == [] && keyed + [] == keyed;
      for i := 0 to |keys|
        invariant Contents() == PutAll(middle, keyed + WalletMaterials(casing, keys[..i]))
      {
        var key := keys[i];
        AddPublicKeyMaterial(WalletKeyRef(key), "Account public key (" + CURVE + ")",
                             AlgorithmRef(casing, "EC-" + CURVE), Some(256), Some(key));
        ghost var done := keyed + WalletMaterials(casing, keys[..i]);
        WalletMaterialIs(casing, key);
        PutAllConcat(middle, done, [WalletMaterial(casing, key)]);
        WalletMaterialsNext(casing, keys, i);
        assert keyed + (WalletMaterials(casing, keys[..i]) + [WalletMaterial(casing, key)])
            == done + [WalletMaterial(casing, key)];
      }
      assert keys[..|keys|] == keys;
    }

    /** `_protocol_cipher_suites`. */
    method CollectSuites(v: Version, evidence: seq<Evidence>, refs: map<string, string>) returns (suites: seq<Suite>)
      requires refs == NamedRefs(casing, SelectedNames(Groups, evidence))
      ensures suites == ProtocolSuites(casing, v, evidence)
    {
      hide AlgorithmRef, NamedRefs, SelectedNames, SuitesOf, GroupsOf, SortedNames;
      suites := [];
      var names := SortedNames(SuitesOf(v, evidence));
      for i := 0 to |names|
        invariant suites == SuitesNamed(casing, v, names[..i], evidence)
      {
        var suite := names[i];
        NamedRefsAre(casing, SelectedNames(Groups, evidence));
        var ref := if suite in refs then refs[suite] else AlgorithmRef(casing, suite);
        var groupRefs := RefsOfGroups(refs, GroupsOf(v, suite, SelectedNames(Groups, evidence), evidence));
        RefsOfGroupsAgree(casing, SelectedNames(Groups, evidence), GroupsOf(v, suite, SelectedNames(Groups, evidence), evidence));
        suites := suites + [Suite(suite, [ref] + SortedNames(groupRefs), [])];
        assert SuitesNamed(casing, v, names[..i + 1], evidence)
            == SuitesNamed(casing, v, names[..i], evidence) + [SuiteOf(casing, v, suite, evidence)];
      }
      assert names[..|names|] == names;
    }

    /** `add_protocol_components`. */
    method AddProtocolComponents(evidence: seq<Evidence>, refs: map<string, string>)
      requires refs == NamedRefs(casing, SelectedNames(Groups, evidence))
      modifies this
      ensures Contents() == PutAll(old(Contents()), ProtocolRequests(casing, Versions(evidence), evidence))
    {
      hide PutAll, Put, ProtocolSuites, NamedRefs, ProtocolRequests, SelectedNames;
      ghost var start := Contents();
      var versions := Versions(evidence);
      NoRequests(start);
      assert versions[..0] == [];
      assert ProtocolRequests(casing, [], evidence) == [];
      for i := 0 to |versions|
        invariant Contents() == PutAll(start, ProtocolRequests(casing, versions[..i], evidence))
      {
        var v := versions[i];
        var suites := CollectSuites(v, evidence, refs);
        ghost var done := ProtocolRequests(casing, versions[..i], evidence);
        ghost var next := ProtocolRequest(casing, v, evidence);
        OneRequest(Contents(), next);
        Add(Component(ProtocolRef(casing, v.protocol, v.version), v.version, ProtocolAsset(v.protocol, suites)));
        PutAllConcat(start, done, [next]);
        ProtocolRequestsNext(casing, versions, evidence, i);
      }
      assert versions[..|versions|] == versions;
    }

    /** `add_tls_handshake_components`. */
    method AddTlsHandshakeComponents(evidence: seq<Evidence>, refs: map<string, string>)
      requires refs == NamedRefs(casing, SelectedNames(Groups, evidence))
      modifies this
      ensures Contents() == PutAll(old(Contents()), Handshakes(casing, evidence))
    {
      hide PutAll, SignatureRequests, EphemeralRequests;
      ghost var start, emitted := Contents(), SelectedNames(Groups, evidence);
      var negotiations := Sort(BY_ID, Negotiations(evidence));
      NoRequests(start);
      for i := 0 to |negotiations|
        invariant Contents() == PutAll(start, HandshakeRequests(casing, negotiations[..i], emitted))
      {
        var e := negotiations[i];
        ghost var done := HandshakeRequests(casing, negotiations[..i], emitted);
        ghost var signed, keyed := SignatureRequests(casing, e), EphemeralRequests(casing, e, emitted);
        AddHandshakeSignature(e);
        AddEphemeralKey(e, refs, emitted);
        PutAllConcat(start, done, signed + keyed);
        PutAllConcat(PutAll(start, done), signed, keyed);
        assert negotiations[..i + 1][..i] == negotiations[..i];
        assert HandshakeRequests(casing, negotiations[..i + 1], emitted) == done + (signed + keyed);
      }
      assert negotiations[..|negotiations|] == negotiations;
    }

    method AddHandshakeSignature(e: Evidence)
      modifies this
      ensures Contents() == PutAll(old(Contents()), SignatureRequests(casing, e))
    {
      if e.handshakeSignature.Some? {
        var _ := AddAlgorithmComponent(e.handshakeSignature.value, Some(e.observation));
      }
    }

    /** The key's size is recorded, never its value. */
    method AddEphemeralKey(e: Evidence, refs: map<string, string>, ghost emitted: seq<string>)
      requires refs == NamedRefs(casing, emitted)
      modifies this
      ensures Contents() == PutAll(old(Contents()), EphemeralRequests(casing, e, emitted))
    {
      if e.negotiatedGroup.None? || e.keyBits.None? || e.negotiatedGroup.value !in refs {
        return;
      }
      var group := e.negotiatedGroup.value;
      AddPublicKeyMaterial(EphemeralRef(casing, group), "TLS ephemeral public key (" + group + ")",
                           refs[group], e.keyBits, None);
    }

    /** `add_certificate_component`. */
    method AddCertificateComponent(c: Certificate)
      modifies this
      ensures Contents() == PutAll(old(Contents()), CertificateRequests(casing, c))
    {
      hide PutAll, Put, KeyRequests, AlgorithmRequest;
      ghost var start, keyed := Contents(), KeyRequests(casing, c.keyAlgorithm, c.keyBits, None);
      ghost var signed := if c.signatureAlgorithm == "UNKNOWN" then []
                          else [AlgorithmRequest(casing, c.signatureAlgorithm, None)];
      var keyRef := AddPublicKeyComponent(c.keyAlgorithm, c.keyBits, None);
      var signatureRef := None;
      NoRequests(Contents());
      if c.signatureAlgorithm != "UNKNOWN" {
        var ref := AddAlgorithmComponent(c.signatureAlgorithm, None);
        signatureRef := Some(ref);
      }
      PutAllConcat(start, keyed, signed);
      OneRequest(Contents(), LeafRequest(casing, c));
      Add(Component(LEAF, c.subject, CertificateAsset(signatureRef, keyRef, [])));
      PutAllConcat(start, keyed + signed, [LeafRequest(casing, c)]);
    }

    /** `_add_observed_components`, in its order of emission. A second captured certificate is an error. */
    method AddObservedComponents(evidence: seq<Evidence>) returns (r: Result<(), CbomError>)
      modifies this
      ensures r.Err? <==> |Certificates(evidence)| > 1
      ensures r.Ok? ==> Contents() == PutAll(old(Contents()), Requests(casing, evidence))
    {
      hide PutAll, Handshakes, CertificateRequests, ProtocolRequests, WalletKeyRequests, AssetRequests;
      ghost var start := Contents();
      var refs := AddAlgorithmAssets(Groups, evidence);
      AddGuardedAssets(evidence, start);
      AddProtocolComponents(evidence, refs);
      AddTlsHandshakeComponents(evidence, refs);
      var certificates := Certificates(evidence);
      if |certificates| > 1 {
        return Err(ManyCertificates);
      }
      ghost var a, b := AssetsBefore(casing, evidence), ProtocolRequests(casing, Versions(evidence), evidence);
      ghost var c, d := Handshakes(casing, evidence), LeafRequests(casing, evidence);
      PutAllConcat(start, a, b);
      PutAllConcat(start, a + b, c);
      PutAllConcat(start, a + b + c, d);
      NoRequests(Contents());
      if certificates != [] {
        AddCertificateComponent(certificates[0]);
      }
      return Ok(());
    }

    /** The emitters between the generic one and the protocols. */
    method AddGuardedAssets(evidence: seq<Evidence>, ghost start: Graph)
      requires Contents() == PutAll(start, AssetRequests(casing, Groups, evidence))
      modifies this
      ensures Contents() == PutAll(start, AssetsBefore(casing, evidence))
    {
      hide PutAll, WalletKeyRequests, AssetRequests;
      ghost var done := AssetRequests(casing, Groups, evidence);
      var _ := AddAlgorithmAssets(HostKeys, evidence);
      done := Grow(start, done, AssetRequests(casing, HostKeys, evidence));
      AddWalletSignatureComponents(evidence);
      done := Grow(start, done, AssetRequests(casing, WalletSignatures, evidence) + WalletKeyRequests(casing, evidence));
      var _ := AddAlgorithmAssets(SshKex, evidence);
      done := Grow(start, done, AssetRequests(casing, SshKex, evidence));
      AddSshTransportComponents(evidence);
      done := Grow(start, done, AssetRequests(casing, SshCiphers, evidence) + AssetRequests(casing, SshMacs, evidence));
      AddIkeTransportComponents(evidence);
      done := Grow(start, done, AssetRequests(casing, IkeCiphers, evidence) + AssetRequests(casing, IkeMacs, evidence)
                                + AssetRequests(casing, IkeGroups, evidence));
      var _ := AddAlgorithmAssets(CipherSuites, evidence);
      done := Grow(start, done, AssetRequests(casing, CipherSuites, evidence));
      var _ := AddAlgorithmAssets(LegacyCiphers, evidence);
      done := Grow(start, done, AssetRequests(casing, LegacyCiphers, evidence));
    }

    ghost method Grow(start: Graph, done: seq<Request>, more: seq<Request>) returns (all: seq<Request>)
      requires Contents() == PutAll(PutAll(start, done), more)
      ensures all == done + more && Contents() == PutAll(start, all)
    {
      PutAllConcat(start, done, more);
      all := done + more;
    }

    /** `add_ssh_transport_components`. */
    method AddSshTransportComponents(evidence: seq<Evidence>)
      modifies this
      ensures Contents() == PutAll(old(Contents()),
                AssetRequests(casing, SshCiphers, evidence) + AssetRequests(casing, SshMacs, evidence))
    {
      hide PutAll, AssetRequests;
      ghost var start := Contents();
      var _ := AddAlgorithmAssets(SshCiphers, evidence);
      var _ := AddAlgorithmAssets(SshMacs, evidence);
      PutAllConcat(start, AssetRequests(casing, SshCiphers, evidence), AssetRequests(casing, SshMacs, evidence));
    }

    /** `add_ike_transport_components`. */
    method AddIkeTransportComponents(evidence: seq<Evidence>)
      modifies this
      ensures Contents() == PutAll(old(Contents()),
                AssetRequests(casing, IkeCiphers, evidence) + AssetRequests(casing, IkeMacs, evidence)
                + AssetRequests(casing, IkeGroups, evidence))
    {
      hide PutAll, AssetRequests;
      ghost var start, ciphers := Contents(), AssetRequests(casing, IkeCiphers, evidence);
      ghost var macs, groups := AssetRequests(casing, IkeMacs, evidence), AssetRequests(casing, IkeGroups, evidence);
      var _ := AddAlgorithmAssets(IkeCiphers, evidence);
      var _ := AddAlgorithmAssets(IkeMacs, evidence);
      PutAllConcat(start, ciphers, macs);
      var _ := AddAlgorithmAssets(IkeGroups, evidence);
      PutAllConcat(start, ciphers + macs, groups);
    }
  }

  function RefsOfGroups(refs: map<string, string>, groups: seq<string>): seq<string>
    requires forall g :: g in groups ==> g in refs
  {
    seq(|groups|, k requires 0 <= k < |groups| => refs[groups[k]])
  }

  lemma RefsOfGroupsAgree(casing: Casing, names: seq<string>, groups: seq<string>)
    requires forall g :: g in groups ==> g in names
    ensures RefsOfGroups(NamedRefs(casing, names), groups) == AlgorithmRefs(casing, groups)
  {
  }

  lemma NamedRefsAre(casing: Casing, names: seq<string>)
    ensures var refs := NamedRefs(casing, names);
      (forall n :: n in refs <==> n in names) && (forall n :: n in refs ==> refs[n] == AlgorithmRef(casing, n))
  {
  }

  lemma SelectedNamesNext(emitter: Emitter, evidence: seq<Evidence>, i: nat)
    requires i < |evidence|
    ensures SelectedNames(emitter, evidence[..i + 1])
         == if Selects(emitter, evidence[i])
            then SelectedNames(emitter, evidence[..i]) + [Select(emitter, evidence[i]).value]
            else SelectedNames(emitter, evidence[..i])
  {
    assert evidence[..i + 1][..i] == evidence[..i];
  }

  lemma OneRequest(g: Graph, r: Request)
    ensures PutAll(g, [r]) == Put(g, r)
  {
    assert [r][..0] == [];
  }

  lemma NoRequests(g: Graph)
    ensures PutAll(g, []) == g
  {
  }

  lemma NothingCollected(emitter: Emitter)
    ensures Strongest(emitter, []) == map[] && FirstOccurrences(SelectedNames(emitter, [])) == []
  {
  }

  /** One more evidence adds its name, or may strengthen the one it has. */
  lemma CollectNext(emitter: Emitter, evidence: seq<Evidence>, i: nat)
    requires i < |evidence|
    ensures var before, after := Strongest(emitter, evidence[..i]), Strongest(emitter, evidence[..i + 1]);
      var names := FirstOccurrences(SelectedNames(emitter, evidence[..i]));
      var more := FirstOccurrences(SelectedNames(emitter, evidence[..i + 1]));
      if !Selects(emitter, evidence[i]) then after == before && more == names
      else
        var n, o := Select(emitter, evidence[i]).value, evidence[i].observation;
        && (n !in before ==> after == before[n := o] && more == names + [n])
        && (n in before ==> more == names && Positive(before[n])
                            && after == if Rank(o) > Rank(before[n]) then before[n := o] else before)
  {
    hide Select, SelectedNames, FirstOccurrences, Rank;
    assert evidence[..i + 1][..i] == evidence[..i];
    StrongestNames(emitter, evidence[..i]);
    NamesNext(emitter, evidence, i);
  }

  lemma NamesNext(emitter: Emitter, evidence: seq<Evidence>, i: nat)
    requires i < |evidence|
    ensures var names := FirstOccurrences(SelectedNames(emitter, evidence[..i]));
      FirstOccurrences(SelectedNames(emitter, evidence[..i + 1]))
        == if Selects(emitter, evidence[i])
              && Select(emitter, evidence[i]).value !in SelectedNames(emitter, evidence[..i])
           then names + [Select(emitter, evidence[i]).value] else names
  {
    hide Select, SelectedNames, FirstOccurrences;
    SelectedNamesNext(emitter, evidence, i);
    if Selects(emitter, evidence[i]) {
      NextName(SelectedNames(emitter, evidence[..i]), Select(emitter, evidence[i]).value);
    }
  }

  lemma NextName(names: seq<string>, name: string)
    ensures FirstOccurrences(names + [name])
         == if name in names then FirstOccurrences(names) else FirstOccurrences(names) + [name]
  {
    assert (names + [name])[..|names|] == names;
  }

  lemma AssetsAreNamed(emitter: Emitter, evidence: seq<Evidence>)
    ensures var sorted := SortedNames(SelectedNames(emitter, evidence));
      && (forall n :: n in sorted <==> n in SelectedNames(emitter, evidence))
      && (forall n :: n in sorted <==> n in Strongest(emitter, evidence))
  {
    SortedNamesOf(SelectedNames(emitter, evidence));
    StrongestNames(emitter, evidence);
  }

  lemma NamedRequestsNext(casing: Casing, emitter: Emitter, evidence: seq<Evidence>, names: seq<string>, i: nat)
    requires i < |names|
    ensures NamedRequests(casing, emitter, evidence, names[..i + 1])
         == NamedRequests(casing, emitter, evidence, names[..i])
            + [AlgorithmRequest(casing, names[i], Some(ObservationOf(emitter, evidence, names[i])))]
  {
  }

  lemma ProtocolRequestsNext(casing: Casing, versions: seq<Version>, evidence: seq<Evidence>, i: nat)
    requires i < |versions|
    ensures ProtocolRequests(casing, versions[..i + 1], evidence)
         == ProtocolRequests(casing, versions[..i], evidence) + [ProtocolRequest(casing, versions[i], evidence)]
  {
    hide ProtocolRequest;
  }

  lemma WalletMaterialsNext(casing: Casing, keys: seq<string>, i: nat)
    requires i < |keys|
    ensures WalletMaterials(casing, keys[..i + 1])
         == WalletMaterials(casing, keys[..i]) + [WalletMaterial(casing, keys[i])]
  {
    hide WalletMaterial;
  }

  lemma WalletMaterialIs(casing: Casing, key: string)
    ensures WalletMaterial(casing, key)
         == Request(Component(WalletKeyRef(key), "Account public key (" + CURVE + ")",
                      MaterialAsset(AlgorithmRef(casing, "EC-" + CURVE), Some(256), Some(key))), true)
  {
  }
}
