/** Key material in the document: which recovered keys and which ephemeral keys it holds. */
module CbomMaterials {
  import opened Casings
  import opened Wrappers
  import opened Sequences
  import opened Sorting
  import opened Naming
  import opened ScanEvidence
  import opened Inventory
  import opened BomBuilder
  import opened CbomDocument
  import opened CbomSoundness
  import opened CbomTheorem

  // ----- the first of several under one reference -----

  /** The key material among requests, in the order of emission. */
  function Materials(rs: seq<Request>): seq<Component> {
    if rs == [] then []
    else
      var last := rs[|rs| - 1].component;
      Materials(rs[..|rs| - 1]) + if last.asset.MaterialAsset? then [last] else []
  }

  lemma {:induction false} MaterialsConcat(a: seq<Request>, b: seq<Request>)
    ensures Materials(a + b) == Materials(a) + Materials(b)
  {
    if b == [] {
      assert a + b == a;
    } else {
      assert (a + b)[..|a + b| - 1] == a + b[..|b| - 1];
      MaterialsConcat(a, b[..|b| - 1]);
    }
  }

  /** The component is the first of its reference. */
  predicate IsFirst(components: seq<Component>, c: Component) {
    exists i :: 0 <= i < |components| && components[i] == c
                && forall j :: 0 <= j < i ==> components[j].ref != c.ref
  }

  /** Materials, and only they, have references of their kind, and give way to earlier ones. */
  predicate MaterialsApart(rs: seq<Request>) {
    forall i :: 0 <= i < |rs| ==> IsApart(rs[i])
  }

  predicate IsApart(r: Request) {
    && (r.component.asset.MaterialAsset? <==> KindOf(r.component.ref) == Material)
    && (r.component.asset.MaterialAsset? ==> r.guarded)
  }

  predicate Mentions(components: seq<Component>, ref: string) {
    exists j :: 0 <= j < |components| && components[j].ref == ref
  }

  lemma MentionsNext(components: seq<Component>, last: Component, ref: string)
    ensures Mentions(components + [last], ref) <==> Mentions(components, ref) || last.ref == ref
  {
    var more := components + [last];
    assert more[|components|] == last && forall j :: 0 <= j < |components| ==> more[j] == components[j];
  }

  lemma {:induction false} MaterialRefs(rs: seq<Request>, ref: string)
    requires MaterialsApart(rs) && KindOf(ref) == Material
    ensures ref in Requested(rs) <==> Mentions(Materials(rs), ref)
  {
    hide KindOf, Mentions, IsApart, Requested;
    if rs == [] {
      NothingMentioned(ref);
    } else {
      var init, last := rs[..|rs| - 1], rs[|rs| - 1];
      MaterialRefs(init, ref);
      assert rs == init + [last];
      RequestedConcat(init, [last]);
      OneRequested(last);
      ApartIsMaterial(last);
      assert Materials(init) + [] == Materials(init);
      MentionsNext(Materials(init), last.component, ref);
    }
  }

  lemma NothingMentioned(ref: string)
    ensures !Mentions([], ref) && Requested([]) == {}
  {
  }

  /** Of the requests for one material reference the first, and no other, gets into the document. */
  lemma {:induction false} FirstMaterialWins(rs: seq<Request>, c: Component)
    requires MaterialsApart(rs) && KindOf(c.ref) == Material
    ensures c in PutAll(EMPTY, rs).components <==> IsFirst(Materials(rs), c)
  {
    hide KindOf, Put, IsFirst, IsApart, Mentions, Requested;
    if rs == [] {
      NoneIsFirst(c);
    } else {
      var init, last := rs[..|rs| - 1], rs[|rs| - 1];
      FirstMaterialWins(init, c);
      MaterialRefs(init, c.ref);
      PutAllEffect(EMPTY, init);
      assert RefSet(EMPTY.components) == {};
      PutMaterial(PutAll(EMPTY, init), last, c);
      NextIsFirst(Materials(init), last.component, c);
      ApartIsMaterial(last);
      assert Materials(init) + [] == Materials(init);
    }
  }

  lemma ApartIsMaterial(r: Request)
    requires IsApart(r)
    ensures r.component.asset.MaterialAsset? <==> KindOf(r.component.ref) == Material
  {
  }

  lemma NoneIsFirst(c: Component)
    ensures !IsFirst([], c)
  {
  }

  lemma PutMaterial(g: Graph, r: Request, c: Component)
    requires IsApart(r) && KindOf(c.ref) == Material
    ensures c in Put(g, r).components <==>
      c in g.components || (r.component == c && r.component.asset.MaterialAsset? && c.ref !in RefSet(g.components))
  {
    hide KindOf;
    RefSetIs(g.components);
  }

  lemma NextIsFirst(components: seq<Component>, last: Component, c: Component)
    ensures IsFirst(components + [last], c) <==>
      IsFirst(components, c) || (last == c && !Mentions(components, c.ref))
  {
    var more := components + [last];
    assert more[|components|] == last && forall j :: 0 <= j < |components| ==> more[j] == components[j];
    if IsFirst(components, c) {
      var i :| 0 <= i < |components| && components[i] == c && forall j :: 0 <= j < i ==> components[j].ref != c.ref;
      assert more[i] == c;
    }
  }

  // ----- the material of a scan -----

  function WalletComponents(casing: Casing, keys: seq<string>): (components: seq<Component>)
    ensures |components| == |keys|
  {
    seq(|keys|, i requires 0 <= i < |keys| => WalletMaterial(casing, keys[i]).component)
  }

  /** A negotiation whose ephemeral key is recorded: its group is in the inventory and its size is known. */
  predicate HasEphemeralKey(e: Evidence, emitted: seq<string>) {
    e.negotiatedGroup.Some? && e.keyBits.Some? && e.negotiatedGroup.value in emitted
  }

  function EphemeralComponent(casing: Casing, group: string, bits: nat): Component {
    Component(EphemeralRef(casing, group), "TLS ephemeral public key (" + group + ")",
              MaterialAsset(AlgorithmRef(casing, group), Some(bits), None))
  }

  function EphemeralComponents(casing: Casing, es: seq<Evidence>, emitted: seq<string>): seq<Component> {
    if es == [] then []
    else
      var last := es[|es| - 1];
      EphemeralComponents(casing, es[..|es| - 1], emitted)
      + if HasEphemeralKey(last, emitted) then [EphemeralComponent(casing, last.negotiatedGroup.value, last.keyBits.value)]
        else []
  }

  lemma {:induction false} NoMaterials(rs: seq<Request>)
    requires forall i :: 0 <= i < |rs| ==> !rs[i].component.asset.MaterialAsset?
    ensures Materials(rs) == []
  {
    if rs == [] {
    } else {
      NoMaterials(rs[..|rs| - 1]);
    }
  }

  lemma {:induction false} WalletMaterialsIn(casing: Casing, keys: seq<string>)
    ensures Materials(WalletMaterials(casing, keys)) == WalletComponents(casing, keys)
  {
    hide WalletMaterial;
    var rs := WalletMaterials(casing, keys);
    if keys == [] {
    } else {
      var init := keys[..|keys| - 1];
      WalletMaterialsIn(casing, init);
      assert rs[..|rs| - 1] == WalletMaterials(casing, init);
      assert rs[|rs| - 1].component.asset.MaterialAsset? by { MaterialIsMaterial(casing, keys[|keys| - 1]); }
      assert WalletComponents(casing, keys) == WalletComponents(casing, init) + [rs[|rs| - 1].component];
    }
  }

  lemma MaterialIsMaterial(casing: Casing, key: string)
    ensures WalletMaterial(casing, key).component.asset.MaterialAsset?
  {
  }

  lemma WalletPart(casing: Casing, evidence: seq<Evidence>)
    ensures Materials(WalletKeyRequests(casing, evidence)) == WalletComponents(casing, RecoveredKeys(evidence))
  {
    hide WalletMaterials, WalletMaterial, RecoveredKeys, PublicKeyName, AlgorithmRef;
    var keys := RecoveredKeys(evidence);
    var named := KeyRequests(casing, Some(EC_ALGORITHM), Some(256), Some(CURVE));
    NoMaterials(named);
    NoMaterials([]);
    MaterialsConcat(named, WalletMaterials(casing, keys));
    WalletMaterialsIn(casing, keys);
  }

  lemma EmitterPart(casing: Casing, emitter: Emitter, evidence: seq<Evidence>)
    ensures Materials(AssetRequests(casing, emitter, evidence)) == []
  {
    hide SortedNames, SelectedNames, AlgorithmRef;
    NoMaterials(AssetRequests(casing, emitter, evidence));
  }

  lemma BeforePart(casing: Casing, evidence: seq<Evidence>)
    ensures Materials(AssetsBefore(casing, evidence)) == WalletComponents(casing, RecoveredKeys(evidence))
  {
    hide AssetRequests, WalletKeyRequests, WalletComponents, RecoveredKeys, Materials;
    forall emitter
      ensures Materials(AssetRequests(casing, emitter, evidence)) == []
    {
      EmitterPart(casing, emitter, evidence);
    }
    WalletPart(casing, evidence);
    var a, b := AssetRequests(casing, Groups, evidence), AssetRequests(casing, HostKeys, evidence);
    var w, k := AssetRequests(casing, WalletSignatures, evidence), WalletKeyRequests(casing, evidence);
    var c := AssetRequests(casing, SshKex, evidence);
    var d := AssetRequests(casing, SshCiphers, evidence) + AssetRequests(casing, SshMacs, evidence);
    var i := AssetRequests(casing, IkeCiphers, evidence) + AssetRequests(casing, IkeMacs, evidence);
    var g := i + AssetRequests(casing, IkeGroups, evidence);
    var t, l := AssetRequests(casing, CipherSuites, evidence), AssetRequests(casing, LegacyCiphers, evidence);
    MaterialsConcat(a, b);
    MaterialsConcat(w, k);
    MaterialsConcat(a + b, w + k);
    MaterialsConcat(a + b + (w + k), c);
    MaterialsConcat(AssetRequests(casing, SshCiphers, evidence), AssetRequests(casing, SshMacs, evidence));
    MaterialsConcat(a + b + (w + k) + c, d);
    MaterialsConcat(AssetRequests(casing, IkeCiphers, evidence), AssetRequests(casing, IkeMacs, evidence));
    MaterialsConcat(i, AssetRequests(casing, IkeGroups, evidence));
    MaterialsConcat(a + b + (w + k) + c + d, g);
    MaterialsConcat(a + b + (w + k) + c + d + g, t);
    MaterialsConcat(a + b + (w + k) + c + d + g + t, l);
  }

  lemma EphemeralPart(casing: Casing, e: Evidence, emitted: seq<string>)
    ensures Materials(SignatureRequests(casing, e) + EphemeralRequests(casing, e, emitted))
         == if HasEphemeralKey(e, emitted) then [EphemeralComponent(casing, e.negotiatedGroup.value, e.keyBits.value)] else []
  {
    hide AlgorithmRef, EphemeralRef;
    var s, k := SignatureRequests(casing, e), EphemeralRequests(casing, e, emitted);
    NoMaterials(s);
    NoMaterials([]);
    MaterialsConcat(s, k);
    if k != [] {
      assert k[..0] == [];
    }
  }

  lemma {:induction false} HandshakePart(casing: Casing, es: seq<Evidence>, emitted: seq<string>)
    ensures Materials(HandshakeRequests(casing, es, emitted)) == EphemeralComponents(casing, es, emitted)
  {
    hide SignatureRequests, EphemeralRequests, EphemeralComponent, HasEphemeralKey;
    if es == [] {
    } else {
      var init, last := es[..|es| - 1], es[|es| - 1];
      HandshakePart(casing, init, emitted);
      EphemeralPart(casing, last, emitted);
      MaterialsConcat(HandshakeRequests(casing, init, emitted),
                      SignatureRequests(casing, last) + EphemeralRequests(casing, last, emitted));
    }
  }

  function EphemeralOf(casing: Casing, evidence: seq<Evidence>): seq<Component> {
    EphemeralComponents(casing, Sort(BY_ID, Negotiations(evidence)), SelectedNames(Groups, evidence))
  }

  /** The material of a scan: recovered keys in order, then ephemeral keys in order of evidence id. */
  lemma MaterialsOfScan(casing: Casing, evidence: seq<Evidence>)
    requires CasesAscii(casing)
    ensures Materials(Requests(casing, evidence))
         == WalletComponents(casing, RecoveredKeys(evidence)) + EphemeralOf(casing, evidence)
    ensures MaterialsApart(Requests(casing, evidence))
  {
    hide CasesAscii, AssetsBefore, ProtocolRequests, HandshakeRequests, LeafRequests, Versions, Materials, MaterialsApart,
         WalletComponents, EphemeralComponents, RecoveredKeys, Negotiations, SelectedNames, Sort, AreProtocols, AreAssets;
    var a, p := AssetsBefore(casing, evidence), ProtocolRequests(casing, Versions(evidence), evidence);
    var h, l := Handshakes(casing, evidence), LeafRequests(casing, evidence);
    BeforePart(casing, evidence);
    HandshakePart(casing, Sort(BY_ID, Negotiations(evidence)), SelectedNames(Groups, evidence));
    PartsAreAssets(casing, evidence);
    ProtocolRequestsAre(casing, Versions(evidence), evidence);
    ProtocolsApart(p);
    LeafApart(casing, evidence);
    AssetsApart(casing, a);
    AssetsApart(casing, h);
    MaterialsConcat(a, p);
    MaterialsConcat(a + p, h);
    MaterialsConcat(a + p + h, l);
    ApartConcat(a, p);
    ApartConcat(a + p, h);
    ApartConcat(a + p + h, l);
  }

  lemma ApartConcat(a: seq<Request>, b: seq<Request>)
    requires MaterialsApart(a) && MaterialsApart(b)
    ensures MaterialsApart(a + b)
  {
    hide IsApart;
  }

  lemma AssetsApart(casing: Casing, rs: seq<Request>)
    requires AreAssets(casing, rs)
    ensures MaterialsApart(rs)
  {
    hide KindOf, AlgorithmRef;
    forall i | 0 <= i < |rs|
      ensures IsApart(rs[i])
    {
      assert IsAsset(casing, rs[i]);
      KindsOfRefs(casing, rs[i].component.name, "", 0);
    }
  }

  lemma ProtocolsApart(rs: seq<Request>)
    requires AreProtocols(rs)
    ensures MaterialsApart(rs) && Materials(rs) == []
  {
    hide KindOf;
    NoMaterials(rs);
  }

  lemma LeafApart(casing: Casing, evidence: seq<Evidence>)
    ensures MaterialsApart(LeafRequests(casing, evidence)) && Materials(LeafRequests(casing, evidence)) == []
  {
    hide Certificates, CertificateRequests, MaterialsApart, Materials;
    if Certificates(evidence) == [] {
      NoMaterials([]);
      NoneApart();
    } else {
      CertificateApart(casing, Certificates(evidence)[0]);
    }
  }

  lemma NoneApart()
    ensures MaterialsApart([])
  {
  }

  lemma CertificateApart(casing: Casing, c: Certificate)
    ensures MaterialsApart(CertificateRequests(casing, c)) && Materials(CertificateRequests(casing, c)) == []
  {
    hide KindOf, AlgorithmRef, PublicKeyName, KeyRef, SignatureRef;
    var rs := CertificateRequests(casing, c);
    forall i | 0 <= i < |rs|
      ensures IsApart(rs[i]) && !rs[i].component.asset.MaterialAsset?
    {
      KindsOfRefs(casing, rs[i].component.name, "", 0);
    }
    NoMaterials(rs);
  }

  /** Every material of the document is the first asked for under its reference. */
  lemma MaterialInDocument(casing: Casing, scan: Scan, reproducible: bool, c: Component)
    requires CasesAscii(casing) && KindOf(c.ref) == Material && c.asset.MaterialAsset?
    ensures c in DocumentOf(casing, scan, reproducible).components <==>
      IsFirst(WalletComponents(casing, RecoveredKeys(scan.evidence)) + EphemeralOf(casing, scan.evidence), c)
  {
    hide CasesAscii, Requests, PutAll, KindOf, IsFirst, WalletComponents, EphemeralOf, AnchoredAll, Annotations, ToolList,
         FirstOccurrences, ProvidingNodes, Nodes, Materials, MaterialsApart;
    var g := GraphOf(casing, scan);
    MaterialsOfScan(casing, scan.evidence);
    FirstMaterialWins(Requests(casing, scan.evidence), c);
    PatchesKeepMaterial(casing, scan.evidence, g.components, c);
  }

  lemma PatchesKeepMaterial(casing: Casing, evidence: seq<Evidence>, components: seq<Component>, c: Component)
    requires c.asset.MaterialAsset?
    ensures c in GroupedComponents(casing, evidence, NativeComponents(components)) <==> c in components
  {
    hide GroupedSuites;
    var patched := GroupedComponents(casing, evidence, NativeComponents(components));
    forall i | 0 <= i < |components|
      ensures patched[i] == c <==> components[i] == c
    {
    }
  }

  // ----- recovered keys -----

  /** The document shows this key. */
  predicate ShowsKey(d: Document, key: string) {
    exists c :: c in d.components && c.asset.MaterialAsset? && c.asset.value == Some(key)
  }

  /** A key is shown with its size and under its first sixteen characters, and points at its algorithm. */
  lemma KeyIsDescribed(casing: Casing, scan: Scan, reproducible: bool, c: Component, key: string)
    requires CasesAscii(casing) && c in DocumentOf(casing, scan, reproducible).components
    requires c.asset.MaterialAsset? && c.asset.value == Some(key)
    ensures c.ref == "crypto/related-material/wallet-pubkey-" + (if |key| <= 16 then key else key[..16])
    ensures c.asset.size == Some(256) && c.asset.algorithmRef == "crypto/algorithm/" + casing.lower("EC-" + "secp256k1")
    ensures c.name == "Account public key (" + "secp256k1" + ")"
  {
    hide CasesAscii, DocumentOf, RecoveredKeys, KindOf, EphemeralOf, WalletComponents;
    MaterialHasKind(casing, scan, reproducible, c);
    MaterialInDocument(casing, scan, reproducible, c);
    ShownKeyIsWallet(casing, RecoveredKeys(scan.evidence), scan.evidence, c, key);
  }

  /** The first of the keys that begin alike. */
  predicate IsFirstKey(keys: seq<string>, key: string) {
    exists i :: 0 <= i < |keys| && keys[i] == key && forall j :: 0 <= j < i ==> KeyPrefix(keys[j]) != KeyPrefix(key)
  }

  lemma WalletRefs(casing: Casing, a: string, b: string)
    ensures WalletKeyRef(a) == WalletKeyRef(b) <==> KeyPrefix(a) == KeyPrefix(b)
    ensures WalletKeyRef(a) != EphemeralRef(casing, b)
  {
    hide KeyPrefix;
    var head := "crypto/related-material/wallet-pubkey-";
    assert WalletKeyRef(a)[|head|..] == KeyPrefix(a) && WalletKeyRef(b)[|head|..] == KeyPrefix(b);
    assert WalletKeyRef(a)[24] == 'w' && EphemeralRef(casing, b)[24] == 't';
  }

  /** A recovered key is in the document exactly when it is the first of the recovered keys with its
      first sixteen characters. */
  lemma RecoveredKeyIff(casing: Casing, scan: Scan, reproducible: bool, key: string)
    requires CasesAscii(casing)
    ensures ShowsKey(DocumentOf(casing, scan, reproducible), key) <==> IsFirstKey(RecoveredKeys(scan.evidence), key)
  {
    hide CasesAscii, DocumentOf, RecoveredKeys, KindOf, IsFirst, KeyPrefix, WalletKeyRef, EphemeralOf, IsFirstKey,
         WalletComponents, AlgorithmRef;
    var keys, ephemeral := RecoveredKeys(scan.evidence), EphemeralOf(casing, scan.evidence);
    var d, c := DocumentOf(casing, scan, reproducible), WalletMaterial(casing, key).component;
    assert KindOf(c.ref) == Material by { KindsOfRefs(casing, key, "", 0); }
    MaterialInDocument(casing, scan, reproducible, c);
    EphemeralRefsDiffer(casing, scan.evidence, key);
    FirstKeyIsFirst(casing, keys, ephemeral, key);
    if ShowsKey(d, key) {
      var m :| m in d.components && m.asset.MaterialAsset? && m.asset.value == Some(key);
      MaterialHasKind(casing, scan, reproducible, m);
      MaterialInDocument(casing, scan, reproducible, m);
      ShownKeyIsWallet(casing, keys, scan.evidence, m, key);
    }
  }

  lemma MaterialHasKind(casing: Casing, scan: Scan, reproducible: bool, m: Component)
    requires CasesAscii(casing) && m in DocumentOf(casing, scan, reproducible).components && m.asset.MaterialAsset?
    ensures KindOf(m.ref) == Material
  {
    hide CasesAscii, KindOf, AnchoredAll, Annotations, ToolList, Requests, PutAll, FirstOccurrences, ProvidingNodes, Nodes,
         Materials, GroupedComponents, NativeComponents, IsApart;
    PatchesKeepMaterial(casing, scan.evidence, GraphOf(casing, scan).components, m);
    GraphHolds(casing, scan);
    MaterialsOfScan(casing, scan.evidence);
    var rs := Requests(casing, scan.evidence);
    var i :| 0 <= i < |rs| && rs[i].component == m;
    ApartIsMaterial(rs[i]);
  }

  /** Only recovered keys are shown with their value. */
  lemma ShownKeyIsWallet(casing: Casing, keys: seq<string>, evidence: seq<Evidence>, m: Component, key: string)
    requires IsFirst(WalletComponents(casing, keys) + EphemeralOf(casing, evidence), m)
    requires m.asset.MaterialAsset? && m.asset.value == Some(key)
    ensures m == WalletMaterial(casing, key).component
  {
    hide EphemeralOf, WalletMaterial;
    var ws, es := WalletComponents(casing, keys), EphemeralOf(casing, evidence);
    var k :| 0 <= k < |ws + es| && (ws + es)[k] == m;
    if k < |ws| {
      assert ws[k] == WalletMaterial(casing, keys[k]).component;
      WalletValue(casing, keys[k]);
    } else {
      EphemeralIs(casing, evidence, k - |ws|);
    }
  }

  lemma WalletValue(casing: Casing, key: string)
    ensures var c := WalletMaterial(casing, key).component;
      c.ref == WalletKeyRef(key) && c.asset.MaterialAsset? && c.asset.value == Some(key)
  {
  }

  lemma EphemeralIs(casing: Casing, evidence: seq<Evidence>, i: nat)
    requires i < |EphemeralOf(casing, evidence)|
    ensures var c := EphemeralOf(casing, evidence)[i];
      c.asset.MaterialAsset? && c.asset.value == None && exists group :: c.ref == EphemeralRef(casing, group)
  {
    hide EphemeralComponents, EphemeralRef, Sort, Negotiations, SelectedNames;
    EphemeralValues(casing, Sort(BY_ID, Negotiations(evidence)), SelectedNames(Groups, evidence), i);
  }

  lemma {:induction false} EphemeralValues(casing: Casing, es: seq<Evidence>, emitted: seq<string>, i: nat)
    requires i < |EphemeralComponents(casing, es, emitted)|
    ensures var c := EphemeralComponents(casing, es, emitted)[i];
      c.asset.MaterialAsset? && c.asset.value == None && exists group :: c.ref == EphemeralRef(casing, group)
  {
    hide AlgorithmRef, EphemeralRef;
    var init := es[..|es| - 1];
    var before := EphemeralComponents(casing, init, emitted);
    if i < |before| {
      EphemeralValues(casing, init, emitted, i);
    } else {
      var last := es[|es| - 1];
      assert EphemeralComponents(casing, es, emitted)[i]
          == EphemeralComponent(casing, last.negotiatedGroup.value, last.keyBits.value);
    }
  }

  lemma EphemeralRefsDiffer(casing: Casing, evidence: seq<Evidence>, key: string)
    ensures forall i :: 0 <= i < |EphemeralOf(casing, evidence)| ==> EphemeralOf(casing, evidence)[i].ref != WalletKeyRef(key)
  {
    hide EphemeralOf, EphemeralRef, WalletKeyRef;
    forall i | 0 <= i < |EphemeralOf(casing, evidence)|
      ensures EphemeralOf(casing, evidence)[i].ref != WalletKeyRef(key)
    {
      EphemeralIs(casing, evidence, i);
      var group :| EphemeralOf(casing, evidence)[i].ref == EphemeralRef(casing, group);
      WalletRefs(casing, key, group);
    }
  }

  lemma FirstKeyIsFirst(casing: Casing, keys: seq<string>, more: seq<Component>, key: string)
    requires forall i :: 0 <= i < |more| ==> more[i].ref != WalletKeyRef(key)
    ensures IsFirst(WalletComponents(casing, keys) + more, WalletMaterial(casing, key).component) <==> IsFirstKey(keys, key)
  {
    hide WalletMaterial, WalletKeyRef, KeyPrefix;
    var all, c := WalletComponents(casing, keys) + more, WalletMaterial(casing, key).component;
    forall i | 0 <= i < |keys|
      ensures all[i] == WalletMaterial(casing, keys[i]).component
      ensures all[i] == c <==> keys[i] == key
      ensures all[i].ref == c.ref <==> KeyPrefix(keys[i]) == KeyPrefix(key)
    {
      WalletValue(casing, keys[i]);
      WalletValue(casing, key);
      WalletRefs(casing, keys[i], key);
    }
    WalletValue(casing, key);
    assert forall j :: |keys| <= j < |all| ==> all[j] == more[j - |keys|] && all[j].ref != c.ref;
    if IsFirst(all, c) {
      var i :| 0 <= i < |all| && all[i] == c && forall j :: 0 <= j < i ==> all[j].ref != c.ref;
      assert forall j :: 0 <= j < i ==> all[j].ref != c.ref && KeyPrefix(keys[j]) != KeyPrefix(key);
    }
    if IsFirstKey(keys, key) {
      var i :| 0 <= i < |keys| && keys[i] == key && forall j :: 0 <= j < i ==> KeyPrefix(keys[j]) != KeyPrefix(key);
      assert all[i] == c;
    }
  }

  /** So of recovered keys that begin alike the first is kept and every other one is lost. */
  lemma OneKeyPerPrefix(casing: Casing, scan: Scan, reproducible: bool, i: nat) returns (kept: nat)
    requires CasesAscii(casing) && i < |RecoveredKeys(scan.evidence)|
    ensures var keys, d := RecoveredKeys(scan.evidence), DocumentOf(casing, scan, reproducible);
      && kept <= i && KeyPrefix(keys[kept]) == KeyPrefix(keys[i]) && ShowsKey(d, keys[kept])
      && forall other :: KeyPrefix(other) == KeyPrefix(keys[i]) && other != keys[kept] ==> !ShowsKey(d, other)
  {
    hide CasesAscii, DocumentOf, RecoveredKeys, KeyPrefix, ShowsKey;
    var keys, d := RecoveredKeys(scan.evidence), DocumentOf(casing, scan, reproducible);
    kept := FirstWithPrefix(keys, i);
    RecoveredKeyIff(casing, scan, reproducible, keys[kept]);
    forall other | KeyPrefix(other) == KeyPrefix(keys[i]) && other != keys[kept]
      ensures !ShowsKey(d, other)
    {
      RecoveredKeyIff(casing, scan, reproducible, other);
    }
  }

  lemma FirstWithPrefix(keys: seq<string>, i: nat) returns (k: nat)
    requires i < |keys|
    ensures k <= i && KeyPrefix(keys[k]) == KeyPrefix(keys[i])
    ensures forall j :: 0 <= j < k ==> KeyPrefix(keys[j]) != KeyPrefix(keys[i])
  {
    hide KeyPrefix;
    k := 0;
    while KeyPrefix(keys[k]) != KeyPrefix(keys[i])
      invariant k <= i && forall j :: 0 <= j < k ==> KeyPrefix(keys[j]) != KeyPrefix(keys[i])
      decreases i - k
    {
      k := k + 1;
    }
  }

  // ----- ephemeral keys -----

  /** The first recorded ephemeral key of its group, up to the case of the group. */
  predicate IsFirstEphemeral(casing: Casing, es: seq<Evidence>, emitted: seq<string>, group: string, bits: nat) {
    exists i :: 0 <= i < |es| && IsEphemeral(es[i], emitted, group, bits)
                && forall j :: 0 <= j < i ==> !SharesGroup(casing, es[j], emitted, group)
  }

  predicate IsEphemeral(e: Evidence, emitted: seq<string>, group: string, bits: nat) {
    HasEphemeralKey(e, emitted) && e.negotiatedGroup == Some(group) && e.keyBits == Some(bits)
  }

  predicate SharesGroup(casing: Casing, e: Evidence, emitted: seq<string>, group: string) {
    HasEphemeralKey(e, emitted) && casing.lower(e.negotiatedGroup.value) == casing.lower(group)
  }

  /** A group and key size are in the document exactly when the first recorded negotiation, in order of
      evidence id, whose group is the same in lower case has this group and this size. */
  lemma EphemeralKeyIff(casing: Casing, scan: Scan, reproducible: bool, group: string, bits: nat)
    requires CasesAscii(casing)
    ensures EphemeralComponent(casing, group, bits) in DocumentOf(casing, scan, reproducible).components <==>
      IsFirstEphemeral(casing, Sort(BY_ID, Negotiations(scan.evidence)), SelectedNames(Groups, scan.evidence), group, bits)
  {
    hide CasesAscii, DocumentOf, RecoveredKeys, KindOf, IsFirst, IsFirstEphemeral, WalletComponents, EphemeralComponents,
         Negotiations, Sort, SelectedNames, EphemeralRef, AlgorithmRef;
    var c := EphemeralComponent(casing, group, bits);
    var keys := RecoveredKeys(scan.evidence);
    assert KindOf(c.ref) == Material by { KindsOfRefs(casing, group, "", 0); }
    MaterialInDocument(casing, scan, reproducible, c);
    WalletsApart(casing, keys, group);
    FirstBehind(WalletComponents(casing, keys), EphemeralOf(casing, scan.evidence), c);
    FirstEphemeralIsFirst(casing, Sort(BY_ID, Negotiations(scan.evidence)), SelectedNames(Groups, scan.evidence), group, bits);
  }

  lemma WalletsApart(casing: Casing, keys: seq<string>, group: string)
    ensures forall i :: 0 <= i < |WalletComponents(casing, keys)| ==>
      WalletComponents(casing, keys)[i].ref != EphemeralRef(casing, group)
  {
    hide WalletMaterial, WalletKeyRef, EphemeralRef;
    forall i | 0 <= i < |keys|
      ensures WalletComponents(casing, keys)[i].ref != EphemeralRef(casing, group)
    {
      WalletValue(casing, keys[i]);
      WalletRefs(casing, keys[i], group);
    }
  }

  lemma FirstBehind(a: seq<Component>, b: seq<Component>, c: Component)
    requires forall i :: 0 <= i < |a| ==> a[i].ref != c.ref
    ensures IsFirst(a + b, c) <==> IsFirst(b, c)
  {
    var all := a + b;
    if IsFirst(all, c) {
      var i :| 0 <= i < |all| && all[i] == c && forall j :: 0 <= j < i ==> all[j].ref != c.ref;
      assert i >= |a|;
      assert b[i - |a|] == c && forall j :: 0 <= j < i - |a| ==> b[j] == all[|a| + j];
    }
    if IsFirst(b, c) {
      var i :| 0 <= i < |b| && b[i] == c && forall j :: 0 <= j < i ==> b[j].ref != c.ref;
      assert all[|a| + i] == c && forall j :: |a| <= j < |a| + i ==> all[j] == b[j - |a|];
    }
  }

  lemma EphemeralRefIff(casing: Casing, a: string, x: nat, b: string, y: nat)
    ensures EphemeralRef(casing, a) == EphemeralRef(casing, b) <==> casing.lower(a) == casing.lower(b)
    ensures EphemeralComponent(casing, a, x) == EphemeralComponent(casing, b, y) <==> a == b && x == y
  {
    hide AlgorithmRef;
    var head, name := "crypto/related-material/tls-ephemeral-", "TLS ephemeral public key (";
    assert EphemeralRef(casing, a)[|head|..] == casing.lower(a) && EphemeralRef(casing, b)[|head|..] == casing.lower(b);
    var m, n := EphemeralComponent(casing, a, x).name, EphemeralComponent(casing, b, y).name;
    assert m == name + a + ")" && n == name + b + ")";
    assert m[|name|..|m| - 1] == a && n[|name|..|n| - 1] == b;
  }

  predicate GroupIsShared(casing: Casing, es: seq<Evidence>, emitted: seq<string>, group: string) {
    exists j :: 0 <= j < |es| && SharesGroup(casing, es[j], emitted, group)
  }

  lemma SharedNext(casing: Casing, es: seq<Evidence>, last: Evidence, emitted: seq<string>, group: string)
    ensures GroupIsShared(casing, es + [last], emitted, group)
       <==> GroupIsShared(casing, es, emitted, group) || SharesGroup(casing, last, emitted, group)
  {
    hide SharesGroup;
    var more := es + [last];
    assert more[|es|] == last && forall j :: 0 <= j < |es| ==> more[j] == es[j];
  }

  lemma NextEphemeral(casing: Casing, es: seq<Evidence>, last: Evidence, emitted: seq<string>, group: string, bits: nat)
    ensures IsFirstEphemeral(casing, es + [last], emitted, group, bits) <==>
      || IsFirstEphemeral(casing, es, emitted, group, bits)
      || (IsEphemeral(last, emitted, group, bits) && !GroupIsShared(casing, es, emitted, group))
  {
    hide IsEphemeral, SharesGroup;
    var more, n := es + [last], |es|;
    assert more[n] == last && forall j :: 0 <= j < n ==> more[j] == es[j];
    if IsFirstEphemeral(casing, es, emitted, group, bits) {
      var i :| 0 <= i < n && IsEphemeral(es[i], emitted, group, bits)
               && forall j :: 0 <= j < i ==> !SharesGroup(casing, es[j], emitted, group);
      assert IsEphemeral(more[i], emitted, group, bits);
    }
    if IsFirstEphemeral(casing, more, emitted, group, bits) {
      var i :| 0 <= i < |more| && IsEphemeral(more[i], emitted, group, bits)
               && forall j :: 0 <= j < i ==> !SharesGroup(casing, more[j], emitted, group);
      assert forall j :: 0 <= j < i ==> more[j] == es[j];
      assert i < n ==> more[i] == es[i];
    }
  }

  /** The components say in their own order what the negotiations say in theirs. */
  lemma {:induction false} FirstEphemeralIsFirst(
      casing: Casing, es: seq<Evidence>, emitted: seq<string>, group: string, bits: nat)
    ensures IsFirst(EphemeralComponents(casing, es, emitted), EphemeralComponent(casing, group, bits))
       <==> IsFirstEphemeral(casing, es, emitted, group, bits)
    ensures Mentions(EphemeralComponents(casing, es, emitted), EphemeralRef(casing, group))
       <==> GroupIsShared(casing, es, emitted, group)
  {
    hide IsFirst, EphemeralRef, AlgorithmRef, Mentions, GroupIsShared, IsFirstEphemeral;
    var c, ref := EphemeralComponent(casing, group, bits), EphemeralRef(casing, group);
    if es == [] {
      NoEphemeral(casing, emitted, group, bits);
    } else {
      var init, last := es[..|es| - 1], es[|es| - 1];
      var before := EphemeralComponents(casing, init, emitted);
      assert es == init + [last] && before + [] == before;
      FirstEphemeralIsFirst(casing, init, emitted, group, bits);
      NextEphemeral(casing, init, last, emitted, group, bits);
      SharedNext(casing, init, last, emitted, group);
      if HasEphemeralKey(last, emitted) {
        var d := EphemeralComponent(casing, last.negotiatedGroup.value, last.keyBits.value);
        EphemeralRefIff(casing, last.negotiatedGroup.value, last.keyBits.value, group, bits);
        NextIsFirst(before, d, c);
        MentionsNext(before, d, ref);
      }
    }
  }

  lemma NoEphemeral(casing: Casing, emitted: seq<string>, group: string, bits: nat)
    ensures var c := EphemeralComponent(casing, group, bits);
      && !IsFirst(EphemeralComponents(casing, [], emitted), c) && !IsFirstEphemeral(casing, [], emitted, group, bits)
      && !Mentions(EphemeralComponents(casing, [], emitted), c.ref) && !GroupIsShared(casing, [], emitted, group)
  {
  }
}
