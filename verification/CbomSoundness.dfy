/** The builder satisfies its validator: exactly when, and what the resulting inventory holds. */
module CbomSoundness {
  import opened Casings
  import opened Wrappers
  import opened Sequences
  import opened Sorting
  import opened Naming
  import opened ScanEvidence
  import opened Inventory
  import opened CbomDocument

  // ----- which algorithms are in the inventory -----

  /** Positive evidence that gives an algorithm its name: its group, unless another field does it,
      or its IKE identifier, or its cipher suite, unless that is a legacy cipher. */
  predicate NamesAsset(e: Evidence, name: string) {
    Positive(e.observation) && name != ""
    && ((e.negotiatedGroup == Some(name) && e.kind != "ssh.kex.weak" && e.kind !in IKE_KINDS)
        || (e.algorithm == Some(name) && e.kind in IKE_KINDS)
        || (e.cipherSuite == Some(name) && e.kind != LEGACY_CIPHER))
  }

  /** Together the emitters select exactly those names. */
  lemma EmittersCover(e: Evidence, name: string)
    ensures (exists emitter :: Selects(emitter, e) && Select(emitter, e) == Some(name)) <==> NamesAsset(e, name)
  {
    if NamesAsset(e, name) {
      var emitter :=
        if e.cipherSuite == Some(name) && e.kind != LEGACY_CIPHER then CipherSuites
        else if e.kind == "ike.cipher" then IkeCiphers
        else if e.kind == "ike.dh_group" then IkeGroups
        else if e.kind == "ike.prf" || e.kind == "ike.integrity" then IkeMacs
        else if e.kind == WALLET_SIGNATURE then WalletSignatures
        else if e.kind == "ssh.hostkey" then HostKeys
        else if e.kind == "ssh.kex" then SshKex
        else if e.kind == "ssh.cipher" then SshCiphers
        else if e.kind == "ssh.mac" then SshMacs
        else if e.kind == LEGACY_CIPHER then LegacyCiphers
        else Groups;
      assert Selects(emitter, e) && Select(emitter, e) == Some(name);
    }
  }

  ghost predicate NamedByAsset(evidence: seq<Evidence>, name: string) {
    exists i :: 0 <= i < |evidence| && NamesAsset(evidence[i], name)
  }

  ghost predicate NamedBySignature(evidence: seq<Evidence>, name: string) {
    exists i :: 0 <= i < |evidence| && IsNegotiation(evidence[i]) && evidence[i].handshakeSignature == Some(name)
  }

  ghost predicate NamedByWallet(evidence: seq<Evidence>, name: string) {
    name == WALLET_NAME && exists i :: 0 <= i < |evidence| && IsRecoveredKey(evidence[i])
  }

  ghost predicate NamedByCertificate(casing: Casing, evidence: seq<Evidence>, name: string) {
    Certificates(evidence) != []
    && var c := Certificates(evidence)[0];
       (c.signatureAlgorithm == name && name != "UNKNOWN")
       || PublicKeyName(casing, c.keyAlgorithm, c.keyBits, None) == Some(name)
  }

  /** Some evidence names this algorithm. */
  ghost predicate IsNamed(casing: Casing, evidence: seq<Evidence>, name: string) {
    NamedByAsset(evidence, name) || NamedBySignature(evidence, name) || NamedByWallet(evidence, name)
    || NamedByCertificate(casing, evidence, name)
  }

  /** Requests that are what they look like: guarded algorithms and materials under their own kind of reference. */
  predicate AreAssets(casing: Casing, rs: seq<Request>) {
    forall i :: 0 <= i < |rs| ==> IsAsset(casing, rs[i])
  }

  predicate IsAsset(casing: Casing, r: Request) {
    r.guarded
    && match r.component.asset
       case AlgorithmAsset(_) => r.component.ref == AlgorithmRef(casing, r.component.name)
       case MaterialAsset(_, _, _) => KindOf(r.component.ref) == Material
       case _ => false
  }

  function AlgorithmNames(rs: seq<Request>): set<string> {
    set i | 0 <= i < |rs| && rs[i].component.asset.AlgorithmAsset? :: rs[i].component.name
  }

  lemma AlgorithmNamesConcat(a: seq<Request>, b: seq<Request>)
    ensures AlgorithmNames(a + b) == AlgorithmNames(a) + AlgorithmNames(b)
  {
    var all := a + b;
    forall n
      ensures n in AlgorithmNames(all) <==> n in AlgorithmNames(a) + AlgorithmNames(b)
    {
      if n in AlgorithmNames(a) {
        var i :| 0 <= i < |a| && a[i].component.asset.AlgorithmAsset? && a[i].component.name == n;
        assert all[i] == a[i];
      }
      if n in AlgorithmNames(b) {
        var i :| 0 <= i < |b| && b[i].component.asset.AlgorithmAsset? && b[i].component.name == n;
        assert all[|a| + i] == b[i];
      }
    }
  }

  /** Every reference a requested component makes is in `known`. */
  ghost predicate Resolve(rs: seq<Request>, known: set<string>) {
    forall i, r :: 0 <= i < |rs| && r in ComponentRefs(rs[i].component) ==> r in known
  }

  lemma ResolveConcat(a: seq<Request>, b: seq<Request>, known: set<string>)
    requires Resolve(a, known) && Resolve(b, known)
    ensures Resolve(a + b, known)
  {
  }

  /** Requests for assets that resolve and name exactly these algorithms. */
  ghost predicate NamedAssets(casing: Casing, rs: seq<Request>, known: set<string>, names: set<string>) {
    AreAssets(casing, rs) && Resolve(rs, known) && AlgorithmNames(rs) == names
  }

  lemma Join(casing: Casing, a: seq<Request>, b: seq<Request>, known: set<string>, m: set<string>, n: set<string>)
    requires NamedAssets(casing, a, known, m) && NamedAssets(casing, b, known, n)
    ensures NamedAssets(casing, a + b, known, m + n)
  {
    AlgorithmNamesConcat(a, b);
    ResolveConcat(a, b, known);
  }

  // ----- each list of requests -----

  function NameSet(emitter: Emitter, evidence: seq<Evidence>): set<string> {
    set n | n in SelectedNames(emitter, evidence)
  }

  lemma AssetRequestsAre(casing: Casing, emitter: Emitter, evidence: seq<Evidence>, known: set<string>)
    ensures NamedAssets(casing, AssetRequests(casing, emitter, evidence), known, NameSet(emitter, evidence))
  {
    hide SelectedNames, SortedNames, AlgorithmRef;
    var rs, names := AssetRequests(casing, emitter, evidence), SortedNames(SelectedNames(emitter, evidence));
    SortedNamesOf(SelectedNames(emitter, evidence));
    forall n | n in names
      ensures n in AlgorithmNames(rs)
    {
      var i :| 0 <= i < |names| && names[i] == n;
      assert rs[i].component.name == n;
    }
  }

  const WALLET_NAME: string := "EC-" + CURVE

  function WalletNames(evidence: seq<Evidence>): set<string> {
    if RecoveredKeys(evidence) == [] then {} else {WALLET_NAME}
  }

  lemma WalletKeyRequestsAre(casing: Casing, evidence: seq<Evidence>)
    requires CasesAscii(casing)
    ensures var rs := WalletKeyRequests(casing, evidence); NamedAssets(casing, rs, Requested(rs), WalletNames(evidence))
  {
    hide CasesAscii, PublicKeyName, AlgorithmRef, NamedAssets, Requested;
    var rs, keys := WalletKeyRequests(casing, evidence), RecoveredKeys(evidence);
    if keys == [] {
      NothingIsNamed(casing, Requested(rs));
    } else {
      WalletKeyName(casing);
      var first := AlgorithmRequest(casing, WALLET_NAME, None);
      assert rs == [first] + WalletMaterials(casing, keys);
      RequestedConcat([first], WalletMaterials(casing, keys));
      OneAlgorithm(casing, WALLET_NAME, None, Requested(rs));
      WalletMaterialsAre(casing, keys, Requested(rs));
      Join(casing, [first], WalletMaterials(casing, keys), Requested(rs), {WALLET_NAME}, {});
      assert {WALLET_NAME} + {} == WalletNames(evidence);
    }
  }

  lemma NothingIsNamed(casing: Casing, known: set<string>)
    ensures NamedAssets(casing, [], known, {})
  {
  }

  lemma OneAlgorithm(casing: Casing, name: string, observation: Option<Observation>, known: set<string>)
    ensures NamedAssets(casing, [AlgorithmRequest(casing, name, observation)], known, {name})
    ensures AlgorithmRef(casing, name) in Requested([AlgorithmRequest(casing, name, observation)])
  {
    var rs := [AlgorithmRequest(casing, name, observation)];
    assert rs[0].component.name in AlgorithmNames(rs);
    assert rs[0].component.ref in Requested(rs);
  }

  lemma WalletMaterialsAre(casing: Casing, keys: seq<string>, known: set<string>)
    requires AlgorithmRef(casing, WALLET_NAME) in known
    ensures NamedAssets(casing, WalletMaterials(casing, keys), known, {})
  {
    hide AlgorithmRef;
    forall i | 0 <= i < |keys|
      ensures KindOf(WalletMaterial(casing, keys[i]).component.ref) == Material
    {
      KindsOfRefs(casing, keys[i], "", 0);
    }
  }

  function SignatureNames(e: Evidence): set<string> {
    if e.handshakeSignature.Some? then {e.handshakeSignature.value} else {}
  }

  function HandshakeNames(es: seq<Evidence>): (names: set<string>)
    ensures forall n :: n in names <==> exists e :: e in es && e.handshakeSignature == Some(n)
  {
    if es == [] then {}
    else
      var init, last := es[..|es| - 1], es[|es| - 1];
      assert es == init + [last];
      HandshakeNames(init) + SignatureNames(last)
  }

  lemma SignatureRequestsAre(casing: Casing, e: Evidence, known: set<string>)
    ensures NamedAssets(casing, SignatureRequests(casing, e), known, SignatureNames(e))
  {
    var rs := SignatureRequests(casing, e);
    assert rs != [] ==> rs[0].component.name in AlgorithmNames(rs);
  }

  /** Ephemeral keys point at groups the generic emitter named. */
  lemma EphemeralRequestsAre(casing: Casing, e: Evidence, emitted: seq<string>, known: set<string>)
    requires forall n :: n in emitted ==> AlgorithmRef(casing, n) in known
    ensures NamedAssets(casing, EphemeralRequests(casing, e, emitted), known, {})
  {
    hide AlgorithmRef;
    if e.negotiatedGroup.Some? {
      KindsOfRefs(casing, e.negotiatedGroup.value, "", 0);
    }
  }

  lemma {:induction false} HandshakeRequestsAre(casing: Casing, es: seq<Evidence>, emitted: seq<string>, known: set<string>)
    requires forall n :: n in emitted ==> AlgorithmRef(casing, n) in known
    ensures NamedAssets(casing, HandshakeRequests(casing, es, emitted), known, HandshakeNames(es))
  {
    hide AlgorithmRef, SignatureRequests, EphemeralRequests, SignatureNames;
    if es == [] {
    } else {
      var init, last := es[..|es| - 1], es[|es| - 1];
      HandshakeRequestsAre(casing, init, emitted, known);
      hide NamedAssets;
      SignatureRequestsAre(casing, last, known);
      EphemeralRequestsAre(casing, last, emitted, known);
      var signed, keyed := SignatureRequests(casing, last), EphemeralRequests(casing, last, emitted);
      Join(casing, signed, keyed, known, SignatureNames(last), {});
      Join(casing, HandshakeRequests(casing, init, emitted), signed + keyed, known,
           HandshakeNames(init), SignatureNames(last) + {});
      assert HandshakeNames(es) == HandshakeNames(init) + (SignatureNames(last) + {});
    }
  }

  lemma HandshakesAre(casing: Casing, evidence: seq<Evidence>, known: set<string>)
    requires forall n :: n in SelectedNames(Groups, evidence) ==> AlgorithmRef(casing, n) in known
    ensures NamedAssets(casing, Handshakes(casing, evidence), known, HandshakeNames(Negotiations(evidence)))
  {
    hide AlgorithmRef, NamedAssets, HandshakeNames, Negotiations, SelectedNames;
    var es := Sort(BY_ID, Negotiations(evidence));
    SortKeeps(BY_ID, Negotiations(evidence));
    HandshakeRequestsAre(casing, es, SelectedNames(Groups, evidence), known);
    assert HandshakeNames(es) == HandshakeNames(Negotiations(evidence));
  }

  function CertificateNames(casing: Casing, c: Certificate): set<string> {
    var key := PublicKeyName(casing, c.keyAlgorithm, c.keyBits, None);
    (if key.Some? then {key.value} else {}) + (if c.signatureAlgorithm == "UNKNOWN" then {} else {c.signatureAlgorithm})
  }

  /** The certificate points at the two algorithms emitted just before it. */
  lemma CertificateRequestsAre(casing: Casing, c: Certificate)
    ensures var rs := CertificateRequests(casing, c);
      && rs != [] && rs[|rs| - 1] == LeafRequest(casing, c) && AreAssets(casing, rs[..|rs| - 1])
      && Resolve(rs, Requested(rs)) && AlgorithmNames(rs) == CertificateNames(casing, c)
  {
    hide PublicKeyName, AlgorithmRef;
    var rs, leaf := CertificateRequests(casing, c), LeafRequest(casing, c);
    var keyed := KeyRequests(casing, c.keyAlgorithm, c.keyBits, None);
    var signed := if c.signatureAlgorithm == "UNKNOWN" then [] else [AlgorithmRequest(casing, c.signatureAlgorithm, None)];
    assert rs == keyed + signed + [leaf] && rs[..|rs| - 1] == keyed + signed;
    AlgorithmNamesConcat(keyed + signed, [leaf]);
    AlgorithmNamesConcat(keyed, signed);
    assert AlgorithmNames([leaf]) == {};
    assert keyed != [] ==> rs[0] == keyed[0] && keyed[0].component.name in AlgorithmNames(keyed);
    assert signed != [] ==> rs[|keyed|] == signed[0] && signed[0].component.name in AlgorithmNames(signed);
    forall i, r | 0 <= i < |rs| && r in ComponentRefs(rs[i].component)
      ensures r in Requested(rs)
    {
      assert i == |rs| - 1;
      if KeyRef(casing, c) == Some(r) {
        assert rs[0].component.ref == r;
      } else {
        assert rs[|keyed|].component.ref == r;
      }
    }
  }

  // ----- the requests before the protocols -----

  /** The names of all emitters but the protocols', the handshake's and the certificate's. */
  function NamesBefore(evidence: seq<Evidence>): set<string> {
    NameSet(Groups, evidence) + NameSet(HostKeys, evidence)
    + (NameSet(WalletSignatures, evidence) + WalletNames(evidence)) + NameSet(SshKex, evidence)
    + (NameSet(SshCiphers, evidence) + NameSet(SshMacs, evidence))
    + (NameSet(IkeCiphers, evidence) + NameSet(IkeMacs, evidence) + NameSet(IkeGroups, evidence))
    + NameSet(CipherSuites, evidence) + NameSet(LegacyCiphers, evidence)
  }

  lemma AssetsBeforeAre(casing: Casing, evidence: seq<Evidence>, known: set<string>)
    requires CasesAscii(casing) && Requested(AssetsBefore(casing, evidence)) <= known
    ensures NamedAssets(casing, AssetsBefore(casing, evidence), known, NamesBefore(evidence))
  {
    hide CasesAscii, NamedAssets, AssetRequests, WalletKeyRequests, NameSet, WalletNames, Requested;
    forall emitter
      ensures NamedAssets(casing, AssetRequests(casing, emitter, evidence), known, NameSet(emitter, evidence))
    {
      AssetRequestsAre(casing, emitter, evidence, known);
    }
    var w, k := AssetRequests(casing, WalletSignatures, evidence), WalletKeyRequests(casing, evidence);
    WalletIsRequested(casing, evidence);
    WalletKeyRequestsAre(casing, evidence);
    NamedAssetsMore(casing, k, Requested(k), known, WalletNames(evidence));
    var a, b := AssetRequests(casing, Groups, evidence), AssetRequests(casing, HostKeys, evidence);
    var an, bn := NameSet(Groups, evidence), NameSet(HostKeys, evidence);
    var wn, kn := NameSet(WalletSignatures, evidence), WalletNames(evidence);
    Join(casing, w, k, known, wn, kn);
    Join(casing, a, b, known, an, bn);
    Join(casing, a + b, w + k, known, an + bn, wn + kn);
    TransportsAre(casing, evidence, known, a + b + (w + k), an + bn + (wn + kn));
  }

  lemma TransportsAre(casing: Casing, evidence: seq<Evidence>, known: set<string>, p: seq<Request>, pn: set<string>)
    requires NamedAssets(casing, p, known, pn)
    ensures NamedAssets(casing,
      p + AssetRequests(casing, SshKex, evidence)
        + (AssetRequests(casing, SshCiphers, evidence) + AssetRequests(casing, SshMacs, evidence))
        + (AssetRequests(casing, IkeCiphers, evidence) + AssetRequests(casing, IkeMacs, evidence)
           + AssetRequests(casing, IkeGroups, evidence))
        + AssetRequests(casing, CipherSuites, evidence) + AssetRequests(casing, LegacyCiphers, evidence),
      known,
      pn + NameSet(SshKex, evidence) + (NameSet(SshCiphers, evidence) + NameSet(SshMacs, evidence))
        + (NameSet(IkeCiphers, evidence) + NameSet(IkeMacs, evidence) + NameSet(IkeGroups, evidence))
        + NameSet(CipherSuites, evidence) + NameSet(LegacyCiphers, evidence))
  {
    hide NamedAssets, AssetRequests, NameSet;
    forall emitter
      ensures NamedAssets(casing, AssetRequests(casing, emitter, evidence), known, NameSet(emitter, evidence))
    {
      AssetRequestsAre(casing, emitter, evidence, known);
    }
    var x, xn := AssetRequests(casing, SshKex, evidence), NameSet(SshKex, evidence);
    var c, cn := AssetRequests(casing, SshCiphers, evidence), NameSet(SshCiphers, evidence);
    var m, mn := AssetRequests(casing, SshMacs, evidence), NameSet(SshMacs, evidence);
    var i, iN := AssetRequests(casing, IkeCiphers, evidence), NameSet(IkeCiphers, evidence);
    var j, jn := AssetRequests(casing, IkeMacs, evidence), NameSet(IkeMacs, evidence);
    var g, gn := AssetRequests(casing, IkeGroups, evidence), NameSet(IkeGroups, evidence);
    var s, sn := AssetRequests(casing, CipherSuites, evidence), NameSet(CipherSuites, evidence);
    var l, ln := AssetRequests(casing, LegacyCiphers, evidence), NameSet(LegacyCiphers, evidence);
    Join(casing, c, m, known, cn, mn);
    Join(casing, i, j, known, iN, jn);
    Join(casing, i + j, g, known, iN + jn, gn);
    Join(casing, p, x, known, pn, xn);
    Join(casing, p + x, c + m, known, pn + xn, cn + mn);
    Join(casing, p + x + (c + m), i + j + g, known, pn + xn + (cn + mn), iN + jn + gn);
    var q, qn := p + x + (c + m) + (i + j + g), pn + xn + (cn + mn) + (iN + jn + gn);
    Join(casing, q, s, known, qn, sn);
    Join(casing, q + s, l, known, qn + sn, ln);
  }

  lemma NamedAssetsMore(casing: Casing, rs: seq<Request>, few: set<string>, many: set<string>, names: set<string>)
    requires NamedAssets(casing, rs, few, names) && few <= many
    ensures NamedAssets(casing, rs, many, names)
  {
  }

  /** The first lists of requests are among all of them. */
  lemma WalletIsRequested(casing: Casing, evidence: seq<Evidence>)
    ensures Requested(WalletKeyRequests(casing, evidence)) <= Requested(AssetsBefore(casing, evidence))
    ensures Requested(AssetRequests(casing, Groups, evidence)) <= Requested(AssetsBefore(casing, evidence))
  {
    hide AssetRequests, WalletKeyRequests, Requested;
    var a, b := AssetRequests(casing, Groups, evidence), AssetRequests(casing, HostKeys, evidence);
    var w, k := AssetRequests(casing, WalletSignatures, evidence), WalletKeyRequests(casing, evidence);
    var x := AssetRequests(casing, SshKex, evidence);
    var y := AssetRequests(casing, SshCiphers, evidence) + AssetRequests(casing, SshMacs, evidence);
    var z := AssetRequests(casing, IkeCiphers, evidence) + AssetRequests(casing, IkeMacs, evidence)
             + AssetRequests(casing, IkeGroups, evidence);
    var s, l := AssetRequests(casing, CipherSuites, evidence), AssetRequests(casing, LegacyCiphers, evidence);
    RequestedConcat(w, k);
    RequestedConcat(a, b);
    RequestedConcat(a + b, w + k);
    RequestedConcat(a + b + (w + k), x);
    RequestedConcat(a + b + (w + k) + x, y);
    RequestedConcat(a + b + (w + k) + x + y, z);
    RequestedConcat(a + b + (w + k) + x + y + z, s);
    RequestedConcat(a + b + (w + k) + x + y + z + s, l);
  }

  // ----- all requests -----

  /** Every algorithm name in the inventory. */
  function AllNames(casing: Casing, evidence: seq<Evidence>): set<string> {
    NamesBefore(evidence) + HandshakeNames(Negotiations(evidence)) + LeafNames(casing, evidence)
  }

  function LeafNames(casing: Casing, evidence: seq<Evidence>): set<string> {
    if Certificates(evidence) == [] then {} else CertificateNames(casing, Certificates(evidence)[0])
  }

  /** The names are those that evidence gives. */
  lemma AllNamesAre(casing: Casing, evidence: seq<Evidence>, name: string)
    ensures name in AllNames(casing, evidence) <==> IsNamed(casing, evidence, name)
  {
    hide NamesBefore, HandshakeNames, Negotiations, LeafNames, NamedByAsset, NamedBySignature, NamedByWallet, NamedByCertificate;
    EveryEmitter(evidence, name);
    SelectedSomewhere(evidence, name);
    SignedSomewhere(evidence, name);
    LeafNamesAre(casing, evidence, name);
  }

  lemma LeafNamesAre(casing: Casing, evidence: seq<Evidence>, name: string)
    ensures name in LeafNames(casing, evidence) <==> NamedByCertificate(casing, evidence, name)
  {
    hide PublicKeyName, Certificates;
  }

  lemma NameSetIs(emitter: Emitter, evidence: seq<Evidence>)
    ensures forall n :: n in NameSet(emitter, evidence) <==> n in SelectedNames(emitter, evidence)
  {
    hide SelectedNames;
  }

  lemma EveryEmitter(evidence: seq<Evidence>, name: string)
    ensures name in NamesBefore(evidence) <==>
      (exists emitter :: name in SelectedNames(emitter, evidence)) || NamedByWallet(evidence, name)
  {
    hide SelectedNames, NameSet, NamedByWallet, WalletNames, NamesBefore;
    WalletNamesAre(evidence, name);
    if emitter :| name in SelectedNames(emitter, evidence) {
      NameSetIs(emitter, evidence);
      EmitterIsBefore(emitter, evidence, name);
    }
    if NamedByWallet(evidence, name) {
      WalletIsBefore(evidence, name);
    }
    if name in NamesBefore(evidence) && name !in WalletNames(evidence) {
      var emitter := EmitterOf(evidence, name);
      NameSetIs(emitter, evidence);
      assert name in SelectedNames(emitter, evidence);
    } else if name in NamesBefore(evidence) {
      assert NamedByWallet(evidence, name);
    }
  }

  lemma WalletIsBefore(evidence: seq<Evidence>, name: string)
    requires name in WalletNames(evidence)
    ensures name in NamesBefore(evidence)
  {
    hide NameSet, WalletNames;
  }

  lemma EmitterOf(evidence: seq<Evidence>, name: string) returns (emitter: Emitter)
    requires name in NamesBefore(evidence) && name !in WalletNames(evidence)
    ensures name in NameSet(emitter, evidence)
  {
    hide NameSet, WalletNames;
    if name in NameSet(Groups, evidence) { return Groups; }
    if name in NameSet(HostKeys, evidence) { return HostKeys; }
    if name in NameSet(WalletSignatures, evidence) { return WalletSignatures; }
    if name in NameSet(SshKex, evidence) { return SshKex; }
    if name in NameSet(SshCiphers, evidence) { return SshCiphers; }
    if name in NameSet(SshMacs, evidence) { return SshMacs; }
    if name in NameSet(IkeCiphers, evidence) { return IkeCiphers; }
    if name in NameSet(IkeMacs, evidence) { return IkeMacs; }
    if name in NameSet(IkeGroups, evidence) { return IkeGroups; }
    if name in NameSet(CipherSuites, evidence) { return CipherSuites; }
    return LegacyCiphers;
  }

  lemma EmitterIsBefore(emitter: Emitter, evidence: seq<Evidence>, name: string)
    requires name in NameSet(emitter, evidence)
    ensures name in NamesBefore(evidence)
  {
    hide NameSet, WalletNames;
  }

  lemma WalletNamesAre(evidence: seq<Evidence>, name: string)
    ensures name in WalletNames(evidence) <==> NamedByWallet(evidence, name)
  {
    hide IsRecoveredKey, RecoveredKeys;
  }

  lemma SelectedSomewhere(evidence: seq<Evidence>, name: string)
    ensures (exists emitter :: name in SelectedNames(emitter, evidence)) <==> NamedByAsset(evidence, name)
  {
    hide Select, NamesAsset, SelectedNames;
    if emitter :| name in SelectedNames(emitter, evidence) {
      var i :| 0 <= i < |evidence| && Selects(emitter, evidence[i]) && Select(emitter, evidence[i]) == Some(name);
      EmittersCover(evidence[i], name);
    }
    if NamedByAsset(evidence, name) {
      var i :| 0 <= i < |evidence| && NamesAsset(evidence[i], name);
      EmittersCover(evidence[i], name);
      var emitter :| Selects(emitter, evidence[i]) && Select(emitter, evidence[i]) == Some(name);
      assert name in SelectedNames(emitter, evidence);
    }
  }

  lemma SignedSomewhere(evidence: seq<Evidence>, name: string)
    ensures name in HandshakeNames(Negotiations(evidence)) <==> NamedBySignature(evidence, name)
  {
    hide HandshakeNames, Negotiations, IsNegotiation;
    var es := Negotiations(evidence);
    if NamedBySignature(evidence, name) {
      var i :| 0 <= i < |evidence| && IsNegotiation(evidence[i]) && evidence[i].handshakeSignature == Some(name);
      assert evidence[i] in es;
    }
  }

  function AllRequested(casing: Casing, evidence: seq<Evidence>): set<string> {
    Requested(Requests(casing, evidence))
  }

  lemma RequestedParts(casing: Casing, evidence: seq<Evidence>)
    ensures AllRequested(casing, evidence)
         == Requested(AssetsBefore(casing, evidence))
            + Requested(ProtocolRequests(casing, Versions(evidence), evidence))
            + Requested(Handshakes(casing, evidence)) + Requested(LeafRequests(casing, evidence))
  {
    hide Requested, AssetsBefore, ProtocolRequests, Handshakes, LeafRequests;
    var a, p := AssetsBefore(casing, evidence), ProtocolRequests(casing, Versions(evidence), evidence);
    var h, l := Handshakes(casing, evidence), LeafRequests(casing, evidence);
    RequestedConcat(a, p);
    RequestedConcat(a + p, h);
    RequestedConcat(a + p + h, l);
  }

  /** The algorithm references among assets are those of their names. */
  lemma AssetRefs(casing: Casing, rs: seq<Request>, r: string)
    requires AreAssets(casing, rs) && KindOf(r) == Algorithm
    ensures r in Requested(rs) <==> exists n :: n in AlgorithmNames(rs) && r == AlgorithmRef(casing, n)
  {
    hide AlgorithmRef, KindOf;
    if r in Requested(rs) {
      var i :| 0 <= i < |rs| && rs[i].component.ref == r;
      assert IsAsset(casing, rs[i]);
      assert rs[i].component.name in AlgorithmNames(rs);
    }
    if n :| n in AlgorithmNames(rs) && r == AlgorithmRef(casing, n) {
      var i :| 0 <= i < |rs| && rs[i].component.asset.AlgorithmAsset? && rs[i].component.name == n;
      assert IsAsset(casing, rs[i]);
      assert rs[i].component.ref == r;
    }
  }

  predicate AreProtocols(rs: seq<Request>) {
    forall i :: 0 <= i < |rs| ==> !rs[i].guarded && rs[i].component.asset.ProtocolAsset? && KindOf(rs[i].component.ref) == Protocol
  }

  lemma ProtocolRequestsAre(casing: Casing, versions: seq<Version>, evidence: seq<Evidence>)
    ensures AreProtocols(ProtocolRequests(casing, versions, evidence))
  {
    hide ProtocolRef, ProtocolSuites, KindOf;
    var rs := ProtocolRequests(casing, versions, evidence);
    forall i | 0 <= i < |rs|
      ensures !rs[i].guarded && rs[i].component.asset.ProtocolAsset? && KindOf(rs[i].component.ref) == Protocol
    {
      KindsOfRefs(casing, versions[i].protocol, versions[i].version, 0);
    }
  }

  /** Every part of the requests, with what it names and where its references lead. */
  lemma PartsAre(casing: Casing, evidence: seq<Evidence>)
    requires CasesAscii(casing)
    ensures var known := AllRequested(casing, evidence);
      && NamedAssets(casing, AssetsBefore(casing, evidence), known, NamesBefore(evidence))
      && NamedAssets(casing, Handshakes(casing, evidence), known, HandshakeNames(Negotiations(evidence)))
      && AreProtocols(ProtocolRequests(casing, Versions(evidence), evidence))
      && Resolve(LeafRequests(casing, evidence), known)
      && AlgorithmNames(LeafRequests(casing, evidence)) == LeafNames(casing, evidence)
      && (LeafRequests(casing, evidence) != [] ==>
            var l := LeafRequests(casing, evidence);
            AreAssets(casing, l[..|l| - 1]) && l[|l| - 1] == LeafRequest(casing, Certificates(evidence)[0]))
  {
    hide CasesAscii, NamedAssets, AssetsBefore, Handshakes, ProtocolRequests, Requested, AllRequested, SelectedNames,
         NamesBefore, HandshakeNames, Negotiations, CertificateRequests, CertificateNames, AlgorithmRef, LeafRequest,
         AreProtocols, AreAssets, Resolve, AlgorithmNames, Certificates;
    var known := AllRequested(casing, evidence);
    RequestedParts(casing, evidence);
    AssetsBeforeAre(casing, evidence, known);
    GroupsAreKnown(casing, evidence);
    HandshakesAre(casing, evidence, known);
    ProtocolRequestsAre(casing, Versions(evidence), evidence);
    LeafRequestsAre(casing, evidence, known);
  }

  lemma LeafRequestsAre(casing: Casing, evidence: seq<Evidence>, known: set<string>)
    requires Requested(LeafRequests(casing, evidence)) <= known
    ensures var l := LeafRequests(casing, evidence);
      && Resolve(l, known) && AlgorithmNames(l) == LeafNames(casing, evidence)
      && (l != [] <==> Certificates(evidence) != [])
      && (l != [] ==> AreAssets(casing, l[..|l| - 1]) && l[|l| - 1] == LeafRequest(casing, Certificates(evidence)[0]))
  {
    hide Certificates, CertificateRequests, CertificateNames, AreAssets, Requested, LeafRequest;
    var l := LeafRequests(casing, evidence);
    if Certificates(evidence) != [] {
      CertificateRequestsAre(casing, Certificates(evidence)[0]);
      ResolveMore(l, Requested(l), known);
    }
  }

  lemma ResolveMore(rs: seq<Request>, few: set<string>, many: set<string>)
    requires Resolve(rs, few) && few <= many
    ensures Resolve(rs, many)
  {
  }

  lemma GroupsAreKnown(casing: Casing, evidence: seq<Evidence>)
    ensures forall n :: n in SelectedNames(Groups, evidence) ==> AlgorithmRef(casing, n) in AllRequested(casing, evidence)
  {
    hide SelectedNames, AlgorithmRef, AssetsBefore, AllRequested, Requested, KindOf, AlgorithmNames;
    var rs := AssetRequests(casing, Groups, evidence);
    RequestedParts(casing, evidence);
    WalletIsRequested(casing, evidence);
    AssetRequestsAre(casing, Groups, evidence, {});
    forall n | n in SelectedNames(Groups, evidence)
      ensures AlgorithmRef(casing, n) in Requested(rs)
    {
      assert KindOf(AlgorithmRef(casing, n)) == Algorithm by { KindsOfRefs(casing, n, "", 0); }
      AssetRefs(casing, rs, AlgorithmRef(casing, n));
      assert n in NameSet(Groups, evidence);
    }
  }

  /** The inventory is complete and honest: it holds an algorithm's reference exactly when evidence
      names an algorithm with that reference. */
  lemma AlgorithmInventory(casing: Casing, evidence: seq<Evidence>, r: string)
    requires CasesAscii(casing) && KindOf(r) == Algorithm
    ensures r in AllRequested(casing, evidence) <==> exists n :: IsNamed(casing, evidence, n) && r == AlgorithmRef(casing, n)
  {
    hide CasesAscii, AssetsBefore, Handshakes, ProtocolRequests, LeafRequests, AllRequested, NamesBefore, HandshakeNames,
         Negotiations, IsNamed, AlgorithmRef, KindOf, LeafNames, AlgorithmNames, Requested, Resolve;
    PartsAre(casing, evidence);
    RequestedParts(casing, evidence);
    var a, h, l := AssetsBefore(casing, evidence), Handshakes(casing, evidence), LeafRequests(casing, evidence);
    AssetRefs(casing, a, r);
    AssetRefs(casing, h, r);
    ProtocolRefsAre(ProtocolRequests(casing, Versions(evidence), evidence), r);
    LeafRefs(casing, evidence, r);
    if r in AllRequested(casing, evidence) {
      var n :| (n in NamesBefore(evidence) || n in HandshakeNames(Negotiations(evidence)) || n in LeafNames(casing, evidence))
               && r == AlgorithmRef(casing, n);
      AllNamesAre(casing, evidence, n);
    }
    if n :| IsNamed(casing, evidence, n) && r == AlgorithmRef(casing, n) {
      AllNamesAre(casing, evidence, n);
    }
  }

  lemma ProtocolRefsAre(rs: seq<Request>, r: string)
    requires AreProtocols(rs) && KindOf(r) != Protocol
    ensures r !in Requested(rs)
  {
    hide KindOf;
  }

  lemma LeafRefs(casing: Casing, evidence: seq<Evidence>, r: string)
    requires CasesAscii(casing) && KindOf(r) == Algorithm
    ensures r in Requested(LeafRequests(casing, evidence)) <==>
      exists n :: n in LeafNames(casing, evidence) && r == AlgorithmRef(casing, n)
  {
    hide CasesAscii, AlgorithmRef, KindOf, CertificateRequests, CertificateNames, PublicKeyName;
    var l := LeafRequests(casing, evidence);
    if Certificates(evidence) != [] {
      var c := Certificates(evidence)[0];
      CertificateRequestsAre(casing, c);
      var init, leaf := l[..|l| - 1], l[|l| - 1];
      assert l == init + [leaf];
      RequestedConcat(init, [leaf]);
      AlgorithmNamesConcat(init, [leaf]);
      assert AlgorithmNames([leaf]) == {};
      AssetRefs(casing, init, r);
      KindsOfRefs(casing, "", "", 0);
      assert r !in Requested([leaf]);
    }
  }
}
