/** Scan results as the bill of materials reads them, and which names its emitters select. */
module ScanEvidence {
  import opened Wrappers
  import opened Sequences
  import opened Sorting
  import opened Naming

  datatype Observation = Negotiated | Offered | Observed | Inferred | NotOffered | NotTestable | NoResponse

  predicate Positive(o: Observation) {
    o == Negotiated || o == Offered || o == Observed
  }

  /** A group seen negotiated outranks one merely offered or observed. */
  function Rank(o: Observation): nat
    requires Positive(o)
  {
    match o
    case Observed => 0
    case Offered => 1
    case Negotiated => 2
  }

  datatype Certificate = Certificate(subject: string, signatureAlgorithm: string, keyAlgorithm: Option<string>, keyBits: Option<nat>)

  /** One observation; `kind` is its evidence type. */
  datatype Evidence = Evidence(
    id: string, kind: string, observation: Observation, protocol: string,
    protocolVersion: Option<string>, cipherSuite: Option<string>, algorithm: Option<string>,
    negotiatedGroup: Option<string>, handshakeSignature: Option<string>, keyBits: Option<nat>,
    publicKey: Option<string>, certificate: Option<Certificate>)

  datatype Finding = Finding(
    rule: string, negotiatedGroup: Option<string>, algorithm: Option<string>,
    protocol: string, protocolVersion: Option<string>)

  datatype Dependency =
    | OpenSsl(name: string, path: Option<string>, version: Option<string>,
              tls13: bool, mlkem: bool, failed: bool)
    | External(name: string, path: Option<string>, version: Option<string>, failed: bool)

  datatype Scan = Scan(evidence: seq<Evidence>, findings: seq<Finding>, dependencies: seq<Dependency>, version: string)

  // ----- the emitters' selections -----

  const WALLET_SIGNATURE: string := "wallet.signature"
  const LEGACY_CIPHER: string := "tls.legacy.cipher"
  const TLS_NEGOTIATION: string := "tls.negotiation"
  const IKE_KINDS: set<string> := {"ike.cipher", "ike.dh_group", "ike.prf", "ike.integrity"}

  /** Kinds the generic emitter leaves to others. */
  const SPECIALIZED: set<string> :=
    {WALLET_SIGNATURE, "ssh.hostkey", "ssh.kex", "ssh.kex.weak", "ssh.cipher", "ssh.mac", LEGACY_CIPHER} + IKE_KINDS

  datatype Emitter = Groups | HostKeys | WalletSignatures | SshKex | SshCiphers | SshMacs
    | IkeCiphers | IkeMacs | IkeGroups | CipherSuites | LegacyCiphers

  /** What an emitter takes as the asset name of one evidence. */
  function Select(emitter: Emitter, e: Evidence): Option<string> {
    match emitter
    case Groups => if e.kind !in SPECIALIZED then e.negotiatedGroup else None
    case HostKeys => if e.kind == "ssh.hostkey" then e.negotiatedGroup else None
    case WalletSignatures => if e.kind == WALLET_SIGNATURE then e.negotiatedGroup else None
    case SshKex => if e.kind == "ssh.kex" then e.negotiatedGroup else None
    case SshCiphers => if e.kind == "ssh.cipher" then e.negotiatedGroup else None
    case SshMacs => if e.kind == "ssh.mac" then e.negotiatedGroup else None
    case IkeCiphers => if e.kind == "ike.cipher" then e.algorithm else None
    case IkeMacs => if e.kind in {"ike.prf", "ike.integrity"} then e.algorithm else None
    case IkeGroups => if e.kind == "ike.dh_group" then e.algorithm else None
    case CipherSuites => if e.kind != LEGACY_CIPHER then e.cipherSuite else None
    case LegacyCiphers => if e.kind == LEGACY_CIPHER then e.negotiatedGroup else None
  }

  predicate Selects(emitter: Emitter, e: Evidence) {
    Positive(e.observation) && Truthy(Select(emitter, e))
  }

  function SelectedNames(emitter: Emitter, evidence: seq<Evidence>): (names: seq<string>)
    ensures forall n :: n in names <==> exists i :: 0 <= i < |evidence| && Selects(emitter, evidence[i])
                                                    && Select(emitter, evidence[i]) == Some(n)
  {
    if evidence == [] then []
    else
      var init, last := evidence[..|evidence| - 1], evidence[|evidence| - 1];
      assert evidence == init + [last];
      SelectedNames(emitter, init) + if Selects(emitter, last) then [Select(emitter, last).value] else []
  }

  /** The strongest observation of every selected name. */
  function Strongest(emitter: Emitter, evidence: seq<Evidence>): map<string, Observation> {
    if evidence == [] then map[]
    else
      var before, last := Strongest(emitter, evidence[..|evidence| - 1]), evidence[|evidence| - 1];
      if !Selects(emitter, last) then before
      else
        var name := Select(emitter, last).value;
        if name !in before || !Positive(before[name]) || Rank(last.observation) > Rank(before[name])
        then before[name := last.observation] else before
  }

  lemma {:induction false} StrongestNames(emitter: Emitter, evidence: seq<Evidence>)
    ensures forall n :: n in Strongest(emitter, evidence) <==> n in SelectedNames(emitter, evidence)
    ensures forall n :: n in Strongest(emitter, evidence) ==> Positive(Strongest(emitter, evidence)[n])
  {
    hide Select;
    if evidence == [] {
    } else {
      StrongestNames(emitter, evidence[..|evidence| - 1]);
    }
  }

  /** The evidence at `i` selects this name with this observation. */
  predicate SelectedAs(emitter: Emitter, e: Evidence, name: string, o: Observation) {
    Selects(emitter, e) && Select(emitter, e) == Some(name) && e.observation == o
  }

  lemma NotSelected(emitter: Emitter, evidence: seq<Evidence>, name: string)
    requires name !in Strongest(emitter, evidence)
    ensures forall i :: 0 <= i < |evidence| && Selects(emitter, evidence[i]) ==> Select(emitter, evidence[i]) != Some(name)
  {
    hide Select, Strongest;
    StrongestNames(emitter, evidence);
    assert name !in SelectedNames(emitter, evidence);
  }

  /** The observation kept for a name is one of its own, and none of its others outranks it. */
  lemma {:induction false} StrongestIsMaximum(emitter: Emitter, evidence: seq<Evidence>, name: string)
    requires name in Strongest(emitter, evidence)
    ensures var o := Strongest(emitter, evidence)[name];
      && Positive(o)
      && (exists i :: 0 <= i < |evidence| && SelectedAs(emitter, evidence[i], name, o))
      && (forall i :: 0 <= i < |evidence| && Selects(emitter, evidence[i]) && Select(emitter, evidence[i]) == Some(name)
            ==> Rank(evidence[i].observation) <= Rank(o))
  {
    hide Select, SelectedNames;
    var init, last := evidence[..|evidence| - 1], evidence[|evidence| - 1];
    assert evidence == init + [last];
    var before, o := Strongest(emitter, init), Strongest(emitter, evidence)[name];
    if name in before {
      StrongestIsMaximum(emitter, init, name);
    } else {
      NotSelected(emitter, init, name);
    }
    if name in before && before[name] == o {
      var i :| 0 <= i < |init| && SelectedAs(emitter, init[i], name, o);
      assert evidence[i] == init[i];
    } else {
      assert SelectedAs(emitter, evidence[|init|], name, o);
    }
  }

  // ----- protocols -----

  datatype Version = Version(protocol: string, version: string)

  predicate NamesVersion(e: Evidence) {
    Positive(e.observation) && Truthy(e.protocolVersion)
  }

  function VersionOf(e: Evidence): Version
    requires NamesVersion(e)
  {
    Version(e.protocol, e.protocolVersion.value)
  }

  function PositiveVersions(evidence: seq<Evidence>): (versions: seq<Version>)
    ensures forall v :: v in versions <==>
      exists i :: 0 <= i < |evidence| && NamesVersion(evidence[i]) && VersionOf(evidence[i]) == v
  {
    if evidence == [] then []
    else
      var init, last := evidence[..|evidence| - 1], evidence[|evidence| - 1];
      assert evidence == init + [last] && evidence[|init|] == last;
      assert forall i :: 0 <= i < |init| ==> evidence[i] == init[i];
      PositiveVersions(init) + if NamesVersion(last) then [VersionOf(last)] else []
  }

  const BY_VERSION: (Version, Version) -> bool :=
    (a: Version, b: Version) => (a.protocol != b.protocol && StringLeq(a.protocol, b.protocol))
                               || (a.protocol == b.protocol && StringLeq(a.version, b.version))

  /** Every observed protocol and version, sorted, each once. */
  function Versions(evidence: seq<Evidence>): seq<Version> {
    Sort(BY_VERSION, FirstOccurrences(PositiveVersions(evidence)))
  }

  lemma VersionsOf(evidence: seq<Evidence>)
    ensures NoDuplicates(Versions(evidence))
    ensures forall v :: v in Versions(evidence) <==> v in PositiveVersions(evidence)
  {
    FirstOccurrencesAreDistinct(PositiveVersions(evidence));
    SortKeeps(BY_VERSION, FirstOccurrences(PositiveVersions(evidence)));
  }

  predicate NamesSuite(e: Evidence, v: Version) {
    NamesVersion(e) && VersionOf(e) == v && Truthy(e.cipherSuite)
  }

  /** The suites seen with a protocol version. */
  function SuitesOf(v: Version, evidence: seq<Evidence>): (names: seq<string>)
    ensures forall n :: n in names <==>
      exists i :: 0 <= i < |evidence| && NamesSuite(evidence[i], v) && evidence[i].cipherSuite == Some(n)
  {
    if evidence == [] then []
    else
      var init, last := evidence[..|evidence| - 1], evidence[|evidence| - 1];
      assert evidence == init + [last];
      SuitesOf(v, init) + if NamesSuite(last, v) then [last.cipherSuite.value] else []
  }

  /** The groups, among the emitted ones, seen with a suite of a protocol version. */
  function GroupsOf(v: Version, suite: string, emitted: seq<string>, evidence: seq<Evidence>): (names: seq<string>)
    ensures forall n :: n in names <==>
      n in emitted && exists i :: 0 <= i < |evidence| && SeenWith(evidence[i], v, suite) && evidence[i].negotiatedGroup == Some(n)
  {
    if evidence == [] then []
    else
      var init, last := evidence[..|evidence| - 1], evidence[|evidence| - 1];
      assert evidence == init + [last];
      GroupsOf(v, suite, emitted, init)
      + if SeenWith(last, v, suite) && last.negotiatedGroup.Some? && last.negotiatedGroup.value in emitted
        then [last.negotiatedGroup.value] else []
  }

  /** Positive evidence of a protocol version and a suite. */
  predicate SeenWith(e: Evidence, v: Version, suite: string) {
    NamesVersion(e) && VersionOf(e) == v && e.cipherSuite == Some(suite)
  }

  // ----- other evidence -----

  /** A positive TLS negotiation. */
  predicate IsNegotiation(e: Evidence) {
    e.protocol == "tls" && e.kind == TLS_NEGOTIATION && Positive(e.observation)
  }

  function Negotiations(evidence: seq<Evidence>): (r: seq<Evidence>)
    ensures forall e :: e in r <==> e in evidence && IsNegotiation(e)
  {
    if evidence == [] then []
    else
      assert evidence == [evidence[0]] + evidence[1..];
      (if IsNegotiation(evidence[0]) then [evidence[0]] else []) + Negotiations(evidence[1..])
  }

  const BY_ID: (Evidence, Evidence) -> bool := (a: Evidence, b: Evidence) => StringLeq(a.id, b.id)

  predicate IsRecoveredKey(e: Evidence) {
    e.kind == "pubkey" && Truthy(e.publicKey)
  }

  function RecoveredKeys(evidence: seq<Evidence>): (keys: seq<string>)
    ensures keys != [] <==> exists i :: 0 <= i < |evidence| && IsRecoveredKey(evidence[i])
  {
    if evidence == [] then []
    else
      assert evidence == [evidence[0]] + evidence[1..];
      (if IsRecoveredKey(evidence[0]) then [evidence[0].publicKey.value] else []) + RecoveredKeys(evidence[1..])
  }

  /** Certificates captured by observed evidence. */
  function Certificates(evidence: seq<Evidence>): (r: seq<Certificate>) {
    if evidence == [] then []
    else
      (if evidence[0].observation == Observed && evidence[0].certificate.Some?
       then [evidence[0].certificate.value] else [])
      + Certificates(evidence[1..])
  }

  // ----- what is read, spelled out -----

  /** Negotiations are taken in ascending order of their ids. */
  lemma NegotiationsAscend(evidence: seq<Evidence>, i: nat, j: nat)
    requires i < j < |Sort(BY_ID, Negotiations(evidence))|
    ensures var es := Sort(BY_ID, Negotiations(evidence)); StringLeq(es[i].id, es[j].id)
    ensures forall e :: e in Sort(BY_ID, Negotiations(evidence)) <==> e in evidence && IsNegotiation(e)
  {
    hide StringLeq, Sort, IsNegotiation, Negotiations;
    forall a: Evidence, b: Evidence, c: Evidence
      ensures BY_ID(a, b) || BY_ID(b, a)
      ensures BY_ID(a, b) && BY_ID(b, c) ==> BY_ID(a, c)
    {
      StringOrder(a.id, b.id, c.id);
    }
    SortSorts(BY_ID, Negotiations(evidence));
    SortKeeps(BY_ID, Negotiations(evidence));
  }

  /** Versions are taken in ascending order, protocol by protocol. */
  lemma VersionsAscend(evidence: seq<Evidence>, i: nat, j: nat)
    requires i < j < |Versions(evidence)|
    ensures var vs := Versions(evidence);
      StringLeq(vs[i].protocol, vs[j].protocol) && (vs[i].protocol == vs[j].protocol ==> StringLeq(vs[i].version, vs[j].version))
  {
    hide StringLeq, Sort, PositiveVersions, FirstOccurrences;
    forall a: Version, b: Version, c: Version
      ensures BY_VERSION(a, b) || BY_VERSION(b, a)
      ensures BY_VERSION(a, b) && BY_VERSION(b, c) ==> BY_VERSION(a, c)
      ensures BY_VERSION(a, b) ==>
        StringLeq(a.protocol, b.protocol) && (a.protocol == b.protocol ==> StringLeq(a.version, b.version))
    {
      StringOrder(a.protocol, b.protocol, c.protocol);
      StringOrder(b.protocol, a.protocol, c.protocol);
      StringOrder(b.protocol, c.protocol, a.protocol);
      StringOrder(a.version, b.version, c.version);
    }
    SortSorts(BY_VERSION, FirstOccurrences(PositiveVersions(evidence)));
  }

  /** A recovered key is the public key of evidence of that kind; keys keep the order of evidence. */
  lemma {:induction false} RecoveredKeysNext(evidence: seq<Evidence>, e: Evidence)
    ensures RecoveredKeys([]) == []
    ensures RecoveredKeys(evidence + [e])
         == RecoveredKeys(evidence)
            + if e.kind == "pubkey" && e.publicKey.Some? && e.publicKey.value != "" then [e.publicKey.value] else []
  {
    if evidence == [] {
      assert [e][1..] == [];
    } else {
      assert (evidence + [e])[1..] == evidence[1..] + [e];
      RecoveredKeysNext(evidence[1..], e);
    }
  }

  /** A negotiation is positive evidence of its kind on TLS. */
  lemma NegotiationIff(e: Evidence)
    ensures IsNegotiation(e) <==>
      e.protocol == "tls" && e.kind == "tls.negotiation" && e.observation in {Negotiated, Offered, Observed}
  {
  }

  /** A certificate is captured where it was observed, nowhere else; certificates keep the order of evidence. */
  lemma {:induction false} CertificatesNext(evidence: seq<Evidence>, e: Evidence)
    ensures Certificates([]) == []
    ensures Certificates(evidence + [e])
         == Certificates(evidence) + if e.observation == Observed && e.certificate.Some? then [e.certificate.value] else []
  {
    if evidence == [] {
      assert [e][1..] == [];
    } else {
      var all := evidence + [e];
      var first := if all[0].observation == Observed && all[0].certificate.Some? then [all[0].certificate.value] else [];
      assert all[1..] == evidence[1..] + [e];
      CertificatesNext(evidence[1..], e);
      assert Certificates(all) == first + Certificates(all[1..]);
    }
  }
}
