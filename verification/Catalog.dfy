/** Compilation of crypto catalog definitions into lookup indexes, and classification by them. */
module Catalog {
  import opened Wrappers
  import opened Sequences

  datatype Protocol = Tls | Ssh | Ike | Certificate

  datatype Role =
    | KeyEstablishment | Confidentiality | Authentication | Integrity | Prf
    | TraditionalComponent | PostQuantumComponent

  datatype Axis = Classical | Quantum | Deployment

  datatype Verdict =
    | ClassicallyWeak | QuantumVulnerable | QuantumSafe | Discouraged | Prohibited | UnknownVerdict

  datatype Identifier = Identifier(ns: string, value: string, caseSensitive: bool)

  datatype Rating = Rating(axis: Axis, verdict: Verdict, sources: seq<string>)

  datatype Algorithm = Algorithm(
    id: string, identifiers: seq<Identifier>, factSources: seq<string>, ratings: seq<Rating>)

  datatype Use = Use(role: Role, algorithmId: string)

  datatype Entry = Entry(
    id: string, protocol: Protocol, identifiers: seq<Identifier>, uses: seq<Use>, ratings: seq<Rating>)

  /** A definition; of a source record only its id matters here. */
  datatype Definition = Definition(sources: seq<string>, algorithms: seq<Algorithm>, entries: seq<Entry>)

  datatype DigestScope = CanonicalDefinition | PublishedBytes

  datatype ReceiptRequest = ReceiptRequest(sha256: Option<string>, scope: Option<DigestScope>)

  /** Python's `str.casefold`. */
  type Fold = string -> string

  // ----- identifiers and their index -----

  /** One identifier in its namespace, with the thing it names. */
  datatype Named<N, O> = Named(ns: N, identifier: Identifier, owner: O)

  function Normalized(fold: Fold, identifier: Identifier): string {
    if identifier.caseSensitive then identifier.value else fold(identifier.value)
  }

  function Key<N, O>(fold: Fold, item: Named<N, O>): (N, string) {
    (item.ns, Normalized(fold, item.identifier))
  }

  /** Every namespace has one case policy. */
  predicate OnePolicy<N(==), O>(items: seq<Named<N, O>>) {
    forall i, j :: 0 <= i < j < |items| && items[i].ns == items[j].ns ==>
      items[i].identifier.caseSensitive == items[j].identifier.caseSensitive
  }

  /** No two identifiers of a namespace are the same once normalized. */
  predicate UniqueKeys<N(==), O>(fold: Fold, items: seq<Named<N, O>>) {
    forall i, j :: 0 <= i < j < |items| ==> Key(fold, items[i]) != Key(fold, items[j])
  }

  datatype Index<!N, O> = Index(policies: map<N, bool>, owners: map<(N, string), O>)

  /** The policy map holds exactly the namespaces of the items, each with its one policy. */
  ghost predicate PoliciesOf<N(!new), O>(items: seq<Named<N, O>>, policies: map<N, bool>) {
    && (forall i :: 0 <= i < |items| ==>
          items[i].ns in policies && policies[items[i].ns] == items[i].identifier.caseSensitive)
    && (forall ns :: ns in policies ==> exists i :: 0 <= i < |items| && items[i].ns == ns)
  }

  /** The owner map holds exactly the keys of the items, each with its owner. */
  ghost predicate OwnersOf<N(!new), O>(fold: Fold, items: seq<Named<N, O>>, owners: map<(N, string), O>) {
    && (forall i :: 0 <= i < |items| ==>
          Key(fold, items[i]) in owners && owners[Key(fold, items[i])] == items[i].owner)
    && (forall k :: k in owners ==> exists i :: 0 <= i < |items| && Key(fold, items[i]) == k)
  }

  /** The index says what a scan of the items says. */
  ghost predicate Indexes<N(!new), O>(fold: Fold, items: seq<Named<N, O>>, index: Index<N, O>) {
    && OnePolicy(items) && UniqueKeys(fold, items)
    && PoliciesOf(items, index.policies) && OwnersOf(fold, items, index.owners)
  }

  datatype IdentifierError = PolicyConflict | DuplicateIdentifier

  lemma Extended<N(!new), O>(fold: Fold, before: seq<Named<N, O>>, item: Named<N, O>, index: Index<N, O>)
    requires Indexes(fold, before, index)
    requires item.ns in index.policies ==> index.policies[item.ns] == item.identifier.caseSensitive
    requires Key(fold, item) !in index.owners
    ensures Indexes(fold, before + [item],
      Index(index.policies[item.ns := item.identifier.caseSensitive], index.owners[Key(fold, item) := item.owner]))
  {
    hide Key;
    PolicyExtended(before, item, index.policies);
    OwnerExtended(fold, before, item, index.owners);
  }

  lemma PolicyExtended<N(!new), O>(before: seq<Named<N, O>>, item: Named<N, O>, policies: map<N, bool>)
    requires OnePolicy(before) && PoliciesOf(before, policies)
    requires item.ns in policies ==> policies[item.ns] == item.identifier.caseSensitive
    ensures OnePolicy(before + [item])
    ensures PoliciesOf(before + [item], policies[item.ns := item.identifier.caseSensitive])
  {
    var all, updated := before + [item], policies[item.ns := item.identifier.caseSensitive];
    assert all[|before|] == item;
    forall ns | ns in updated
      ensures exists i :: 0 <= i < |all| && all[i].ns == ns
    {
      if ns in policies {
        var i :| 0 <= i < |before| && before[i].ns == ns;
        assert all[i].ns == ns;
      }
    }
  }

  lemma OwnerExtended<N(!new), O>(
      fold: Fold, before: seq<Named<N, O>>, item: Named<N, O>, owners: map<(N, string), O>)
    requires UniqueKeys(fold, before) && OwnersOf(fold, before, owners) && Key(fold, item) !in owners
    ensures UniqueKeys(fold, before + [item])
    ensures OwnersOf(fold, before + [item], owners[Key(fold, item) := item.owner])
  {
    hide Key;
    var all, updated := before + [item], owners[Key(fold, item) := item.owner];
    assert all[|before|] == item;
    forall k | k in updated
      ensures exists i :: 0 <= i < |all| && Key(fold, all[i]) == k
    {
      if k in owners {
        var i :| 0 <= i < |before| && Key(fold, before[i]) == k;
        assert Key(fold, all[i]) == k;
      } else {
        assert Key(fold, all[|before|]) == k;
      }
    }
  }

  /** A later identifier that clashes with an earlier one makes the whole list clash. */
  lemma Clash<N, O>(fold: Fold, before: seq<Named<N, O>>, all: seq<Named<N, O>>, k: nat)
    requires before < all && k < |before|
    ensures all[k].ns == all[|before|].ns && all[k].identifier.caseSensitive != all[|before|].identifier.caseSensitive
      ==> !OnePolicy(all)
    ensures Key(fold, all[k]) == Key(fold, all[|before|]) ==> !UniqueKeys(fold, all)
  {
  }

  /** The inner loop of both compilers: register the identifiers of one owner after `done`. */
  method Register<N(==, !new), O>(
      fold: Fold, ghost done: seq<Named<N, O>>, items: seq<Named<N, O>>, index: Index<N, O>)
    returns (r: Result<Index<N, O>, IdentifierError>)
    requires Indexes(fold, done, index)
    ensures r.Ok? <==> OnePolicy(done + items) && UniqueKeys(fold, done + items)
    ensures r.Ok? ==> Indexes(fold, done + items, r.value)
  {
    hide Indexes, OnePolicy, UniqueKeys;
    var policies, owners := index.policies, index.owners;
    assert done + items[..0] == done;
    ghost var all := done + items;
    for i := 0 to |items|
      invariant Indexes(fold, done + items[..i], Index(policies, owners))
    {
      var item := items[i];
      ghost var before := done + items[..i];
      assert before < all && all[|before|] == item;
      assert done + items[..i + 1] == before + [item];
      if item.ns in policies && policies[item.ns] != item.identifier.caseSensitive {
        ghost var k := PolicyOf(fold, before, Index(policies, owners), item.ns);
        Clash(fold, before, all, k);
        return Err(PolicyConflict);
      }
      var updated := policies[item.ns := item.identifier.caseSensitive];
      if Key(fold, item) in owners {
        ghost var k := OwnerOf(fold, before, Index(policies, owners), Key(fold, item));
        Clash(fold, before, all, k);
        return Err(DuplicateIdentifier);
      }
      Extended(fold, before, item, Index(policies, owners));
      policies, owners := updated, owners[Key(fold, item) := item.owner];
    }
    assert items[..|items|] == items;
    IndexedIsValid(fold, all, Index(policies, owners));
    return Ok(Index(policies, owners));
  }

  lemma IndexedIsValid<N(!new), O>(fold: Fold, items: seq<Named<N, O>>, index: Index<N, O>)
    requires Indexes(fold, items, index)
    ensures OnePolicy(items) && UniqueKeys(fold, items)
  {
  }

  lemma PolicyOf<N(!new), O>(fold: Fold, items: seq<Named<N, O>>, index: Index<N, O>, ns: N) returns (k: nat)
    requires Indexes(fold, items, index) && ns in index.policies
    ensures k < |items| && items[k].ns == ns && items[k].identifier.caseSensitive == index.policies[ns]
  {
    k :| 0 <= k < |items| && items[k].ns == ns;
  }

  lemma OwnerOf<N(!new), O>(fold: Fold, items: seq<Named<N, O>>, index: Index<N, O>, key: (N, string)) returns (k: nat)
    requires Indexes(fold, items, index) && key in index.owners
    ensures k < |items| && Key(fold, items[k]) == key && items[k].owner == index.owners[key]
  {
    k :| 0 <= k < |items| && Key(fold, items[k]) == key;
  }

  // ----- owners and their identifiers, in order -----

  function ItemsOf<N, O>(ns: Identifier -> N, owner: O, identifiers: seq<Identifier>): (items: seq<Named<N, O>>)
    ensures |items| == |identifiers|
  {
    seq(|identifiers|, i requires 0 <= i < |identifiers| => Named(ns(identifiers[i]), identifiers[i], owner))
  }

  function AlgorithmItems(a: Algorithm): seq<Named<string, Algorithm>> {
    ItemsOf((id: Identifier) => id.ns, a, a.identifiers)
  }

  function EntryItems(e: Entry): seq<Named<(Protocol, string), Entry>> {
    ItemsOf((id: Identifier) => (e.protocol, id.ns), e, e.identifiers)
  }

  function AllAlgorithmItems(algorithms: seq<Algorithm>): seq<Named<string, Algorithm>> {
    if algorithms == [] then []
    else AllAlgorithmItems(algorithms[..|algorithms| - 1]) + AlgorithmItems(algorithms[|algorithms| - 1])
  }

  function AllEntryItems(entries: seq<Entry>): seq<Named<(Protocol, string), Entry>> {
    if entries == [] then []
    else AllEntryItems(entries[..|entries| - 1]) + EntryItems(entries[|entries| - 1])
  }

  lemma {:induction false} AlgorithmItemsPrefix(algorithms: seq<Algorithm>, i: nat)
    requires i < |algorithms|
    ensures AllAlgorithmItems(algorithms[..i]) + AlgorithmItems(algorithms[i]) <= AllAlgorithmItems(algorithms)
  {
    var init := algorithms[..|algorithms| - 1];
    if i == |init| {
    } else {
      AlgorithmItemsPrefix(init, i);
      assert init[..i] == algorithms[..i];
    }
  }

  lemma {:induction false} EntryItemsPrefix(entries: seq<Entry>, i: nat)
    requires i < |entries|
    ensures AllEntryItems(entries[..i]) + EntryItems(entries[i]) <= AllEntryItems(entries)
  {
    var init := entries[..|entries| - 1];
    if i == |init| {
    } else {
      EntryItemsPrefix(init, i);
      assert init[..i] == entries[..i];
    }
  }

  lemma PrefixOfValid<N, O>(fold: Fold, part: seq<Named<N, O>>, all: seq<Named<N, O>>)
    requires part <= all
    ensures OnePolicy(all) ==> OnePolicy(part)
    ensures UniqueKeys(fold, all) ==> UniqueKeys(fold, part)
  {
    assert forall i :: 0 <= i < |part| ==> part[i] == all[i];
  }

  // ----- references -----

  predicate RatingsResolve(sources: set<string>, ratings: seq<Rating>) {
    forall i, j :: 0 <= i < |ratings| && 0 <= j < |ratings[i].sources| ==> ratings[i].sources[j] in sources
  }

  predicate AlgorithmResolves(sources: set<string>, a: Algorithm) {
    (forall i :: 0 <= i < |a.factSources| ==> a.factSources[i] in sources) && RatingsResolve(sources, a.ratings)
  }

  predicate EntryResolves(sources: set<string>, algorithms: set<string>, e: Entry) {
    (forall i :: 0 <= i < |e.uses| ==> e.uses[i].algorithmId in algorithms) && RatingsResolve(sources, e.ratings)
  }

  function AlgorithmIds(algorithms: seq<Algorithm>): (ids: seq<string>)
    ensures |ids| == |algorithms|
  {
    seq(|algorithms|, i requires 0 <= i < |algorithms| => algorithms[i].id)
  }

  function EntryIds(entries: seq<Entry>): (ids: seq<string>)
    ensures |ids| == |entries|
  {
    seq(|entries|, i requires 0 <= i < |entries| => entries[i].id)
  }

  // ----- what compiles -----

  predicate AlgorithmsCompile(fold: Fold, sources: set<string>, algorithms: seq<Algorithm>) {
    && NoDuplicates(AlgorithmIds(algorithms))
    && (forall i :: 0 <= i < |algorithms| ==> AlgorithmResolves(sources, algorithms[i]))
    && OnePolicy(AllAlgorithmItems(algorithms)) && UniqueKeys(fold, AllAlgorithmItems(algorithms))
  }

  predicate EntriesCompile(fold: Fold, sources: set<string>, algorithms: set<string>, entries: seq<Entry>) {
    && NoDuplicates(EntryIds(entries))
    && (forall i :: 0 <= i < |entries| ==> EntryResolves(sources, algorithms, entries[i]))
    && OnePolicy(AllEntryItems(entries)) && UniqueKeys(fold, AllEntryItems(entries))
  }

  const DIGEST_CHARS: nat := 64

  /** The pattern of a SHA-256 in a receipt: 64 lower-case hexadecimal digits. */
  predicate IsDigest(s: string) {
    |s| == DIGEST_CHARS && forall i :: 0 <= i < |s| ==> '0' <= s[i] <= '9' || 'a' <= s[i] <= 'f'
  }

  /** Published bytes need a digest from the caller, and a digest from the caller must be one. */
  predicate ReceiptPossible(request: ReceiptRequest) {
    match request.sha256
    case None => request.scope != Some(PublishedBytes)
    case Some(digest) => IsDigest(digest)
  }

  predicate Compilable(fold: Fold, d: Definition, request: ReceiptRequest) {
    && NoDuplicates(d.sources)
    && AlgorithmsCompile(fold, SetOf(d.sources), d.algorithms)
    && EntriesCompile(fold, SetOf(d.sources), SetOf(AlgorithmIds(d.algorithms)), d.entries)
    && ReceiptPossible(request)
  }

  /** What compiles, spelled out: distinct ids, every reference to a source or an algorithm resolved, one case
      policy and one owner for every identifier, and a receipt that can be given. */
  lemma CompilableIff(fold: Fold, d: Definition, request: ReceiptRequest)
    ensures Compilable(fold, d, request) <==>
      && NoDuplicates(d.sources) && NoDuplicates(AlgorithmIds(d.algorithms)) && NoDuplicates(EntryIds(d.entries))
      && (forall a, s :: a in d.algorithms && s in a.factSources ==> s in d.sources)
      && (forall a, r, s :: a in d.algorithms && r in a.ratings && s in r.sources ==> s in d.sources)
      && (forall e, r, s :: e in d.entries && r in e.ratings && s in r.sources ==> s in d.sources)
      && (forall e, u :: e in d.entries && u in e.uses ==> exists a :: a in d.algorithms && a.id == u.algorithmId)
      && OnePolicy(AllAlgorithmItems(d.algorithms)) && UniqueKeys(fold, AllAlgorithmItems(d.algorithms))
      && OnePolicy(AllEntryItems(d.entries)) && UniqueKeys(fold, AllEntryItems(d.entries))
      && (request.sha256.None? ==> request.scope != Some(PublishedBytes))
      && (request.sha256.Some? ==>
            var digest := request.sha256.value;
            |digest| == 64 && forall c :: c in digest ==> '0' <= c <= '9' || c in "abcdef")
  {
    hide OnePolicy, UniqueKeys, AllAlgorithmItems, AllEntryItems, NoDuplicates, IsDigest;
    if request.sha256.Some? {
      DigestIff(request.sha256.value);
    }
    var sources, ids := SetOf(d.sources), SetOf(AlgorithmIds(d.algorithms));
    forall a | a in d.algorithms
      ensures AlgorithmResolves(sources, a) <==>
        (forall s :: s in a.factSources ==> s in d.sources) && (forall r, s :: r in a.ratings && s in r.sources ==> s in d.sources)
    {
      RatingsResolveIff(d.sources, a.ratings);
    }
    forall e | e in d.entries
      ensures EntryResolves(sources, ids, e) <==>
        (forall u :: u in e.uses ==> u.algorithmId in ids) && (forall r, s :: r in e.ratings && s in r.sources ==> s in d.sources)
    {
      RatingsResolveIff(d.sources, e.ratings);
    }
    forall id
      ensures id in ids <==> exists a :: a in d.algorithms && a.id == id
    {
      IdIsListed(d.algorithms, id);
    }
    assert forall i :: 0 <= i < |d.algorithms| ==> d.algorithms[i] in d.algorithms;
    assert forall i :: 0 <= i < |d.entries| ==> d.entries[i] in d.entries;
  }

  lemma DigestIff(s: string)
    ensures IsDigest(s) <==> |s| == 64 && forall c :: c in s ==> '0' <= c <= '9' || c in "abcdef"
  {
    assert forall c :: 'a' <= c <= 'f' <==> c in "abcdef" by {
      LettersToF();
    }
    assert forall i :: 0 <= i < |s| ==> s[i] in s;
  }

  lemma LettersToF()
    ensures forall c :: 'a' <= c <= 'f' <==> c in "abcdef"
  {
    var t := "abcdef";
    forall c | 'a' <= c <= 'f'
      ensures c in t
    {
      assert t[c as int - 0x61] == c;
    }
  }

  lemma RatingsResolveIff(sources: seq<string>, ratings: seq<Rating>)
    ensures RatingsResolve(SetOf(sources), ratings) <==> forall r, s :: r in ratings && s in r.sources ==> s in sources
  {
    if forall r, s :: r in ratings && s in r.sources ==> s in sources {
      forall i, j | 0 <= i < |ratings| && 0 <= j < |ratings[i].sources|
        ensures ratings[i].sources[j] in SetOf(sources)
      {
        assert ratings[i] in ratings && ratings[i].sources[j] in ratings[i].sources;
      }
    }
  }

  lemma IdIsListed(algorithms: seq<Algorithm>, id: string)
    ensures id in AlgorithmIds(algorithms) <==> exists a :: a in algorithms && a.id == id
  {
    if a :| a in algorithms && a.id == id {
      var i :| 0 <= i < |algorithms| && algorithms[i] == a;
      assert AlgorithmIds(algorithms)[i] == id;
    }
    if id in AlgorithmIds(algorithms) {
      var i :| 0 <= i < |AlgorithmIds(algorithms)| && AlgorithmIds(algorithms)[i] == id;
      assert algorithms[i] in algorithms;
    }
  }

  datatype Snapshot = Snapshot(
    algorithmsById: map<string, Algorithm>, algorithmIndex: Index<string, Algorithm>,
    entriesById: map<string, Entry>, entryIndex: Index<(Protocol, string), Entry>, scope: DigestScope)

  function ReceiptScope(request: ReceiptRequest): DigestScope {
    if request.scope.Some? then request.scope.value
    else if request.sha256.Some? then PublishedBytes
    else CanonicalDefinition
  }

  /** An explicit scope is kept; otherwise a digest from the caller is one of published bytes, and only then. */
  lemma ScopeIff(request: ReceiptRequest)
    ensures request.scope.Some? ==> Some(ReceiptScope(request)) == request.scope
    ensures request.scope.None? ==> (ReceiptScope(request) == PublishedBytes <==> request.sha256.Some?)
  {
  }

  /** `byId` holds exactly the listed things under their own ids. */
  ghost predicate ById<T>(things: seq<T>, ids: seq<string>, byId: map<string, T>)
    requires |things| == |ids|
  {
    && byId.Keys == SetOf(ids)
    && forall i :: 0 <= i < |things| ==> ids[i] in byId && byId[ids[i]] == things[i]
  }

  /** The snapshot is a faithful index of the definition. */
  ghost predicate CompiledFrom(fold: Fold, d: Definition, request: ReceiptRequest, s: Snapshot) {
    && ById(d.algorithms, AlgorithmIds(d.algorithms), s.algorithmsById)
    && ById(d.entries, EntryIds(d.entries), s.entriesById)
    && Indexes(fold, AllAlgorithmItems(d.algorithms), s.algorithmIndex)
    && Indexes(fold, AllEntryItems(d.entries), s.entryIndex)
    && s.scope == ReceiptScope(request)
  }

  datatype CompileError =
    | DuplicateSource(index: nat)
    | DuplicateAlgorithm(index: nat)
    | DuplicateEntry(index: nat)
    | UnresolvedSource(index: nat)
    | UnresolvedAlgorithm(index: nat)
    | BadIdentifier(index: nat, error: IdentifierError)
    | MissingPublishedDigest
    | InvalidDigest

  /** `_validate_ratings`: the first unresolved reference stops it. */
  method ValidateRatings(sources: set<string>, ratings: seq<Rating>) returns (ok: bool)
    ensures ok == RatingsResolve(sources, ratings)
  {
    for i := 0 to |ratings|
      invariant RatingsResolve(sources, ratings[..i])
    {
      for j := 0 to |ratings[i].sources|
        invariant forall k :: 0 <= k < j ==> ratings[i].sources[k] in sources
      {
        if ratings[i].sources[j] !in sources {
          return false;
        }
      }
      assert ratings[..i + 1] == ratings[..i] + [ratings[i]];
    }
    assert ratings[..|ratings|] == ratings;
    return true;
  }

  method CompileAlgorithms(fold: Fold, sources: set<string>, algorithms: seq<Algorithm>)
    returns (r: Result<(map<string, Algorithm>, Index<string, Algorithm>), CompileError>)
    ensures r.Ok? <==> AlgorithmsCompile(fold, sources, algorithms)
    ensures r.Ok? ==> ById(algorithms, AlgorithmIds(algorithms), r.value.0)
    ensures r.Ok? ==> Indexes(fold, AllAlgorithmItems(algorithms), r.value.1)
  {
    hide Indexes, OnePolicy, UniqueKeys, AlgorithmItems, AllAlgorithmItems, AlgorithmResolves, ById, NoDuplicates;
    var byId: map<string, Algorithm> := map[];
    var index: Index<string, Algorithm> := Index(map[], map[]);
    NothingIndexed<string, Algorithm>(fold);
    NoAlgorithmItems();
    NoIds<Algorithm>();
    for i := 0 to |algorithms|
      invariant ById(algorithms[..i], AlgorithmIds(algorithms)[..i], byId)
      invariant NoDuplicates(AlgorithmIds(algorithms)[..i])
      invariant forall k :: 0 <= k < i ==> AlgorithmResolves(sources, algorithms[k])
      invariant Indexes(fold, AllAlgorithmItems(algorithms[..i]), index)
    {
      var algorithm := algorithms[i];
      ghost var ids := AlgorithmIds(algorithms);
      if algorithm.id in byId {
        RepeatedId(algorithms[..i], ids, i, byId);
        return Err(DuplicateAlgorithm(i));
      }
      OneMoreId(algorithms, ids, i, byId);
      byId := byId[algorithm.id := algorithm];
      for j := 0 to |algorithm.factSources|
        invariant forall k :: 0 <= k < j ==> algorithm.factSources[k] in sources
      {
        if algorithm.factSources[j] !in sources {
          FactUnresolved(sources, algorithm, j);
          return Err(UnresolvedSource(i));
        }
      }
      var ok := ValidateRatings(sources, algorithm.ratings);
      AlgorithmParts(sources, algorithm);
      if !ok {
        return Err(UnresolvedSource(i));
      }
      var items := AlgorithmItems(algorithm);
      var registered := Register(fold, AllAlgorithmItems(algorithms[..i]), items, index);
      AlgorithmItemsPrefix(algorithms, i);
      PrefixOfValid(fold, AllAlgorithmItems(algorithms[..i]) + items, AllAlgorithmItems(algorithms));
      if registered.Err? {
        return Err(BadIdentifier(i, registered.error));
      }
      index := registered.value;
      MoreAlgorithmItems(algorithms, i);
    }
    assert algorithms[..|algorithms|] == algorithms;
    assert AlgorithmIds(algorithms)[..|algorithms|] == AlgorithmIds(algorithms);
    IndexedIsValid(fold, AllAlgorithmItems(algorithms), index);
    return Ok((byId, index));
  }

  lemma NothingIndexed<N(!new), O>(fold: Fold)
    ensures Indexes<N, O>(fold, [], Index(map[], map[]))
  {
  }

  lemma NoAlgorithmItems()
    ensures AllAlgorithmItems([]) == []
  {
  }

  lemma MoreAlgorithmItems(algorithms: seq<Algorithm>, i: nat)
    requires i < |algorithms|
    ensures AllAlgorithmItems(algorithms[..i + 1]) == AllAlgorithmItems(algorithms[..i]) + AlgorithmItems(algorithms[i])
  {
    assert algorithms[..i + 1][..i] == algorithms[..i];
  }

  lemma MoreEntryItems(entries: seq<Entry>, i: nat)
    requires i < |entries|
    ensures AllEntryItems(entries[..i + 1]) == AllEntryItems(entries[..i]) + EntryItems(entries[i])
  {
    assert entries[..i + 1][..i] == entries[..i];
  }

  lemma AlgorithmParts(sources: set<string>, a: Algorithm)
    ensures AlgorithmResolves(sources, a) <==>
      (forall i :: 0 <= i < |a.factSources| ==> a.factSources[i] in sources) && RatingsResolve(sources, a.ratings)
  {
  }

  lemma FactUnresolved(sources: set<string>, a: Algorithm, j: nat)
    requires j < |a.factSources| && a.factSources[j] !in sources
    ensures !AlgorithmResolves(sources, a)
  {
  }

  lemma Repeated(ids: seq<string>, i: nat)
    requires i < |ids| && ids[i] in ids[..i]
    ensures !NoDuplicates(ids)
  {
  }

  lemma Fresh(ids: seq<string>, i: nat)
    requires i < |ids| && ids[i] !in ids[..i] && NoDuplicates(ids[..i])
    ensures NoDuplicates(ids[..i + 1]) && SetOf(ids[..i + 1]) == SetOf(ids[..i]) + {ids[i]}
  {
    assert ids[..i + 1] == ids[..i] + [ids[i]];
  }

  lemma NoIds<T>()
    ensures ById<T>([], [], map[]) && NoDuplicates<string>([])
  {
  }

  lemma RepeatedId<T>(before: seq<T>, ids: seq<string>, i: nat, byId: map<string, T>)
    requires i < |ids| && |before| == i && ById(before, ids[..i], byId) && ids[i] in byId
    ensures !NoDuplicates(ids)
  {
    Repeated(ids, i);
  }

  lemma OneMoreId<T>(things: seq<T>, ids: seq<string>, i: nat, byId: map<string, T>)
    requires i < |ids| == |things| && ById(things[..i], ids[..i], byId) && ids[i] !in byId
    requires NoDuplicates(ids[..i])
    ensures NoDuplicates(ids[..i + 1]) && ById(things[..i + 1], ids[..i + 1], byId[ids[i] := things[i]])
  {
    Fresh(ids, i);
  }

  method CompileEntries(fold: Fold, sources: set<string>, algorithms: map<string, Algorithm>, entries: seq<Entry>)
    returns (r: Result<(map<string, Entry>, Index<(Protocol, string), Entry>), CompileError>)
    ensures r.Ok? <==> EntriesCompile(fold, sources, algorithms.Keys, entries)
    ensures r.Ok? ==> ById(entries, EntryIds(entries), r.value.0)
    ensures r.Ok? ==> Indexes(fold, AllEntryItems(entries), r.value.1)
  {
    hide Indexes, OnePolicy, UniqueKeys, EntryItems, AllEntryItems, EntryResolves, ById, NoDuplicates;
    var byId: map<string, Entry> := map[];
    var index: Index<(Protocol, string), Entry> := Index(map[], map[]);
    NothingIndexed<(Protocol, string), Entry>(fold);
    NoEntryItems();
    NoIds<Entry>();
    for i := 0 to |entries|
      invariant ById(entries[..i], EntryIds(entries)[..i], byId)
      invariant NoDuplicates(EntryIds(entries)[..i])
      invariant forall k :: 0 <= k < i ==> EntryResolves(sources, algorithms.Keys, entries[k])
      invariant Indexes(fold, AllEntryItems(entries[..i]), index)
    {
      var entry := entries[i];
      ghost var ids := EntryIds(entries);
      if entry.id in byId {
        RepeatedId(entries[..i], ids, i, byId);
        return Err(DuplicateEntry(i));
      }
      OneMoreId(entries, ids, i, byId);
      byId := byId[entry.id := entry];
      for j := 0 to |entry.uses|
        invariant forall k :: 0 <= k < j ==> entry.uses[k].algorithmId in algorithms
      {
        if entry.uses[j].algorithmId !in algorithms {
          UseUnresolved(sources, algorithms.Keys, entry, j);
          return Err(UnresolvedAlgorithm(i));
        }
      }
      var ok := ValidateRatings(sources, entry.ratings);
      EntryParts(sources, algorithms.Keys, entry);
      if !ok {
        return Err(UnresolvedSource(i));
      }
      var items := EntryItems(entry);
      var registered := Register(fold, AllEntryItems(entries[..i]), items, index);
      EntryItemsPrefix(entries, i);
      PrefixOfValid(fold, AllEntryItems(entries[..i]) + items, AllEntryItems(entries));
      if registered.Err? {
        return Err(BadIdentifier(i, registered.error));
      }
      index := registered.value;
      MoreEntryItems(entries, i);
    }
    assert entries[..|entries|] == entries;
    assert EntryIds(entries)[..|entries|] == EntryIds(entries);
    IndexedIsValid(fold, AllEntryItems(entries), index);
    return Ok((byId, index));
  }

  lemma NoEntryItems()
    ensures AllEntryItems([]) == []
  {
  }

  lemma EntryParts(sources: set<string>, algorithms: set<string>, e: Entry)
    ensures EntryResolves(sources, algorithms, e) <==>
      (forall i :: 0 <= i < |e.uses| ==> e.uses[i].algorithmId in algorithms) && RatingsResolve(sources, e.ratings)
  {
  }

  lemma UseUnresolved(sources: set<string>, algorithms: set<string>, e: Entry, j: nat)
    requires j < |e.uses| && e.uses[j].algorithmId !in algorithms
    ensures !EntryResolves(sources, algorithms, e)
  {
  }

  /** `compile_catalog` succeeds exactly on compilable definitions, and then indexes them faithfully. */
  method Compile(fold: Fold, d: Definition, request: ReceiptRequest) returns (r: Result<Snapshot, CompileError>)
    ensures r.Ok? <==> Compilable(fold, d, request)
    ensures r.Ok? ==> CompiledFrom(fold, d, request, r.value)
  {
    hide Indexes, AlgorithmsCompile, EntriesCompile;
    var sources: set<string> := {};
    for i := 0 to |d.sources|
      invariant sources == SetOf(d.sources[..i]) && NoDuplicates(d.sources[..i])
    {
      if d.sources[i] in sources {
        Repeated(d.sources, i);
        return Err(DuplicateSource(i));
      }
      Fresh(d.sources, i);
      sources := sources + {d.sources[i]};
    }
    assert d.sources[..|d.sources|] == d.sources;
    var algorithms := CompileAlgorithms(fold, sources, d.algorithms);
    if algorithms.Err? {
      return Err(algorithms.error);
    }
    var entries := CompileEntries(fold, sources, algorithms.value.0, d.entries);
    if entries.Err? {
      return Err(entries.error);
    }
    if request.sha256.None? && request.scope == Some(PublishedBytes) {
      return Err(MissingPublishedDigest);
    }
    if request.sha256.Some? && !IsDigest(request.sha256.value) {
      return Err(InvalidDigest);
    }
    return Ok(Snapshot(algorithms.value.0, algorithms.value.1, entries.value.0, entries.value.1, ReceiptScope(request)));
  }
}
