/** Lookups in a compiled catalog agree with a scan of its definition. */
module Classification {
  import opened Wrappers
  import opened Sequences
  import opened Catalog

  // ----- well-formed definitions: what the entity validators guarantee -----

  function Axes(ratings: seq<Rating>): (axes: seq<Axis>)
    ensures |axes| == |ratings|
  {
    seq(|ratings|, i requires 0 <= i < |ratings| => ratings[i].axis)
  }

  function Roles(uses: seq<Use>): (roles: seq<Role>)
    ensures |roles| == |uses|
  {
    seq(|uses|, i requires 0 <= i < |uses| => uses[i].role)
  }

  const MAX_ID_CHARS: nat := 128
  const MAX_TEXT_CHARS: nat := 256

  predicate IsIdChar(c: char) {
    'a' <= c <= 'z' || '0' <= c <= '9' || c == '_' || c == '.' || c == '-'
  }

  /** The pattern of identities and namespaces. */
  predicate IsStableId(s: string) {
    1 <= |s| <= MAX_ID_CHARS && 'a' <= s[0] <= 'z' && forall i :: 1 <= i < |s| ==> IsIdChar(s[i])
  }

  /** A namespace and a text that a classification result can carry. */
  predicate ValidText(ns: string, value: string) {
    IsStableId(ns) && 1 <= |value| <= MAX_TEXT_CHARS
  }

  /** A valid lookup, spelled out. */
  lemma ValidTextIff(ns: string, value: string)
    ensures ValidText(ns, value) <==>
      && 1 <= |ns| <= 128 && 'a' <= ns[0] <= 'z' && 1 <= |value| <= 256
      && forall c :: c in ns ==> 'a' <= c <= 'z' || '0' <= c <= '9' || c in "_.-"
  {
    assert forall i :: 0 <= i < |ns| ==> ns[i] in ns;
    assert forall c :: c in "_.-" <==> c == '_' || c == '.' || c == '-' by {
      Punctuation();
    }
  }

  lemma Punctuation()
    ensures forall c :: c in "_.-" <==> c == '_' || c == '.' || c == '-'
  {
    var t := "_.-";
    assert t[0] == '_' && t[1] == '.' && t[2] == '-';
  }

  predicate WellFormed(d: Definition) {
    && (forall i :: 0 <= i < |d.algorithms| ==> NoDuplicates(Axes(d.algorithms[i].ratings)))
    && (forall i :: 0 <= i < |d.entries| ==>
          && NoDuplicates(Axes(d.entries[i].ratings)) && NoDuplicates(Roles(d.entries[i].uses))
          && |d.entries[i].uses| > 0 && IsStableId(d.entries[i].id)
          && forall k :: 0 <= k < |d.entries[i].uses| ==> IsStableId(d.entries[i].uses[k].algorithmId))
  }

  // ----- the lookups -----

  datatype Match = Exact | Unknown

  datatype Classified = Classified(
    status: Match, protocol: Protocol, ns: string, raw: string,
    entryId: Option<string>, algorithmIds: seq<string>, ratings: seq<Rating>)

  datatype LookupError = MissingAlgorithm(id: string) | InvalidResult

  const MAX_ALGORITHMS: nat := 16
  const MAX_RATINGS: nat := 64

  /** The patterns, limits and consistency rules of a classification result. */
  predicate Consistent(c: Classified) {
    && ValidText(c.ns, c.raw) && (c.entryId.Some? ==> IsStableId(c.entryId.value))
    && (forall i :: 0 <= i < |c.algorithmIds| ==> IsStableId(c.algorithmIds[i]))
    && |c.algorithmIds| <= MAX_ALGORITHMS && |c.ratings| <= MAX_RATINGS
    && (c.status.Exact? ==> c.entryId.Some? && c.algorithmIds != [])
    && (c.status.Unknown? ==> c.entryId.None? && c.algorithmIds == [] && c.ratings == [])
  }

  /** The text a lookup uses: folded only where the namespace is known to ignore case. */
  function Folded<N(==), O>(fold: Fold, index: Index<N, O>, ns: N, value: string): string {
    if ns in index.policies && !index.policies[ns] then fold(value) else value
  }

  function Find<N(==), O>(fold: Fold, index: Index<N, O>, ns: N, value: string): Option<O> {
    var key := (ns, Folded(fold, index, ns, value));
    if key in index.owners then Some(index.owners[key]) else None
  }

  /** `resolve_algorithm`. */
  function ResolveAlgorithm(fold: Fold, s: Snapshot, ns: string, value: string): Option<Algorithm> {
    Find(fold, s.algorithmIndex, ns, value)
  }

  function UseIds(uses: seq<Use>): (ids: seq<string>)
    ensures |ids| == |uses|
  {
    seq(|uses|, i requires 0 <= i < |uses| => uses[i].algorithmId)
  }

  /** The ratings of the algorithms in order; the first missing algorithm is an error. */
  function RatingsOf(byId: map<string, Algorithm>, ids: seq<string>): Result<seq<Rating>, LookupError> {
    if ids == [] then Ok([])
    else if ids[0] !in byId then Err(MissingAlgorithm(ids[0]))
    else
      var rest := RatingsOf(byId, ids[1..]);
      if rest.Err? then rest else Ok(byId[ids[0]].ratings + rest.value)
  }

  function Checked(c: Classified): Result<Classified, LookupError> {
    if Consistent(c) then Ok(c) else Err(InvalidResult)
  }

  /** `classify`. */
  function Classify(fold: Fold, s: Snapshot, protocol: Protocol, ns: string, value: string)
    : Result<Classified, LookupError>
  {
    var found := Find(fold, s.entryIndex, (protocol, ns), value);
    if found.None? then Checked(Classified(Unknown, protocol, ns, value, None, [], [])) else
      var entry := found.value;
      var ids := UseIds(entry.uses);
      var ratings := RatingsOf(s.algorithmsById, ids);
      if ratings.Err? then Err(ratings.error)
      else Checked(Classified(Exact, protocol, ns, value, Some(entry.id), ids, ratings.value + entry.ratings))
  }

  // ----- a scan of the definition -----

  /** An identifier names a text, by its own case flag. */
  predicate Names(fold: Fold, identifier: Identifier, ns: string, value: string) {
    && identifier.ns == ns
    && if identifier.caseSensitive then identifier.value == value else fold(identifier.value) == fold(value)
  }

  predicate EntryNamed(fold: Fold, e: Entry, protocol: Protocol, ns: string, value: string) {
    e.protocol == protocol && exists j :: 0 <= j < |e.identifiers| && Names(fold, e.identifiers[j], ns, value)
  }

  predicate AlgorithmNamed(fold: Fold, a: Algorithm, ns: string, value: string) {
    exists j :: 0 <= j < |a.identifiers| && Names(fold, a.identifiers[j], ns, value)
  }

  /** A lookup finds exactly the items that carry the text under their own case flag. */
  lemma FindIsScan<N(!new), O>(fold: Fold, items: seq<Named<N, O>>, index: Index<N, O>, ns: N, value: string, k: nat)
    requires Indexes(fold, items, index) && k < |items|
    ensures items[k].ns == ns && Normalized(fold, items[k].identifier)
              == (if items[k].identifier.caseSensitive then value else fold(value))
      <==> Key(fold, items[k]) == (ns, Folded(fold, index, ns, value))
  {
  }

  lemma FoundAt<N(!new), O>(fold: Fold, items: seq<Named<N, O>>, index: Index<N, O>, ns: N, value: string) returns (k: nat)
    requires Indexes(fold, items, index) && Find(fold, index, ns, value).Some?
    ensures k < |items| && Key(fold, items[k]) == (ns, Folded(fold, index, ns, value))
    ensures Find(fold, index, ns, value) == Some(items[k].owner)
  {
    k := OwnerOf(fold, items, index, (ns, Folded(fold, index, ns, value)));
  }

  /** Where entry i's j-th identifier stands among all items. */
  lemma EntryItemAt(entries: seq<Entry>, i: nat, j: nat) returns (k: nat)
    requires i < |entries| && j < |entries[i].identifiers|
    ensures k < |AllEntryItems(entries)|
    ensures AllEntryItems(entries)[k]
         == Named((entries[i].protocol, entries[i].identifiers[j].ns), entries[i].identifiers[j], entries[i])
    ensures k == |AllEntryItems(entries[..i])| + j
  {
    EntryItemsPrefix(entries, i);
    k := |AllEntryItems(entries[..i])| + j;
    var part := AllEntryItems(entries[..i]) + EntryItems(entries[i]);
    assert part[k] == EntryItems(entries[i])[j];
    assert AllEntryItems(entries)[k] == part[k];
  }

  lemma {:induction false} EntryOfItem(entries: seq<Entry>, k: nat) returns (i: nat, j: nat)
    requires k < |AllEntryItems(entries)|
    ensures i < |entries| && j < |entries[i].identifiers| && k == |AllEntryItems(entries[..i])| + j
    ensures AllEntryItems(entries)[k]
         == Named((entries[i].protocol, entries[i].identifiers[j].ns), entries[i].identifiers[j], entries[i])
  {
    var init := entries[..|entries| - 1];
    if k < |AllEntryItems(init)| {
      i, j := EntryOfItem(init, k);
      assert init[..i] == entries[..i];
    } else {
      i, j := |init|, k - |AllEntryItems(init)|;
    }
  }

  lemma EntryStarts(entries: seq<Entry>, i: nat, i': nat)
    requires i < i' < |entries|
    ensures |AllEntryItems(entries[..i])| + |entries[i].identifiers| <= |AllEntryItems(entries[..i'])|
  {
    EntryItemsPrefix(entries[..i'], i);
    assert entries[..i'][..i] == entries[..i];
  }

  /** The entry a compiled catalog finds is the one the scan finds, and the scan finds only one. */
  lemma EntryFoundIsScanned(
      fold: Fold, entries: seq<Entry>, index: Index<(Protocol, string), Entry>,
      protocol: Protocol, ns: string, value: string, i: nat)
    requires Indexes(fold, AllEntryItems(entries), index) && i < |entries|
    requires EntryNamed(fold, entries[i], protocol, ns, value)
    ensures Find(fold, index, (protocol, ns), value) == Some(entries[i])
    ensures forall i' :: 0 <= i' < |entries| && EntryNamed(fold, entries[i'], protocol, ns, value) ==> i' == i
  {
    hide Indexes, AllEntryItems;
    var items := AllEntryItems(entries);
    var j :| 0 <= j < |entries[i].identifiers| && Names(fold, entries[i].identifiers[j], ns, value);
    var k := EntryItemAt(entries, i, j);
    FindIsScan(fold, items, index, (protocol, ns), value, k);
    KeyIsIndexed(fold, items, index, k);
    forall i' | 0 <= i' < |entries| && EntryNamed(fold, entries[i'], protocol, ns, value)
      ensures i' == i
    {
      var j' :| 0 <= j' < |entries[i'].identifiers| && Names(fold, entries[i'].identifiers[j'], ns, value);
      var k' := EntryItemAt(entries, i', j');
      FindIsScan(fold, items, index, (protocol, ns), value, k');
      SameKeySameItem(fold, items, index, k, k');
      if i < i' {
        EntryStarts(entries, i, i');
      } else if i' < i {
        EntryStarts(entries, i', i);
      }
    }
  }

  lemma KeyIsIndexed<N(!new), O>(fold: Fold, items: seq<Named<N, O>>, index: Index<N, O>, k: nat)
    requires Indexes(fold, items, index) && k < |items|
    ensures Key(fold, items[k]) in index.owners && index.owners[Key(fold, items[k])] == items[k].owner
  {
  }

  lemma SameKeySameItem<N(!new), O>(fold: Fold, items: seq<Named<N, O>>, index: Index<N, O>, k: nat, k': nat)
    requires Indexes(fold, items, index) && k < |items| && k' < |items| && Key(fold, items[k]) == Key(fold, items[k'])
    ensures k == k'
  {
  }

  lemma EntryFoundIsNamed(
      fold: Fold, entries: seq<Entry>, index: Index<(Protocol, string), Entry>,
      protocol: Protocol, ns: string, value: string) returns (i: nat)
    requires Indexes(fold, AllEntryItems(entries), index)
    requires Find(fold, index, (protocol, ns), value).Some?
    ensures i < |entries| && Find(fold, index, (protocol, ns), value) == Some(entries[i])
    ensures EntryNamed(fold, entries[i], protocol, ns, value)
  {
    hide Indexes, AllEntryItems;
    var items := AllEntryItems(entries);
    var k := FoundAt(fold, items, index, (protocol, ns), value);
    var j;
    i, j := EntryOfItem(entries, k);
    FindIsScan(fold, items, index, (protocol, ns), value, k);
    assert Names(fold, entries[i].identifiers[j], ns, value);
  }

  // ----- limits -----

  lemma {:induction false} SetBound<T>(s: set<T>, t: set<T>)
    requires s <= t
    ensures |s| <= |t|
    decreases t
  {
    if s == {} {
    } else {
      var x :| x in s;
      SetBound(s - {x}, t - {x});
    }
  }

  const AXES: set<Axis> := {Classical, Quantum, Deployment}

  const ROLES: set<Role> := {KeyEstablishment, Confidentiality, Authentication, Integrity, Prf,
                             TraditionalComponent, PostQuantumComponent}

  lemma AxisListed(axis: Axis)
    ensures axis in AXES
  {
    match axis
    case Classical =>
    case Quantum =>
    case Deployment =>
  }

  lemma RoleListed(role: Role)
    ensures role in ROLES
  {
    match role
    case KeyEstablishment =>
    case Confidentiality =>
    case Authentication =>
    case Integrity =>
    case Prf =>
    case TraditionalComponent =>
    case PostQuantumComponent =>
  }

  /** One rating per axis means at most three ratings. */
  lemma AtMostThreeRatings(ratings: seq<Rating>)
    requires NoDuplicates(Axes(ratings))
    ensures |ratings| <= 3
  {
    DistinctBySize(Axes(ratings));
    forall axis | axis in SetOf(Axes(ratings))
      ensures axis in AXES
    {
      AxisListed(axis);
    }
    SetBound(SetOf(Axes(ratings)), AXES);
  }

  /** One use per role means at most seven algorithms. */
  lemma AtMostSevenUses(uses: seq<Use>)
    requires NoDuplicates(Roles(uses))
    ensures |uses| <= 7
  {
    DistinctBySize(Roles(uses));
    forall role | role in SetOf(Roles(uses))
      ensures role in ROLES
    {
      RoleListed(role);
    }
    SetBound(SetOf(Roles(uses)), ROLES);
  }

  lemma {:induction false} RatingsBounded(byId: map<string, Algorithm>, ids: seq<string>)
    requires forall i :: 0 <= i < |ids| ==> ids[i] in byId
    requires forall id :: id in byId ==> NoDuplicates(Axes(byId[id].ratings))
    ensures RatingsOf(byId, ids).Ok? && |RatingsOf(byId, ids).value| <= 3 * |ids|
  {
    if ids == [] {
    } else {
      RatingsBounded(byId, ids[1..]);
      AtMostThreeRatings(byId[ids[0]].ratings);
    }
  }

  lemma IndexedAlgorithm(d: Definition, byId: map<string, Algorithm>, id: string) returns (i: nat)
    requires ById(d.algorithms, AlgorithmIds(d.algorithms), byId) && id in byId
    ensures i < |d.algorithms| && d.algorithms[i] == byId[id] && d.algorithms[i].id == id
  {
    i :| 0 <= i < |AlgorithmIds(d.algorithms)| && AlgorithmIds(d.algorithms)[i] == id;
  }

  /** On a compiled catalog no algorithm of an entry is missing and the ratings stay under the limit. */
  lemma EntryRatings(fold: Fold, d: Definition, request: ReceiptRequest, s: Snapshot, i: nat)
    requires WellFormed(d) && Compilable(fold, d, request) && CompiledFrom(fold, d, request, s) && i < |d.entries|
    ensures var ids := UseIds(d.entries[i].uses);
      && 0 < |ids| <= 7 && RatingsOf(s.algorithmsById, ids).Ok?
      && |RatingsOf(s.algorithmsById, ids).value + d.entries[i].ratings| <= 24
  {
    hide Indexes, OnePolicy, UniqueKeys;
    var entry := d.entries[i];
    var ids := UseIds(entry.uses);
    assert EntryResolves(SetOf(d.sources), SetOf(AlgorithmIds(d.algorithms)), entry);
    forall k | 0 <= k < |ids|
      ensures ids[k] in s.algorithmsById
    {
      assert entry.uses[k].algorithmId in SetOf(AlgorithmIds(d.algorithms));
    }
    forall id | id in s.algorithmsById
      ensures NoDuplicates(Axes(s.algorithmsById[id].ratings))
    {
      var j := IndexedAlgorithm(d, s.algorithmsById, id);
    }
    RatingsBounded(s.algorithmsById, ids);
    AtMostSevenUses(entry.uses);
    AtMostThreeRatings(entry.ratings);
  }

  // ----- ratings, as the definition gives them -----

  /** The ratings of the algorithm with this id in a list of algorithms. */
  function RatingsOfId(algorithms: seq<Algorithm>, id: string): (ratings: seq<Rating>)
    ensures NoDuplicates(AlgorithmIds(algorithms)) ==>
      forall i :: 0 <= i < |algorithms| && algorithms[i].id == id ==> ratings == algorithms[i].ratings
  {
    if algorithms == [] then []
    else
      assert NoDuplicates(AlgorithmIds(algorithms)) ==> NoDuplicates(AlgorithmIds(algorithms[1..])) by {
        assert forall i :: 0 <= i < |algorithms| - 1 ==> AlgorithmIds(algorithms[1..])[i] == AlgorithmIds(algorithms)[i + 1];
      }
      assert forall i :: 0 <= i < |algorithms| ==> AlgorithmIds(algorithms)[i] == algorithms[i].id;
      if algorithms[0].id == id then algorithms[0].ratings else RatingsOfId(algorithms[1..], id)
  }

  /** The ratings of the algorithms used, use by use. */
  function RatingsOfUses(algorithms: seq<Algorithm>, uses: seq<Use>): seq<Rating> {
    if uses == [] then [] else RatingsOfId(algorithms, uses[0].algorithmId) + RatingsOfUses(algorithms, uses[1..])
  }

  lemma {:induction false} RatingsAreThoseOfUses(d: Definition, byId: map<string, Algorithm>, uses: seq<Use>)
    requires ById(d.algorithms, AlgorithmIds(d.algorithms), byId) && NoDuplicates(AlgorithmIds(d.algorithms))
    requires forall k :: 0 <= k < |uses| ==> uses[k].algorithmId in byId
    ensures RatingsOf(byId, UseIds(uses)) == Ok(RatingsOfUses(d.algorithms, uses))
  {
    if uses == [] {
    } else {
      assert UseIds(uses)[1..] == UseIds(uses[1..]);
      RatingsAreThoseOfUses(d, byId, uses[1..]);
      var i := IndexedAlgorithm(d, byId, uses[0].algorithmId);
    }
  }

  // ----- the main results -----

  /** Classification on a compiled catalog never misses a lookup nor breaks a limit of its own. It
      succeeds exactly for a valid namespace and text, and then answers EXACT for an entry exactly when
      a scan of the definition finds that entry by one of its identifiers, which no second entry then
      carries; otherwise it answers UNKNOWN. The ratings are those of the entry's algorithms, use by
      use, and then the entry's own. */
  lemma ClassifyIsScan(
      fold: Fold, d: Definition, request: ReceiptRequest, s: Snapshot, protocol: Protocol, ns: string, value: string)
    requires WellFormed(d) && Compilable(fold, d, request) && CompiledFrom(fold, d, request, s)
    ensures Classify(fold, s, protocol, ns, value).Ok? <==> ValidText(ns, value)
    ensures !ValidText(ns, value) ==> Classify(fold, s, protocol, ns, value) == Err(InvalidResult)
    ensures ValidText(ns, value) ==>
      var c := Classify(fold, s, protocol, ns, value).value;
      && c.protocol == protocol && c.ns == ns && c.raw == value
      && (c.status.Exact? <==> exists i :: 0 <= i < |d.entries| && EntryNamed(fold, d.entries[i], protocol, ns, value))
      && (forall i :: 0 <= i < |d.entries| && EntryNamed(fold, d.entries[i], protocol, ns, value) ==>
            && c.entryId == Some(d.entries[i].id) && c.algorithmIds == UseIds(d.entries[i].uses)
            && c.ratings == RatingsOfUses(d.algorithms, d.entries[i].uses) + d.entries[i].ratings
            && forall i' :: 0 <= i' < |d.entries| && EntryNamed(fold, d.entries[i'], protocol, ns, value) ==> i' == i)
      && Consistent(c) && |c.ratings| <= 24
  {
    hide Indexes, Compilable, EntryNamed, WellFormed, IsStableId;
    var found := Find(fold, s.entryIndex, (protocol, ns), value);
    forall i | 0 <= i < |d.entries| && EntryNamed(fold, d.entries[i], protocol, ns, value)
      ensures found == Some(d.entries[i])
      ensures forall i' :: 0 <= i' < |d.entries| && EntryNamed(fold, d.entries[i'], protocol, ns, value) ==> i' == i
    {
      EntryFoundIsScanned(fold, d.entries, s.entryIndex, protocol, ns, value, i);
    }
    if found.Some? {
      var i := EntryFoundIsNamed(fold, d.entries, s.entryIndex, protocol, ns, value);
      EntryRatings(fold, d, request, s, i);
      StableIds(d, i);
      EntryRatingsAre(fold, d, request, s, i);
    }
  }

  lemma EntryRatingsAre(fold: Fold, d: Definition, request: ReceiptRequest, s: Snapshot, i: nat)
    requires WellFormed(d) && Compilable(fold, d, request) && CompiledFrom(fold, d, request, s) && i < |d.entries|
    ensures RatingsOf(s.algorithmsById, UseIds(d.entries[i].uses)) == Ok(RatingsOfUses(d.algorithms, d.entries[i].uses))
  {
    hide Indexes, OnePolicy, UniqueKeys;
    var uses := d.entries[i].uses;
    assert EntryResolves(SetOf(d.sources), SetOf(AlgorithmIds(d.algorithms)), d.entries[i]);
    forall k | 0 <= k < |uses|
      ensures uses[k].algorithmId in s.algorithmsById
    {
      assert uses[k].algorithmId in SetOf(AlgorithmIds(d.algorithms));
    }
    RatingsAreThoseOfUses(d, s.algorithmsById, uses);
  }

  lemma StableIds(d: Definition, i: nat)
    requires WellFormed(d) && i < |d.entries|
    ensures IsStableId(d.entries[i].id)
    ensures forall k :: 0 <= k < |d.entries[i].uses| ==> IsStableId(UseIds(d.entries[i].uses)[k])
  {
  }

  /** The empty text is refused, although the catalog could say that it knows nothing of it. */
  lemma EmptyTextIsRefused(
      fold: Fold, d: Definition, request: ReceiptRequest, s: Snapshot, protocol: Protocol, ns: string)
    requires WellFormed(d) && Compilable(fold, d, request) && CompiledFrom(fold, d, request, s)
    ensures Classify(fold, s, protocol, ns, "") == Err(InvalidResult)
  {
    hide WellFormed, Compilable, CompiledFrom, Classify;
    ClassifyIsScan(fold, d, request, s, protocol, ns, "");
  }

  function Repeat(c: char, n: nat): (s: string)
    ensures |s| == n
  {
    seq(n, i => c)
  }

  /** A long spelling is refused although it is found: 200 times the German sharp s, which folds to two
      letters, is an identifier within the limit and its folded spelling is not. */
  lemma LongSpellingIsRefused(
      fold: Fold, d: Definition, request: ReceiptRequest, s: Snapshot, i: nat, j: nat, ns: string)
    requires WellFormed(d) && Compilable(fold, d, request) && CompiledFrom(fold, d, request, s)
    requires i < |d.entries| && j < |d.entries[i].identifiers|
    requires d.entries[i].identifiers[j] == Identifier(ns, Repeat('\U{DF}', 200), false)
    requires fold(Repeat('\U{DF}', 200)) == Repeat('s', 400) == fold(Repeat('s', 400))
    ensures Find(fold, s.entryIndex, (d.entries[i].protocol, ns), Repeat('s', 400)) == Some(d.entries[i])
    ensures Classify(fold, s, d.entries[i].protocol, ns, Repeat('s', 400)) == Err(InvalidResult)
  {
    hide WellFormed, Compilable, Indexes, Classify, Find, Repeat;
    var protocol, value := d.entries[i].protocol, Repeat('s', 400);
    assert Names(fold, d.entries[i].identifiers[j], ns, value);
    EntryFoundIsScanned(fold, d.entries, s.entryIndex, protocol, ns, value, i);
    ClassifyIsScan(fold, d, request, s, protocol, ns, value);
  }

  // ----- the same for algorithm aliases -----

  lemma AlgorithmItemAt(algorithms: seq<Algorithm>, i: nat, j: nat) returns (k: nat)
    requires i < |algorithms| && j < |algorithms[i].identifiers|
    ensures k < |AllAlgorithmItems(algorithms)|
    ensures AllAlgorithmItems(algorithms)[k]
         == Named(algorithms[i].identifiers[j].ns, algorithms[i].identifiers[j], algorithms[i])
    ensures k == |AllAlgorithmItems(algorithms[..i])| + j
  {
    AlgorithmItemsPrefix(algorithms, i);
    k := |AllAlgorithmItems(algorithms[..i])| + j;
    var part := AllAlgorithmItems(algorithms[..i]) + AlgorithmItems(algorithms[i]);
    assert part[k] == AlgorithmItems(algorithms[i])[j];
    assert AllAlgorithmItems(algorithms)[k] == part[k];
  }

  lemma {:induction false} AlgorithmOfItem(algorithms: seq<Algorithm>, k: nat) returns (i: nat, j: nat)
    requires k < |AllAlgorithmItems(algorithms)|
    ensures i < |algorithms| && j < |algorithms[i].identifiers|
    ensures AllAlgorithmItems(algorithms)[k]
         == Named(algorithms[i].identifiers[j].ns, algorithms[i].identifiers[j], algorithms[i])
  {
    var init := algorithms[..|algorithms| - 1];
    if k < |AllAlgorithmItems(init)| {
      i, j := AlgorithmOfItem(init, k);
    } else {
      i, j := |init|, k - |AllAlgorithmItems(init)|;
    }
  }

  lemma AlgorithmStarts(algorithms: seq<Algorithm>, i: nat, i': nat)
    requires i < i' < |algorithms|
    ensures |AllAlgorithmItems(algorithms[..i])| + |algorithms[i].identifiers| <= |AllAlgorithmItems(algorithms[..i'])|
  {
    AlgorithmItemsPrefix(algorithms[..i'], i);
    assert algorithms[..i'][..i] == algorithms[..i];
  }

  /** `resolve_algorithm` returns the one algorithm a scan finds, and None when the scan finds none. */
  lemma ResolveIsScan(
      fold: Fold, d: Definition, request: ReceiptRequest, s: Snapshot, ns: string, value: string)
    requires CompiledFrom(fold, d, request, s)
    ensures ResolveAlgorithm(fold, s, ns, value).Some? <==>
      exists i :: 0 <= i < |d.algorithms| && AlgorithmNamed(fold, d.algorithms[i], ns, value)
    ensures forall i :: 0 <= i < |d.algorithms| && AlgorithmNamed(fold, d.algorithms[i], ns, value) ==>
      && ResolveAlgorithm(fold, s, ns, value) == Some(d.algorithms[i])
      && forall i' :: 0 <= i' < |d.algorithms| && AlgorithmNamed(fold, d.algorithms[i'], ns, value) ==> i' == i
  {
    hide Indexes, AllAlgorithmItems;
    var items, index := AllAlgorithmItems(d.algorithms), s.algorithmIndex;
    forall i | 0 <= i < |d.algorithms| && AlgorithmNamed(fold, d.algorithms[i], ns, value)
      ensures ResolveAlgorithm(fold, s, ns, value) == Some(d.algorithms[i])
      ensures forall i' :: 0 <= i' < |d.algorithms| && AlgorithmNamed(fold, d.algorithms[i'], ns, value) ==> i' == i
    {
      AlgorithmFoundIsScanned(fold, d.algorithms, index, ns, value, i);
    }
    if ResolveAlgorithm(fold, s, ns, value).Some? {
      var k := FoundAt(fold, items, index, ns, value);
      var i, j := AlgorithmOfItem(d.algorithms, k);
      FindIsScan(fold, items, index, ns, value, k);
      assert Names(fold, d.algorithms[i].identifiers[j], ns, value);
    }
  }

  lemma AlgorithmFoundIsScanned(
      fold: Fold, algorithms: seq<Algorithm>, index: Index<string, Algorithm>, ns: string, value: string, i: nat)
    requires Indexes(fold, AllAlgorithmItems(algorithms), index) && i < |algorithms|
    requires AlgorithmNamed(fold, algorithms[i], ns, value)
    ensures Find(fold, index, ns, value) == Some(algorithms[i])
    ensures forall i' :: 0 <= i' < |algorithms| && AlgorithmNamed(fold, algorithms[i'], ns, value) ==> i' == i
  {
    hide Indexes, AllAlgorithmItems;
    var items := AllAlgorithmItems(algorithms);
    var j :| 0 <= j < |algorithms[i].identifiers| && Names(fold, algorithms[i].identifiers[j], ns, value);
    var k := AlgorithmItemAt(algorithms, i, j);
    FindIsScan(fold, items, index, ns, value, k);
    KeyIsIndexed(fold, items, index, k);
    forall i' | 0 <= i' < |algorithms| && AlgorithmNamed(fold, algorithms[i'], ns, value)
      ensures i' == i
    {
      var j' :| 0 <= j' < |algorithms[i'].identifiers| && Names(fold, algorithms[i'].identifiers[j'], ns, value);
      var k' := AlgorithmItemAt(algorithms, i', j');
      FindIsScan(fold, items, index, ns, value, k');
      SameKeySameItem(fold, items, index, k, k');
      if i < i' {
        AlgorithmStarts(algorithms, i, i');
      } else if i' < i {
        AlgorithmStarts(algorithms, i', i);
      }
    }
  }
}
