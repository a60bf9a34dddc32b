/** Iterative-exclusion enumeration of the cipher suites a server accepts. */
module Enumeration {
  import opened Wrappers
  import opened Sequences

  type Suite = string

  /** One handshake: it timed out, or it ended with the suite picked, if any. */
  datatype Reply = TimedOut | Answer(picked: Option<Suite>)

  /** What a server answers to an offer; the round lets it change its mind at any time. */
  type Server = (nat, seq<Suite>) -> Reply

  /** What the local OpenSSL lists for the protocol. */
  datatype Candidates = Unknown | Listed(suites: seq<Suite>)

  /** `s.remove(x)`. */
  function Without(s: seq<Suite>, x: Suite): (r: seq<Suite>)
    requires x in s
    ensures |r| + 1 == |s|
  {
    var i := IndexOf(s, x);
    s[..i] + s[i + 1..]
  }

  lemma WithoutCounts(s: seq<Suite>, x: Suite)
    requires x in s
    ensures multiset(Without(s, x)) + multiset{x} == multiset(s)
  {
    var i := IndexOf(s, x);
    assert s == s[..i] + [x] + s[i + 1..];
  }

  /** The suites picked in order, and whether a timeout cut the enumeration short. */
  datatype Run = Run(accepted: seq<Suite>, incomplete: bool)

  /** No suite comes out of this answer. */
  predicate Stops(reply: Reply, offer: seq<Suite>) {
    reply == TimedOut || reply.picked.None? || reply.picked.value !in offer
  }

  /** What round after round yields from an offer on. */
  function RunFrom(server: Server, round: nat, offer: seq<Suite>): (run: Run)
    ensures |run.accepted| <= |offer|
    decreases |offer|
  {
    if offer == [] then Run([], false) else
      var reply := server(round, offer);
      if Stops(reply, offer) then Run([], reply == TimedOut) else
        var x := reply.picked.value;
        var rest := RunFrom(server, round + 1, Without(offer, x));
        Run([x] + rest.accepted, rest.incomplete)
  }

  function RunOf(server: Server, candidates: seq<Suite>): Run {
    RunFrom(server, 0, candidates)
  }

  datatype Sweep = Sweep(accepted: seq<Suite>, incomplete: bool, hadCandidates: bool)

  /** What an enumeration reports. */
  function SweepOf(listed: Candidates, server: Server): Sweep {
    match listed
    case Unknown => Sweep([], true, false)
    case Listed(suites) =>
      var run := RunOf(server, suites);
      Sweep(run.accepted, run.incomplete, suites != [])
  }

  /** `_enumerate_ciphers`. One handshake is made for every accepted suite and at most one more. */
  method EnumerateCiphers(listed: Candidates, server: Server) returns (sweep: Sweep, handshakes: nat)
    ensures sweep == SweepOf(listed, server)
    ensures |sweep.accepted| <= handshakes <= |sweep.accepted| + 1
    ensures handshakes <= if listed.Listed? then |listed.suites| else 0
  {
    hide RunFrom, Without;
    handshakes := 0;
    if listed == Unknown {
      return Sweep([], true, false), handshakes;
    }
    var remaining, accepted := listed.suites, [];
    while remaining != []
      invariant handshakes == |accepted| && handshakes + |remaining| == |listed.suites|
      invariant var rest := RunFrom(server, |accepted|, remaining);
        RunOf(server, listed.suites) == Run(accepted + rest.accepted, rest.incomplete)
      decreases |remaining|
    {
      RunUnfolds(server, |accepted|, remaining);
      var reply := server(|accepted|, remaining);
      handshakes := handshakes + 1;
      if reply == TimedOut {
        return Sweep(accepted, true, true), handshakes;
      }
      if reply.picked.None? || reply.picked.value !in remaining {
        break;
      }
      accepted, remaining := accepted + [reply.picked.value], Without(remaining, reply.picked.value);
    }
    RunUnfolds(server, |accepted|, remaining);
    return Sweep(accepted, false, listed.suites != []), handshakes;
  }

  lemma RunUnfolds(server: Server, round: nat, offer: seq<Suite>)
    ensures offer == [] ==> RunFrom(server, round, offer) == Run([], false)
    ensures offer != [] && Stops(server(round, offer), offer) ==>
      RunFrom(server, round, offer) == Run([], server(round, offer) == TimedOut)
    ensures offer != [] && !Stops(server(round, offer), offer) ==>
      var x := server(round, offer).picked.value;
      var rest := RunFrom(server, round + 1, Without(offer, x));
      RunFrom(server, round, offer) == Run([x] + rest.accepted, rest.incomplete)
  {
  }

  // ----- any server -----

  /** Against any server the accepted suites are some of the candidates, none more often than it
      is listed, so distinct candidates give distinct accepted suites. */
  lemma AcceptedAreCandidates(server: Server, candidates: seq<Suite>)
    ensures multiset(RunOf(server, candidates).accepted) <= multiset(candidates)
    ensures NoDuplicates(candidates) ==> NoDuplicates(RunOf(server, candidates).accepted)
  {
    var accepted := RunOf(server, candidates).accepted;
    AcceptedCounts(server, 0, candidates);
    if NoDuplicates(candidates) {
      CountsOfDistinct(candidates);
      DistinctFromCounts(accepted);
    }
  }

  lemma {:induction false} AcceptedCounts(server: Server, round: nat, offer: seq<Suite>)
    ensures multiset(RunFrom(server, round, offer).accepted) <= multiset(offer)
    decreases |offer|
  {
    if offer == [] || Stops(server(round, offer), offer) {
    } else {
      var x := server(round, offer).picked.value;
      WithoutCounts(offer, x);
      AcceptedCounts(server, round + 1, Without(offer, x));
    }
  }

  /** Distinct candidates are exactly what makes every server's accepted suites distinct. */
  lemma DistinctIffCandidatesAre(candidates: seq<Suite>)
    ensures NoDuplicates(candidates) <==> forall server :: NoDuplicates(RunOf(server, candidates).accepted)
  {
    if NoDuplicates(candidates) {
      forall server
        ensures NoDuplicates(RunOf(server, candidates).accepted)
      {
        AcceptedAreCandidates(server, candidates);
      }
    } else {
      var i, j :| 0 <= i < j < |candidates| && candidates[i] == candidates[j];
      RepeatedIsPicked(candidates, i, j);
    }
  }

  /** A server that always picks a repeated candidate is shown accepting it twice. */
  lemma RepeatedIsPicked(candidates: seq<Suite>, i: nat, j: nat)
    requires i < j < |candidates| && candidates[i] == candidates[j]
    ensures exists server :: !NoDuplicates(RunOf(server, candidates).accepted)
  {
    hide RunFrom, Without;
    var x := candidates[i];
    var server: Server := (round, offer) => Answer(Some(x));
    WithoutKeepsRepeated(candidates, i, j);
    RunUnfolds(server, 0, candidates);
    RunUnfolds(server, 1, Without(candidates, x));
    var accepted := RunOf(server, candidates).accepted;
    assert accepted[0] == x && accepted[1] == x;
    assert !NoDuplicates(RunOf(server, candidates).accepted);
  }

  lemma WithoutKeepsRepeated(s: seq<Suite>, i: nat, j: nat)
    requires i < j < |s| && s[i] == s[j]
    ensures s[i] in s && s[i] in Without(s, s[i])
  {
    var k := IndexOf(s, s[i]);
    assert forall m :: 0 <= m < k ==> s[..k][m] != s[i];
    assert forall m :: 0 <= m < k ==> s[m] == s[..k][m];
    assert s[k + 1..][j - k - 1] == s[j];
  }

  /** `cut` answers like `server` until a round, from which on it times out. */
  ghost predicate CutsAt(server: Server, cut: Server, round: nat) {
    forall i: nat, offer :: cut(i, offer) == if i < round then server(i, offer) else TimedOut
  }

  /** A timeout loses only the tail of what the same server would have shown, and is reported. */
  lemma TimeoutKeepsPrefix(server: Server, cut: Server, round: nat, candidates: seq<Suite>)
    requires CutsAt(server, cut, round)
    ensures var full, part := RunOf(server, candidates), RunOf(cut, candidates);
      && part.accepted == full.accepted[..if |full.accepted| <= round then |full.accepted| else round]
      && (|full.accepted| > round ==> part.incomplete)
      && (!part.incomplete ==> part == full)
  {
    TimeoutKeepsPrefixFrom(server, cut, round, 0, candidates);
  }

  lemma {:induction false} TimeoutKeepsPrefixFrom(server: Server, cut: Server, round: nat, i: nat, offer: seq<Suite>)
    requires CutsAt(server, cut, round) && i <= round
    ensures var full, part := RunFrom(server, i, offer), RunFrom(cut, i, offer);
      && part.accepted == full.accepted[..if |full.accepted| <= round - i then |full.accepted| else round - i]
      && (|full.accepted| > round - i ==> part.incomplete)
      && (!part.incomplete ==> part == full)
    decreases |offer|
  {
    if offer == [] || i == round || Stops(server(i, offer), offer) {
    } else {
      TimeoutKeepsPrefixFrom(server, cut, round, i + 1, Without(offer, server(i, offer).picked.value));
    }
  }

  // ----- a server with a preference order -----

  function FirstOffered(preferences: seq<Suite>, offer: seq<Suite>): (r: Option<Suite>)
    ensures r.Some? ==> r.value in preferences && r.value in offer
    ensures r.None? ==> forall x :: x in preferences ==> x !in offer
  {
    if preferences == [] then None
    else if preferences[0] in offer then Some(preferences[0])
    else FirstOffered(preferences[1..], offer)
  }

  /** Always picks its most preferred suite on offer, and declines when it accepts none. */
  ghost predicate Prefers(server: Server, preferences: seq<Suite>) {
    forall i: nat, offer :: server(i, offer) == Answer(FirstOffered(preferences, offer))
  }

  /** The preferences among the candidates, in the server's order. */
  function Acceptable(preferences: seq<Suite>, candidates: seq<Suite>): (r: seq<Suite>)
    ensures forall x :: x in r <==> x in preferences && x in candidates
  {
    if preferences == [] then []
    else (if preferences[0] in candidates then [preferences[0]] else []) + Acceptable(preferences[1..], candidates)
  }

  /** Enumeration is exact against such a server: all the acceptable candidates, in its order. */
  lemma PreferenceIsEnumerated(server: Server, preferences: seq<Suite>, candidates: seq<Suite>)
    requires Prefers(server, preferences) && NoDuplicates(preferences) && NoDuplicates(candidates)
    ensures RunOf(server, candidates) == Run(Acceptable(preferences, candidates), false)
  {
    PreferenceIsEnumeratedFrom(server, preferences, 0, candidates);
  }

  lemma {:induction false} PreferenceIsEnumeratedFrom(server: Server, preferences: seq<Suite>,
                                                      round: nat, offer: seq<Suite>)
    requires Prefers(server, preferences) && NoDuplicates(preferences) && NoDuplicates(offer)
    ensures RunFrom(server, round, offer) == Run(Acceptable(preferences, offer), false)
    decreases |offer|
  {
    var first := FirstOffered(preferences, offer);
    assert server(round, offer) == Answer(first);
    if first.None? {
      NoneAcceptable(preferences, offer);
    } else {
      var rest := Without(offer, first.value);
      WithoutOfDistinct(offer, first.value);
      PreferenceIsEnumeratedFrom(server, preferences, round + 1, rest);
      FirstIsTakenOff(preferences, offer, rest, first.value);
    }
  }

  lemma NoneAcceptable(preferences: seq<Suite>, offer: seq<Suite>)
    requires FirstOffered(preferences, offer).None?
    ensures Acceptable(preferences, offer) == []
  {
    var r := Acceptable(preferences, offer);
    assert forall x :: x !in r;
  }

  lemma WithoutOfDistinct(s: seq<Suite>, x: Suite)
    requires NoDuplicates(s) && x in s
    ensures forall y :: y in Without(s, x) <==> y in s && y != x
    ensures NoDuplicates(Without(s, x))
  {
    CountsOfDistinct(s);
    WithoutCounts(s, x);
    var r := Without(s, x);
    assert forall y :: multiset(r)[y] <= (multiset(r) + multiset{x})[y];
    DistinctFromCounts(r);
    forall y
      ensures y in r <==> y in s && y != x
    {
      assert y in r <==> multiset(r)[y] > 0;
      assert y in s <==> multiset(s)[y] > 0;
      assert multiset(s)[y] == multiset(r)[y] + if y == x then 1 else 0;
    }
  }

  lemma FirstIsAlone(preferences: seq<Suite>)
    requires NoDuplicates(preferences)
    ensures preferences != [] ==> preferences[0] !in preferences[1..] && NoDuplicates(preferences[1..])
  {
    if preferences != [] {
      assert forall i :: 0 <= i < |preferences| - 1 ==> preferences[1..][i] == preferences[i + 1];
    }
  }

  lemma OffersUnfold(preferences: seq<Suite>, offer: seq<Suite>)
    requires preferences != []
    ensures FirstOffered(preferences, offer)
         == if preferences[0] in offer then Some(preferences[0]) else FirstOffered(preferences[1..], offer)
    ensures Acceptable(preferences, offer)
         == if preferences[0] in offer then [preferences[0]] + Acceptable(preferences[1..], offer)
            else Acceptable(preferences[1..], offer)
  {
    assert [] + Acceptable(preferences[1..], offer) == Acceptable(preferences[1..], offer);
  }

  lemma {:induction false} FirstIsTakenOff(preferences: seq<Suite>, left: seq<Suite>, rest: seq<Suite>, x: Suite)
    requires NoDuplicates(preferences)
    requires FirstOffered(preferences, left) == Some(x)
    requires forall y :: y in rest <==> y in left && y != x
    ensures Acceptable(preferences, left) == [x] + Acceptable(preferences, rest)
  {
    hide NoDuplicates, FirstOffered, Acceptable;
    assert preferences != [] by {
      assert x in preferences;
    }
    var tail := preferences[1..];
    FirstIsAlone(preferences);
    OffersUnfold(preferences, left);
    OffersUnfold(preferences, rest);
    if preferences[0] == x {
      SameAcceptable(tail, left, rest);
    } else {
      FirstIsTakenOff(tail, left, rest, x);
    }
  }

  lemma {:induction false} SameAcceptable(preferences: seq<Suite>, a: seq<Suite>, b: seq<Suite>)
    requires forall y :: y in preferences ==> (y in a <==> y in b)
    ensures Acceptable(preferences, a) == Acceptable(preferences, b)
  {
    if preferences == [] {
    } else {
      SameAcceptable(preferences[1..], a, b);
    }
  }

  // ----- one protocol version -----

  datatype ProtocolResult = ProtocolResult(offered: bool, accepted: seq<Suite>, incomplete: bool)

  /** What the native selector found beyond OpenSSL's reach. */
  datatype Native = Native(accepted: seq<Suite>, incomplete: bool)

  /** `probe_legacy_protocol`: the native suites are asked for only after a usable, complete sweep
      of a direct connection, and join without repetition. */
  method ProbeLegacyProtocol(listed: Candidates, server: Server, startTls: bool, nativeFallback: bool, native: Native)
    returns (r: ProtocolResult)
    ensures r == ResultOf(SweepOf(listed, server), startTls, nativeFallback, native)
  {
    var sweep, _ := EnumerateCiphers(listed, server);
    var accepted, incomplete := sweep.accepted, sweep.incomplete;
    if !startTls && nativeFallback && sweep.hadCandidates && !incomplete {
      for i := 0 to |native.accepted|
        invariant accepted == sweep.accepted + Beyond(sweep.accepted, native.accepted[..i])
      {
        var cipher := native.accepted[i];
        assert native.accepted[..i + 1][..i] == native.accepted[..i];
        if cipher !in accepted {
          accepted := accepted + [cipher];
        }
      }
      assert native.accepted[..|native.accepted|] == native.accepted;
      incomplete := incomplete || native.incomplete;
    }
    r := ProtocolResult(accepted != [], accepted, incomplete);
  }

  function ResultOf(sweep: Sweep, startTls: bool, nativeFallback: bool, native: Native): ProtocolResult {
    var joins := !startTls && nativeFallback && sweep.hadCandidates && !sweep.incomplete;
    var accepted := sweep.accepted + if joins then Beyond(sweep.accepted, native.accepted) else [];
    ProtocolResult(accepted != [], accepted, sweep.incomplete || (joins && native.incomplete))
  }

  /** Every accepted suite was picked by the server from what OpenSSL listed or is a native one, none
      is reported twice, and a complete result against a preference server misses nothing: its
      accepted suites are its acceptable candidates and then the further native ones. */
  lemma ResultIsSound(listed: seq<Suite>, server: Server, startTls: bool, nativeFallback: bool, native: Native)
    requires NoDuplicates(listed)
    ensures var r := ResultOf(SweepOf(Listed(listed), server), startTls, nativeFallback, native);
      && NoDuplicates(r.accepted)
      && (forall x :: x in r.accepted ==> x in listed || (x in native.accepted && !startTls && nativeFallback))
      && (r.offered <==> r.accepted != [])
      && (forall preferences :: NoDuplicates(preferences) && Prefers(server, preferences) ==>
            r.accepted == Acceptable(preferences, listed) +
              if !startTls && nativeFallback && listed != []
              then Beyond(Acceptable(preferences, listed), native.accepted) else [])
  {
    var accepted := RunOf(server, listed).accepted;
    AcceptedAreCandidates(server, listed);
    BeyondIsDistinct(accepted, native.accepted);
    forall x | x in accepted
      ensures x in listed
    {
      assert multiset(accepted)[x] > 0;
      assert x in multiset(listed);
    }
    forall preferences | NoDuplicates(preferences) && Prefers(server, preferences)
      ensures RunOf(server, listed) == Run(Acceptable(preferences, listed), false)
    {
      PreferenceIsEnumerated(server, preferences, listed);
    }
  }

  /** The candidates left on offer once these were picked. */
  function Remaining(candidates: seq<Suite>, picked: seq<Suite>): seq<Suite>
    decreases |picked|
  {
    if picked == [] then candidates
    else if picked[0] !in candidates then []
    else Remaining(Without(candidates, picked[0]), picked[1..])
  }

  /** The last handshake, the one with no suite to show, timed out. */
  ghost predicate LastTimesOut(server: Server, round: nat, candidates: seq<Suite>, picked: seq<Suite>) {
    var left := Remaining(candidates, picked);
    left != [] && server(round + |picked|, left) == TimedOut
  }

  /** The k-th handshake offers what is left and yields the k-th accepted suite. */
  predicate PicksAt(server: Server, round: nat, candidates: seq<Suite>, picked: seq<Suite>, k: nat)
    requires k < |picked|
  {
    var left := Remaining(candidates, picked[..k]);
    picked[k] in left && server(round + k, left) == Answer(Some(picked[k]))
  }

  /** No suite comes of what is left at the end. */
  predicate EndsThere(server: Server, round: nat, candidates: seq<Suite>, picked: seq<Suite>) {
    var left := Remaining(candidates, picked);
    left == [] || Stops(server(round + |picked|, left), left)
  }

  lemma AfterFirst(server: Server, round: nat, offer: seq<Suite>, x: Suite, more: seq<Suite>)
    requires x in offer
    ensures var rest := Without(offer, x);
      && (forall k :: 1 <= k <= |more| ==>
            (PicksAt(server, round, offer, [x] + more, k) <==> PicksAt(server, round + 1, rest, more, k - 1)))
      && (EndsThere(server, round, offer, [x] + more) <==> EndsThere(server, round + 1, rest, more))
      && (LastTimesOut(server, round, offer, [x] + more) <==> LastTimesOut(server, round + 1, rest, more))
  {
    hide Without, Stops;
    var all := [x] + more;
    assert all[1..] == more;
    forall k | 1 <= k <= |more|
      ensures PicksAt(server, round, offer, all, k) <==> PicksAt(server, round + 1, Without(offer, x), more, k - 1)
    {
      assert all[..k][0] == x && all[..k][1..] == more[..k - 1];
    }
  }

  /** Every handshake offers what is left and yields the next accepted suite, the last one none. */
  lemma {:induction false} RunIsTraced(server: Server, round: nat, offer: seq<Suite>)
    ensures var run := RunFrom(server, round, offer);
      && (forall k :: 0 <= k < |run.accepted| ==> PicksAt(server, round, offer, run.accepted, k))
      && EndsThere(server, round, offer, run.accepted)
      && (run.incomplete <==> LastTimesOut(server, round, offer, run.accepted))
    decreases |offer|
  {
    hide Without, PicksAt, EndsThere, LastTimesOut;
    var run := RunFrom(server, round, offer);
    if offer == [] || Stops(server(round, offer), offer) {
      NonePicked(server, round, offer);
    } else {
      var x := server(round, offer).picked.value;
      var rest := RunFrom(server, round + 1, Without(offer, x));
      RunIsTraced(server, round + 1, Without(offer, x));
      AfterFirst(server, round, offer, x, rest.accepted);
      FirstPicked(server, round, offer, x, rest.accepted);
      forall k | 0 <= k < |run.accepted|
        ensures PicksAt(server, round, offer, run.accepted, k)
      {
        if k > 0 {
          assert PicksAt(server, round + 1, Without(offer, x), rest.accepted, k - 1);
        }
      }
    }
  }

  lemma NonePicked(server: Server, round: nat, offer: seq<Suite>)
    requires offer == [] || Stops(server(round, offer), offer)
    ensures EndsThere(server, round, offer, [])
    ensures LastTimesOut(server, round, offer, []) <==> offer != [] && server(round, offer) == TimedOut
  {
  }

  lemma FirstPicked(server: Server, round: nat, offer: seq<Suite>, x: Suite, more: seq<Suite>)
    requires x in offer && server(round, offer) == Answer(Some(x))
    ensures PicksAt(server, round, offer, [x] + more, 0)
  {
    assert ([x] + more)[..0] == [];
  }

  /** A result is incomplete exactly when the candidates are unknown, the last handshake timed out, or the
      native suites joined and their own sweep was inconclusive. */
  lemma IncompleteIff(listed: Candidates, server: Server, startTls: bool, nativeFallback: bool, native: Native)
    ensures ResultOf(SweepOf(listed, server), startTls, nativeFallback, native).incomplete <==>
      match listed
      case Unknown => true
      case Listed(suites) =>
        || LastTimesOut(server, 0, suites, RunOf(server, suites).accepted)
        || (!startTls && nativeFallback && suites != [] && native.incomplete)
    ensures listed == Unknown ==> ResultOf(SweepOf(listed, server), startTls, nativeFallback, native).accepted == []
  {
    if listed.Listed? {
      RunIsTraced(server, 0, listed.suites);
    }
  }

  /** The native suites that a direct connection adds: those not already accepted, unless the sweep was
      cut short. */
  lemma NativeJoins(listed: seq<Suite>, server: Server, startTls: bool, nativeFallback: bool, native: Native)
    requires NoDuplicates(listed)
    ensures var r := ResultOf(SweepOf(Listed(listed), server), startTls, nativeFallback, native);
      var picked := RunOf(server, listed).accepted;
      var joins := !startTls && nativeFallback && listed != [] && !LastTimesOut(server, 0, listed, picked);
      && picked <= r.accepted
      && (forall x :: x in r.accepted <==> x in picked || (joins && x in native.accepted))
      && (forall i, j :: |picked| <= i < j < |r.accepted| ==>
            IndexOf(native.accepted, r.accepted[i]) < IndexOf(native.accepted, r.accepted[j]))
  {
    hide RunFrom;
    RunIsTraced(server, 0, listed);
    var picked := RunOf(server, listed).accepted;
    forall i, j | 0 <= i < j < |Beyond(picked, native.accepted)|
      ensures IndexOf(native.accepted, Beyond(picked, native.accepted)[i])
            < IndexOf(native.accepted, Beyond(picked, native.accepted)[j])
    {
      BeyondKeepsOrder(picked, native.accepted, i, j);
    }
  }

  lemma {:induction false} BeyondKeepsOrder(base: seq<Suite>, more: seq<Suite>, i: nat, j: nat)
    requires i < j < |Beyond(base, more)|
    ensures IndexOf(more, Beyond(base, more)[i]) < IndexOf(more, Beyond(base, more)[j])
  {
    var init, last := more[..|more| - 1], more[|more| - 1];
    var before := Beyond(base, init);
    assert more == init + [last];
    IndexOfPrefix(init, last, Beyond(base, more)[i]);
    if j < |before| {
      BeyondKeepsOrder(base, init, i, j);
      IndexOfPrefix(init, last, Beyond(base, more)[j]);
    } else {
      IndexOfPrefix(init, last, last);
    }
  }

  lemma {:induction false} BeyondIsDistinct(base: seq<Suite>, more: seq<Suite>)
    requires NoDuplicates(base)
    ensures NoDuplicates(base + Beyond(base, more))
  {
    if more == [] {
    } else {
      BeyondIsDistinct(base, more[..|more| - 1]);
      var before, last := Beyond(base, more[..|more| - 1]), more[|more| - 1];
      assert base + (before + [last]) == (base + before) + [last];
    }
  }

  /** The suites of `more` not in `base`, each at its first occurrence. */
  function Beyond(base: seq<Suite>, more: seq<Suite>): (r: seq<Suite>)
    ensures forall x :: x in r <==> x in more && x !in base
  {
    if more == [] then []
    else
      var before, last := Beyond(base, more[..|more| - 1]), more[|more| - 1];
      assert more == more[..|more| - 1] + [last];
      if last in base || last in before then before else before + [last]
  }
}
