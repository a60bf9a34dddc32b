/** Bounded capture of a child process: one byte budget shared by two pipe readers and a controller. */
module Capture {
  import opened Numbers
  import opened Wrappers

  type Bytes = seq<bv8>

  const READ_SIZE: nat := 4096

  datatype StreamName = Stdout | Stderr

  // ----- the synchronized budget -----

  /** What the lock of a capture protects. */
  datatype Budget = Budget(
    limit: int, stdout: Bytes, stderr: Bytes, total: nat, active: int, stopped: bool, limited: bool)
  {
    function Buffer(name: StreamName): Bytes {
      if name.Stdout? then stdout else stderr
    }

    function WithBuffer(name: StreamName, bytes: Bytes): Budget {
      if name.Stdout? then this.(stdout := bytes) else this.(stderr := bytes)
    }

    /** How many of `n` further bytes the budget still has room for. */
    function Keep(n: nat): (k: nat)
      ensures k <= n
    {
      Min(n, Max(limit - total, 0))
    }

    predicate Accepts(chunk: Bytes) {
      !stopped && Keep(|chunk|) == |chunk|
    }

    /** The budget after a reader offered a chunk. */
    function Append(name: StreamName, chunk: Bytes): Budget {
      if stopped then this else
        var keep := Keep(|chunk|);
        WithBuffer(name, Buffer(name) + chunk[..keep])
          .(total := total + keep, limited := limited || keep != |chunk|)
    }

    function ReaderFinished(): Budget {
      this.(active := active - 1)
    }

    function Stop(): Budget {
      this.(stopped := true)
    }
  }

  function Fresh(limit: int, readers: int): Budget {
    Budget(limit, [], [], 0, readers, false, false)
  }

  /** The capture object; each method body runs under the object's condition variable. */
  class BoundedCapture {
    const limit: int
    var buffers: map<StreamName, Bytes>
    var total: nat
    var activeReaders: int
    var stopped: bool
    var outputLimited: bool

    ghost predicate Valid()
      reads this
    {
      Stdout in buffers && Stderr in buffers
    }

    ghost function State(): Budget
      requires Valid()
      reads this
    {
      Budget(limit, buffers[Stdout], buffers[Stderr], total, activeReaders, stopped, outputLimited)
    }

    constructor (limit: int, readerCount: int)
      ensures Valid() && State() == Fresh(limit, readerCount)
    {
      this.limit := limit;
      buffers := map[Stdout := [], Stderr := []];
      total := 0;
      activeReaders := readerCount;
      stopped := false;
      outputLimited := false;
    }

    method Append(name: StreamName, chunk: Bytes) returns (mayContinue: bool)
      requires Valid()
      modifies this
      ensures Valid() && State() == old(State()).Append(name, chunk)
      ensures mayContinue == old(State()).Accepts(chunk)
    {
      if stopped {
        return false;
      }
      var remaining := Max(limit - total, 0);
      var keep := Min(|chunk|, remaining);
      buffers := buffers[name := buffers[name] + chunk[..keep]];
      total := total + keep;
      if keep != |chunk| {
        outputLimited := true;
        return false;
      }
      return true;
    }

    method ReaderFinished()
      requires Valid()
      modifies this`activeReaders
      ensures Valid() && State() == old(State()).ReaderFinished()
    {
      activeReaders := activeReaders - 1;
    }

    /** The pair `wait` returns, once its predicate holds or its timeout has passed. */
    method Wait() returns (readersDone: bool, limitReached: bool)
      requires Valid()
      ensures readersDone == (State().active == 0) && limitReached == State().limited
    {
      return activeReaders == 0, outputLimited;
    }

    method Stop()
      requires Valid()
      modifies this`stopped
      ensures Valid() && State() == old(State()).Stop()
    {
      stopped := true;
    }

    method Snapshot(name: StreamName) returns (bytes: Bytes)
      requires Valid()
      ensures bytes == State().Buffer(name)
    {
      return buffers[name];
    }
  }

  // ----- one reader -----

  /** How a pipe behaves: how many bytes each read delivers, and which reads raise. */
  datatype PipeBehaviour = PipeBehaviour(sizes: nat -> nat, raises: nat -> bool)

  /** The reading end of a child's pipe; `rest` is everything still to come before it closes. */
  class Pipe {
    const behaviour: PipeBehaviour
    var rest: Bytes
    var calls: nat

    constructor (behaviour: PipeBehaviour, rest: Bytes)
      ensures this.behaviour == behaviour && this.rest == rest
    {
      this.behaviour := behaviour;
      this.rest := rest;
      calls := 0;
    }

    /** Between one and n bytes while there are any, none at the end, or an exception. */
    method Read(n: nat) returns (chunk: Option<Bytes>)
      requires n > 0
      modifies this
      ensures calls == old(calls) + 1 && (chunk.None? <==> behaviour.raises(calls))
      ensures chunk.None? ==> rest == old(rest)
      ensures chunk.Some? ==> old(rest) == chunk.value + rest && |chunk.value| <= n
      ensures chunk.Some? ==> (chunk.value == [] <==> old(rest) == [])
    {
      calls := calls + 1;
      if behaviour.raises(calls) {
        return None;
      }
      var most := Min(n, |rest|);
      var k := if most == 0 then 0 else 1 + behaviour.sizes(calls) % most;
      chunk := Some(rest[..k]);
      rest := rest[k..];
    }
  }

  /** Offering bytes in two chunks, the second after the first was accepted, is offering them at once. */
  lemma AppendConcat(b: Budget, name: StreamName, x: Bytes, y: Bytes)
    ensures b.Accepts(x) ==> b.Append(name, x + y) == b.Append(name, x).Append(name, y)
    ensures !b.Accepts(x) ==> b.Append(name, x + y) == b.Append(name, x)
    ensures b.Accepts(x) ==> (b.Append(name, x).Accepts(y) <==> b.Accepts(x + y))
    ensures !b.Accepts(x) ==> !b.Accepts(x + y)
    ensures !b.Accepts(x) && x == [] ==>
      b.Append(name, x + y) == b.Append(name, x).Append(name, y) && !b.Append(name, x).Accepts(y)
  {
    if !b.stopped {
      var keep := b.Keep(|x + y|);
      if b.Accepts(x) {
        assert (x + y)[..keep] == x + y[..b.Append(name, x).Keep(|y|)];
      } else {
        assert (x + y)[..keep] == x[..b.Keep(|x|)];
      }
    }
  }

  lemma AppendNothing(b: Budget, name: StreamName)
    ensures b.Append(name, []) == b
  {
  }

  /** `_drain_pipe` while no other thread touches the budget: however the pipe cuts its bytes into
      reads, the budget ends as if they had been offered at once; after an exception, as if those
      read so far had been. */
  method DrainPipe(pipe: Pipe, name: StreamName, capture: BoundedCapture) returns (ghost taken: Bytes, ghost failed: bool)
    requires capture.Valid()
    modifies pipe, capture
    ensures capture.Valid() && taken <= old(pipe.rest)
    ensures capture.State() == old(capture.State()).Append(name, taken).ReaderFinished()
    ensures !failed ==> taken == old(pipe.rest)
    ensures failed <==> exists c :: old(pipe.calls) < c <= pipe.calls && pipe.behaviour.raises(c)
  {
    hide Budget.Append, Budget.Accepts;
    ghost var start, bytes := capture.State(), pipe.rest;
    AppendNothing(start, name);
    taken, failed := [], false;
    while true
      invariant capture.Valid() && bytes == taken + pipe.rest
      invariant capture.State() == start.Append(name, taken)
      invariant taken != [] ==> start.Accepts(taken)
      invariant old(pipe.calls) <= pipe.calls
      invariant !exists c :: old(pipe.calls) < c <= pipe.calls && pipe.behaviour.raises(c)
      decreases |pipe.rest|
    {
      var chunk := pipe.Read(READ_SIZE);
      if chunk.None? {
        failed := true;
        break;
      }
      if chunk.value == [] {
        break;
      }
      AppendConcat(start, name, taken, chunk.value);
      var more := capture.Append(name, chunk.value);
      taken := taken + chunk.value;
      if !more {
        AppendConcat(start, name, taken, pipe.rest);
        assert taken + pipe.rest == bytes;
        taken := bytes;
        break;
      }
    }
    capture.ReaderFinished();
  }

  // ----- the protocol -----

  datatype ReaderPhase = Reading | Offering(chunk: Bytes) | Finishing | Done

  /** One reader thread. `pipe` is everything the child's pipe will deliver before it closes. */
  datatype Reader = Reader(
    pipe: Bytes, phase: ReaderPhase, consumed: nat, accepted: nat, refused: nat, failed: bool)

  datatype ControllerPhase = Waiting | Stopping | Joining | FirstSnapshot | SecondSnapshot | Returned

  /** `exitedInTime`: whether the process, once waited for, exited before the deadline. */
  datatype Controller = Controller(
    phase: ControllerPhase, timedOut: bool, outputLimited: bool, exitedInTime: bool, stdout: Bytes, stderr: Bytes)

  datatype System = System(budget: Budget, out: Reader, err: Reader, controller: Controller) {
    function ReaderOf(name: StreamName): Reader {
      if name.Stdout? then out else err
    }

    function WithReader(name: StreamName, reader: Reader): System {
      if name.Stdout? then this.(out := reader) else this.(err := reader)
    }
  }

  function Started(pipe: Bytes): Reader {
    Reader(pipe, Reading, 0, 0, 0, false)
  }

  predicate Init(s: System) {
    && s.budget == Fresh(s.budget.limit, 2)
    && s.out == Started(s.out.pipe) && s.err == Started(s.err.pipe)
    && s.controller == Controller(Waiting, false, false, false, [], [])
  }

  /** `stream.read` returns some bytes: at most one read's worth, at least one. */
  predicate ReadsBytes(s: System, t: System, name: StreamName, n: nat) {
    var r := s.ReaderOf(name);
    && r.phase.Reading? && 0 < n <= READ_SIZE && r.consumed + n <= |r.pipe|
    && t == s.WithReader(name,
         r.(phase := Offering(r.pipe[r.consumed..r.consumed + n]), consumed := r.consumed + n))
  }

  /** `stream.read` returns the empty string: the pipe is closed and drained. */
  predicate ReadsEnd(s: System, t: System, name: StreamName) {
    var r := s.ReaderOf(name);
    r.phase.Reading? && r.consumed == |r.pipe| && t == s.WithReader(name, r.(phase := Finishing))
  }

  predicate ReadFails(s: System, t: System, name: StreamName) {
    var r := s.ReaderOf(name);
    r.phase.Reading? && t == s.WithReader(name, r.(phase := Finishing, failed := true))
  }

  predicate Offers(s: System, t: System, name: StreamName) {
    var r := s.ReaderOf(name);
    && r.phase.Offering?
    && t == s.WithReader(name,
         if s.budget.Accepts(r.phase.chunk) then r.(phase := Reading, accepted := r.accepted + 1)
         else r.(phase := Finishing, refused := r.refused + 1))
       .(budget := s.budget.Append(name, r.phase.chunk))
  }

  predicate Finishes(s: System, t: System, name: StreamName) {
    var r := s.ReaderOf(name);
    && r.phase.Finishing?
    && t == s.WithReader(name, r.(phase := Done)).(budget := s.budget.ReaderFinished())
  }

  /** `wait` returns, by its predicate or by its timeout, and the flags are decided.
      `exitsInTime` says whether the process then exits before the deadline. */
  predicate Decides(s: System, t: System, exitsInTime: bool) {
    var done, limited := s.budget.active == 0, s.budget.limited;
    && s.controller.phase.Waiting?
    && t == s.(controller := s.controller.(
         phase := Stopping, outputLimited := limited, exitedInTime := exitsInTime,
         timedOut := !limited && (!done || !exitsInTime)))
  }

  predicate Stops(s: System, t: System) {
    && s.controller.phase.Stopping?
    && t == s.(controller := s.controller.(phase := Joining), budget := s.budget.Stop())
  }

  /** Both bounded joins return, whether or not the readers are done. */
  predicate Joins(s: System, t: System) {
    s.controller.phase.Joining? && t == s.(controller := s.controller.(phase := FirstSnapshot))
  }

  predicate SnapshotsStdout(s: System, t: System) {
    && s.controller.phase.FirstSnapshot?
    && t == s.(controller := s.controller.(phase := SecondSnapshot, stdout := s.budget.stdout))
  }

  predicate SnapshotsStderr(s: System, t: System) {
    && s.controller.phase.SecondSnapshot?
    && t == s.(controller := s.controller.(phase := Returned, stderr := s.budget.stderr))
  }

  ghost predicate ReaderStep(s: System, t: System, name: StreamName) {
    || (exists n :: ReadsBytes(s, t, name, n))
    || ReadsEnd(s, t, name) || ReadFails(s, t, name) || Offers(s, t, name) || Finishes(s, t, name)
  }

  predicate ControllerStep(s: System, t: System) {
    || Decides(s, t, true) || Decides(s, t, false) || Stops(s, t) || Joins(s, t)
    || SnapshotsStdout(s, t) || SnapshotsStderr(s, t)
  }

  ghost predicate Next(s: System, t: System) {
    ReaderStep(s, t, Stdout) || ReaderStep(s, t, Stderr) || ControllerStep(s, t)
  }

  /** Any interleaving of the two readers and the controller. */
  ghost predicate Run(run: seq<System>) {
    && run != [] && Init(run[0])
    && forall i :: 0 <= i < |run| - 1 ==> Next(run[i], run[i + 1])
  }

  // ----- the invariant -----

  function Offered(r: Reader): int {
    r.consumed - if r.phase.Offering? then |r.phase.chunk| else 0
  }

  /** What holds of one reader and its buffer. */
  predicate ReaderInv(r: Reader, buffer: Bytes, b: Budget) {
    && r.consumed <= |r.pipe|
    && (r.phase.Offering? ==>
        && 0 < |r.phase.chunk| <= r.consumed && |r.phase.chunk| <= READ_SIZE
        && r.phase.chunk == r.pipe[r.consumed - |r.phase.chunk|..r.consumed])
    && |buffer| <= Offered(r) && buffer == r.pipe[..|buffer|]
    && r.accepted <= |buffer| && r.refused <= 1
    && (r.refused == 0 ==> |buffer| == Offered(r))
    && (r.refused > 0 ==> (b.limited || b.stopped) && (r.phase.Finishing? || r.phase.Done?))
    && ((r.phase.Finishing? || r.phase.Done?) ==> r.refused == 1 || r.failed || r.consumed == |r.pipe|)
  }

  predicate BudgetInv(b: Budget) {
    && b.total == |b.stdout| + |b.stderr| && b.total <= Max(b.limit, 0)
    && (b.limited ==> b.total == Max(b.limit, 0))
  }

  function Live(r: Reader): int {
    if r.phase.Done? then 0 else 1
  }

  predicate ControllerInv(s: System) {
    var c := s.controller;
    && s.budget.stopped == !(c.phase.Waiting? || c.phase.Stopping?)
    && (!c.phase.Waiting? && !c.timedOut && !c.outputLimited ==>
          s.out.phase.Done? && s.err.phase.Done? && !s.budget.limited && s.out.refused == 0 && s.err.refused == 0)
    && (c.outputLimited ==> s.budget.limited)
    && ((c.phase.SecondSnapshot? || c.phase.Returned?) ==> c.stdout == s.budget.stdout)
    && (c.phase.Returned? ==> c.stderr == s.budget.stderr)
  }

  predicate Inv(s: System) {
    && BudgetInv(s.budget)
    && s.budget.active == Live(s.out) + Live(s.err)
    && ReaderInv(s.out, s.budget.stdout, s.budget) && ReaderInv(s.err, s.budget.stderr, s.budget)
    && ControllerInv(s)
  }

  lemma InitInv(s: System)
    requires Init(s)
    ensures Inv(s)
  {
  }

  lemma OffersKeepsReader(r: Reader, buffer: Bytes, b: Budget, name: StreamName, r': Reader)
    requires ReaderInv(r, buffer, b) && BudgetInv(b) && r.phase.Offering? && buffer == b.Buffer(name)
    requires r' == if b.Accepts(r.phase.chunk) then r.(phase := Reading, accepted := r.accepted + 1)
                   else r.(phase := Finishing, refused := r.refused + 1)
    ensures BudgetInv(b.Append(name, r.phase.chunk))
    ensures ReaderInv(r', b.Append(name, r.phase.chunk).Buffer(name), b.Append(name, r.phase.chunk))
  {
    var chunk := r.phase.chunk;
    if !b.stopped {
      var keep := b.Keep(|chunk|);
      assert buffer + chunk[..keep] == r.pipe[..|buffer| + keep];
    }
  }

  function Other(name: StreamName): StreamName {
    if name.Stdout? then Stderr else Stdout
  }

  /** An offer leaves the other reader's buffer alone and only raises flags. */
  lemma OfferIsLocal(b: Budget, name: StreamName, chunk: Bytes)
    ensures b.Append(name, chunk).Buffer(Other(name)) == b.Buffer(Other(name))
    ensures b.limited ==> b.Append(name, chunk).limited
    ensures b.Append(name, chunk).(stdout := b.stdout, stderr := b.stderr, total := b.total, limited := b.limited) == b
  {
  }

  lemma OffersInv(s: System, t: System, name: StreamName)
    requires Inv(s) && Offers(s, t, name)
    ensures Inv(t)
  {
    var r := s.ReaderOf(name);
    OffersKeepsReader(r, s.budget.Buffer(name), s.budget, name, t.ReaderOf(name));
    OfferIsLocal(s.budget, name, r.phase.chunk);
    if s.budget.stopped {
      assert t.budget == s.budget;
    }
  }

  lemma ReadInv(s: System, t: System, name: StreamName, n: nat)
    requires Inv(s) && ReadsBytes(s, t, name, n)
    ensures Inv(t)
  {
  }

  lemma ReaderStepInv(s: System, t: System, name: StreamName)
    requires Inv(s) && ReaderStep(s, t, name)
    ensures Inv(t)
  {
    if Offers(s, t, name) {
      OffersInv(s, t, name);
    } else if n :| ReadsBytes(s, t, name, n) {
      ReadInv(s, t, name, n);
    } else {
      EndingInv(s, t, name);
    }
  }

  lemma EndingInv(s: System, t: System, name: StreamName)
    requires Inv(s) && (ReadsEnd(s, t, name) || ReadFails(s, t, name) || Finishes(s, t, name))
    ensures Inv(t)
  {
  }

  lemma ControllerStepInv(s: System, t: System)
    requires Inv(s) && ControllerStep(s, t)
    ensures Inv(t)
  {
  }

  lemma NextInv(s: System, t: System)
    requires Inv(s) && Next(s, t)
    ensures Inv(t)
  {
    if ReaderStep(s, t, Stdout) {
      ReaderStepInv(s, t, Stdout);
    } else if ReaderStep(s, t, Stderr) {
      ReaderStepInv(s, t, Stderr);
    } else {
      ControllerStepInv(s, t);
    }
  }

  lemma {:induction false} RunInv(run: seq<System>, i: nat)
    requires Run(run) && i < |run|
    ensures Inv(run[i])
  {
    hide Inv, Next, Init;
    if i == 0 {
      InitInv(run[0]);
    } else {
      RunInv(run, i - 1);
      assert Next(run[i - 1], run[i - 1 + 1]);
      NextInv(run[i - 1], run[i]);
    }
  }

  // ----- what every run keeps -----

  /** In every interleaving both buffers are prefixes of their pipes, and the total is their sum
      and stays within the limit. */
  lemma BuffersArePrefixes(run: seq<System>, i: nat)
    requires Run(run) && i < |run|
    ensures var s := run[i];
      && s.budget.stdout <= s.out.pipe && s.budget.stderr <= s.err.pipe
      && s.budget.total == |s.budget.stdout| + |s.budget.stderr| <= Max(s.budget.limit, 0)
  {
    RunInv(run, i);
  }

  /** What a step can change of the budget's configuration. */
  predicate Monotone(s: System, t: System) {
    && s.budget.limit == t.budget.limit && s.out.pipe == t.out.pipe && s.err.pipe == t.err.pipe
    && (s.budget.limited ==> t.budget.limited) && (s.budget.stopped ==> t.budget.stopped)
    && s.budget.stdout <= t.budget.stdout && s.budget.stderr <= t.budget.stderr
    && ((s.budget.limited || s.budget.stopped) ==>
        s.budget.stdout == t.budget.stdout && s.budget.stderr == t.budget.stderr)
  }

  lemma NextMonotone(s: System, t: System)
    requires Inv(s) && Next(s, t)
    ensures Monotone(s, t)
  {
    if Offers(s, t, Stdout) {
    } else if Offers(s, t, Stderr) {
    } else {
    }
  }

  lemma {:induction false} RunMonotone(run: seq<System>, i: nat, j: nat)
    requires Run(run) && i <= j < |run|
    ensures Monotone(run[i], run[j])
    decreases j
  {
    hide Inv, Next, Init;
    if i == j {
    } else {
      RunMonotone(run, i, j - 1);
      RunInv(run, j - 1);
      assert Next(run[j - 1], run[j - 1 + 1]);
      NextMonotone(run[j - 1], run[j]);
    }
  }

  /** Once the limit flag is set the whole budget is spent and the buffers never change again. */
  lemma LimitFreezes(run: seq<System>, i: nat, j: nat)
    requires Run(run) && i <= j < |run| && run[i].budget.limited
    ensures run[j].budget.limited && run[j].budget.total == Max(run[0].budget.limit, 0)
    ensures run[j].budget.stdout == run[i].budget.stdout && run[j].budget.stderr == run[i].budget.stderr
  {
    RunInv(run, j);
    RunMonotone(run, i, j);
    RunMonotone(run, 0, j);
  }

  /** The readers together accept no more chunks than the limit has bytes, and each stops reading
      after at most one refused chunk. */
  lemma ReadersAreBounded(run: seq<System>, i: nat)
    requires Run(run) && i < |run|
    ensures run[i].out.accepted + run[i].err.accepted <= Max(run[0].budget.limit, 0)
    ensures run[i].out.refused <= 1 && run[i].err.refused <= 1
    ensures forall name :: run[i].ReaderOf(name).refused == 1 ==>
      run[i].ReaderOf(name).phase.Finishing? || run[i].ReaderOf(name).phase.Done?
  {
    RunInv(run, i);
    RunMonotone(run, 0, i);
  }

  /** No reader ever holds more than 4096 bytes that it has not yet offered. */
  lemma ChunksAreSmall(run: seq<System>, i: nat, name: StreamName)
    requires Run(run) && i < |run| && run[i].ReaderOf(name).phase.Offering?
    ensures 0 < |run[i].ReaderOf(name).phase.chunk| <= 4096
  {
    RunInv(run, i);
  }

  /** A result with neither flag set is the child's complete output, pipe errors aside. */
  lemma UnflaggedIsComplete(run: seq<System>, i: nat)
    requires Run(run) && i < |run|
    requires run[i].controller.phase.Returned?
    requires !run[i].controller.timedOut && !run[i].controller.outputLimited
    ensures !run[i].out.failed ==> run[i].controller.stdout == run[0].out.pipe
    ensures !run[i].err.failed ==> run[i].controller.stderr == run[0].err.pipe
  {
    RunInv(run, i);
    RunMonotone(run, 0, i);
  }

  /** Both snapshots show the one state `stop` froze, even if a reader outlives its join. */
  lemma SnapshotsAgree(run: seq<System>, i: nat, j: nat)
    requires Run(run) && i <= j < |run|
    requires run[i].budget.stopped && run[j].controller.phase.Returned?
    ensures run[j].controller.stdout == run[i].budget.stdout
    ensures run[j].controller.stderr == run[i].budget.stderr
  {
    RunInv(run, j);
    RunMonotone(run, i, j);
  }

  // ----- what the limit flag means -----

  /** The controller is past `wait`. */
  predicate Decided(s: System) {
    !s.controller.phase.Waiting?
  }

  /** The flags of the controller are decided once. */
  lemma DecisionKept(s: System, t: System)
    requires Next(s, t) && Decided(s)
    ensures Decided(t) && t.controller.outputLimited == s.controller.outputLimited
    ensures t.controller.timedOut == s.controller.timedOut && t.controller.exitedInTime == s.controller.exitedInTime
  {
  }

  lemma DecisionMade(s: System, t: System)
    requires Next(s, t) && !Decided(s) && Decided(t)
    ensures t.controller.outputLimited == s.budget.limited
    ensures t.controller.timedOut <==> !s.budget.limited && (s.budget.active != 0 || !t.controller.exitedInTime)
  {
  }

  /** The result's flags speak of the moment `wait` returned: one says whether the limit was met then, the
      other that it was not and that a reader was still active or the process did not exit in time. */
  lemma {:induction false} LimitFlagMeaning(run: seq<System>, i: nat) returns (d: nat)
    requires Run(run) && i < |run| && Decided(run[i])
    ensures d < i && !Decided(run[d]) && Decided(run[d + 1])
    ensures run[i].controller.outputLimited == run[d].budget.limited
    ensures run[i].controller.timedOut <==>
      !run[d].budget.limited && (run[d].budget.active != 0 || !run[i].controller.exitedInTime)
  {
    hide Next, Decided;
    assert i > 0 by {
      StartIsUndecided(run);
    }
    assert Next(run[i - 1], run[i - 1 + 1]);
    if Decided(run[i - 1]) {
      d := LimitFlagMeaning(run, i - 1);
      DecisionKept(run[i - 1], run[i]);
    } else {
      d := i - 1;
      DecisionMade(run[i - 1], run[i]);
    }
  }

  lemma StartIsUndecided(run: seq<System>)
    requires Run(run)
    ensures !Decided(run[0])
  {
  }

  /** A result that does not report a limit its readers have met. */
  predicate HasStaleFlag(s: System) {
    s.controller.phase.Returned? && s.budget.limited && !s.controller.outputLimited
  }

  ghost predicate RunOn(run: seq<System>, limit: int, out: Bytes, err: Bytes) {
    Run(run) && run[0].budget.limit == limit && run[0].out.pipe == out && run[0].err.pipe == err
  }

  /** A set flag is true of the result: the whole budget was spent on it. */
  lemma SetFlagIsTrue(run: seq<System>, i: nat)
    requires Run(run) && i < |run| && run[i].controller.phase.Returned? && run[i].controller.outputLimited
    ensures |run[i].controller.stdout| + |run[i].controller.stderr| == Max(run[0].budget.limit, 0)
  {
    RunInv(run, i);
    RunMonotone(run, 0, i);
  }

  /** A stale flag comes with a timeout. */
  lemma StaleMeansTimedOut(run: seq<System>, i: nat)
    requires Run(run) && i < |run| && HasStaleFlag(run[i])
    ensures run[i].controller.timedOut
  {
    RunInv(run, i);
  }

  /** Once the limit is met, more has been read than is kept. */
  predicate OverflowInv(s: System) {
    s.budget.limited ==> s.budget.total < s.out.consumed + s.err.consumed
  }

  lemma OverflowStep(s: System, t: System)
    requires Inv(s) && OverflowInv(s) && Next(s, t)
    ensures OverflowInv(t)
  {
    hide ControllerInv;
    if Offers(s, t, Stdout) {
      OfferOverflows(s, t, Stdout);
    } else if Offers(s, t, Stderr) {
      OfferOverflows(s, t, Stderr);
    } else {
      QuietOverflows(s, t);
    }
  }

  lemma OfferOverflows(s: System, t: System, name: StreamName)
    requires Inv(s) && OverflowInv(s) && Offers(s, t, name)
    ensures OverflowInv(t)
  {
    hide ControllerInv;
  }

  lemma QuietOverflows(s: System, t: System)
    requires OverflowInv(s) && Next(s, t) && !Offers(s, t, Stdout) && !Offers(s, t, Stderr)
    ensures OverflowInv(t)
  {
  }

  lemma {:induction false} RunOverflows(run: seq<System>, i: nat)
    requires Run(run) && i < |run|
    ensures OverflowInv(run[i])
  {
    hide Inv, Next, OverflowInv, Init;
    if i == 0 {
      StartOverflows(run[0]);
    } else {
      RunOverflows(run, i - 1);
      RunInv(run, i - 1);
      assert Next(run[i - 1], run[i - 1 + 1]);
      OverflowStep(run[i - 1], run[i]);
    }
  }

  lemma StartOverflows(s: System)
    requires Init(s)
    ensures OverflowInv(s)
  {
  }

  // ----- runs that end in every way -----

  /** A run whose controller stands where it is and whose reader of `name` may go on reading. */
  ghost predicate Draining(run: seq<System>, limit: int, out: Bytes, err: Bytes, c: Controller) {
    && RunOn(run, limit, out, err)
    && var s := run[|run| - 1];
    && s.controller == c && !s.budget.stopped && s.budget.limit == limit && s.out.pipe == out && s.err.pipe == err
  }

  lemma Extend(run: seq<System>, s: System)
    requires Run(run) && Next(run[|run| - 1], s)
    ensures Run(run + [s])
  {
    var longer := run + [s];
    forall i | 0 <= i < |longer| - 1
      ensures Next(longer[i], longer[i + 1])
    {
      if i < |run| - 1 {
        assert Next(run[i], run[i + 1]);
      }
    }
  }

  /** One byte is read and offered. */
  lemma TakeByte(run: seq<System>, limit: int, out: Bytes, err: Bytes, c: Controller, name: StreamName)
    returns (longer: seq<System>)
    requires Draining(run, limit, out, err, c)
    requires var s := run[|run| - 1]; var r := s.ReaderOf(name); r.phase.Reading? && r.consumed < |r.pipe| && !s.budget.limited
    ensures Draining(longer, limit, out, err, c)
    ensures var s, t := run[|run| - 1], longer[|longer| - 1];
      && t.ReaderOf(Other(name)) == s.ReaderOf(Other(name)) && t.budget.active == s.budget.active
      && t.ReaderOf(name).consumed == s.ReaderOf(name).consumed + 1 && (t.ReaderOf(name).failed <==> s.ReaderOf(name).failed)
      && (t.budget.limited || (t.ReaderOf(name).phase.Reading? && t.budget.total == s.budget.total + 1))
  {
    var s := run[|run| - 1];
    var r := s.ReaderOf(name);
    var chunk := r.pipe[r.consumed..r.consumed + 1];
    var reading := s.WithReader(name, r.(phase := Offering(chunk), consumed := r.consumed + 1));
    assert ReadsBytes(s, reading, name, 1);
    Extend(run, reading);
    var accepts := s.budget.Accepts(chunk);
    var q := reading.ReaderOf(name);
    var offered := reading.WithReader(name,
        if accepts then q.(phase := Reading, accepted := q.accepted + 1) else q.(phase := Finishing, refused := q.refused + 1))
      .(budget := s.budget.Append(name, chunk));
    assert Offers(reading, offered, name);
    Extend(run + [reading], offered);
    longer := run + [reading] + [offered];
  }

  /** A reader goes on until the limit is met or its pipe is drained. */
  lemma {:induction false} Drain(run: seq<System>, limit: int, out: Bytes, err: Bytes, c: Controller, name: StreamName)
    returns (longer: seq<System>)
    requires Draining(run, limit, out, err, c)
    requires var s := run[|run| - 1]; s.ReaderOf(name).phase.Reading? && s.ReaderOf(name).consumed <= |s.ReaderOf(name).pipe|
    requires !run[|run| - 1].budget.limited
    ensures Draining(longer, limit, out, err, c)
    ensures var s, t := run[|run| - 1], longer[|longer| - 1];
      && t.ReaderOf(Other(name)) == s.ReaderOf(Other(name)) && t.budget.active == s.budget.active
      && (t.ReaderOf(name).failed <==> s.ReaderOf(name).failed)
      && (!t.budget.limited ==>
          && t.budget.total == s.budget.total + |s.ReaderOf(name).pipe| - s.ReaderOf(name).consumed
          && t.ReaderOf(name).phase.Reading? && t.ReaderOf(name).consumed == |t.ReaderOf(name).pipe|)
    decreases |run[|run| - 1].ReaderOf(name).pipe| - run[|run| - 1].ReaderOf(name).consumed
  {
    hide Next, Init, Budget.Append, Budget.Accepts;
    var r := run[|run| - 1].ReaderOf(name);
    if r.consumed == |r.pipe| {
      longer := run;
    } else {
      var next := TakeByte(run, limit, out, err, c, name);
      if next[|next| - 1].budget.limited {
        longer := next;
      } else {
        longer := Drain(next, limit, out, err, c, name);
      }
    }
  }

  /** Both pipes, one after the other, until the limit is met or everything is read. */
  lemma DrainBoth(run: seq<System>, limit: int, out: Bytes, err: Bytes, c: Controller) returns (longer: seq<System>)
    requires Draining(run, limit, out, err, c) && run[|run| - 1].budget == Fresh(limit, 2)
    requires run[|run| - 1].out == Started(out) && run[|run| - 1].err == Started(err)
    ensures Draining(longer, limit, out, err, c)
    ensures var s := longer[|longer| - 1];
      && (s.budget.limited <==> |out| + |err| > Max(limit, 0))
      && (!s.budget.limited ==>
          && IsDrained(s.out) && IsDrained(s.err) && s.budget.active == 2)
  {
    hide Next, Init;
    longer := Drain(run, limit, out, err, c, Stdout);
    if !longer[|longer| - 1].budget.limited {
      longer := Drain(longer, limit, out, err, c, Stderr);
    }
    RunInv(longer, |longer| - 1);
    RunOverflows(longer, |longer| - 1);
  }

  predicate IsDrained(r: Reader) {
    r.phase.Reading? && r.consumed == |r.pipe| && !r.failed
  }

  /** A reader meets the end of its pipe and finishes. */
  lemma FinishReader(run: seq<System>, limit: int, out: Bytes, err: Bytes, c: Controller, name: StreamName)
    returns (longer: seq<System>)
    requires Draining(run, limit, out, err, c) && IsDrained(run[|run| - 1].ReaderOf(name)) && run[|run| - 1].budget.active > 0
    ensures Draining(longer, limit, out, err, c)
    ensures var s, t := run[|run| - 1], longer[|longer| - 1];
      && t.ReaderOf(Other(name)) == s.ReaderOf(Other(name)) && !t.ReaderOf(name).failed
      && t.budget == s.budget.(active := s.budget.active - 1)
  {
    var s := run[|run| - 1];
    var ended := s.WithReader(name, s.ReaderOf(name).(phase := Finishing));
    assert ReadsEnd(s, ended, name);
    Extend(run, ended);
    var done := ended.WithReader(name, ended.ReaderOf(name).(phase := Done)).(budget := ended.budget.ReaderFinished());
    assert Finishes(ended, done, name);
    Extend(run + [ended], done);
    longer := run + [ended] + [done];
  }

  lemma Begins(limit: int, out: Bytes, err: Bytes) returns (s: System)
    ensures Init(s) && s.budget == Fresh(limit, 2) && s.out == Started(out) && s.err == Started(err)
    ensures Draining([s], limit, out, err, Controller(Waiting, false, false, false, [], []))
  {
    s := System(Fresh(limit, 2), Started(out), Started(err), Controller(Waiting, false, false, false, [], []));
  }

  /** `wait` returns now. */
  lemma Decide(run: seq<System>, limit: int, out: Bytes, err: Bytes, c: Controller, exits: bool)
    returns (longer: seq<System>, d: Controller)
    requires Draining(run, limit, out, err, c) && c.phase.Waiting?
    ensures Draining(longer, limit, out, err, d) && d.phase.Stopping?
    ensures var s, t := run[|run| - 1], longer[|longer| - 1];
      && t == s.(controller := d) && d.outputLimited == s.budget.limited
      && (s.budget.active == 0 && exits ==> !d.timedOut)
  {
    var s := run[|run| - 1];
    d := c.(phase := Stopping, outputLimited := s.budget.limited, exitedInTime := exits,
            timedOut := !s.budget.limited && (s.budget.active != 0 || !exits));
    assert Decides(s, s.(controller := d), exits);
    Extend(run, s.(controller := d));
    longer := run + [s.(controller := d)];
  }

  /** Stop, join, and take the two snapshots. */
  lemma Return(run: seq<System>, limit: int, out: Bytes, err: Bytes, c: Controller) returns (longer: seq<System>)
    requires Draining(run, limit, out, err, c) && c.phase.Stopping?
    ensures RunOn(longer, limit, out, err)
    ensures var s, t := run[|run| - 1], longer[|longer| - 1];
      && t.controller.phase.Returned? && t.controller.outputLimited == c.outputLimited && t.controller.timedOut == c.timedOut
      && t.budget == s.budget.Stop() && t.out == s.out && t.err == s.err
  {
    hide Init;
    var s := run[|run| - 1];
    var s4 := s.(controller := s.controller.(phase := Joining), budget := s.budget.Stop());
    var s5 := s4.(controller := s4.controller.(phase := FirstSnapshot));
    var s6 := s5.(controller := s5.controller.(phase := SecondSnapshot, stdout := s5.budget.stdout));
    var s7 := s6.(controller := s6.controller.(phase := Returned, stderr := s6.budget.stderr));
    assert Stops(s, s4) && Joins(s4, s5) && SnapshotsStdout(s5, s6) && SnapshotsStderr(s6, s7);
    Extend(run, s4);
    Extend(run + [s4], s5);
    Extend(run + [s4] + [s5], s6);
    Extend(run + [s4] + [s5] + [s6], s7);
    longer := run + [s4] + [s5] + [s6] + [s7];
  }

  /** The call times out at once, and then the readers meet the limit. */
  lemma BuildStale(limit: int, out: Bytes, err: Bytes) returns (run: seq<System>)
    requires |out| + |err| > Max(limit, 0)
    ensures RunOn(run, limit, out, err) && HasStaleFlag(run[|run| - 1])
  {
    hide Next, Init;
    var s := Begins(limit, out, err);
    var a, d := Decide([s], limit, out, err, s.controller, false);
    var b := DrainBoth(a, limit, out, err, d);
    run := Return(b, limit, out, err, d);
  }

  predicate ReportsLimit(s: System) {
    s.controller.phase.Returned? && s.controller.outputLimited
  }

  /** The readers meet the limit, and then `wait` returns. */
  lemma BuildLimited(limit: int, out: Bytes, err: Bytes) returns (run: seq<System>)
    requires |out| + |err| > Max(limit, 0)
    ensures RunOn(run, limit, out, err) && ReportsLimit(run[|run| - 1])
  {
    hide Next, Init;
    var s := Begins(limit, out, err);
    var a := DrainBoth([s], limit, out, err, s.controller);
    var b, d := Decide(a, limit, out, err, s.controller, false);
    run := Return(b, limit, out, err, d);
  }

  /** A result with neither flag, and everything the child wrote. */
  predicate IsWholeResult(s: System, out: Bytes, err: Bytes) {
    && s.controller.phase.Returned? && !s.controller.timedOut && !s.controller.outputLimited
    && s.controller.stdout == out && s.controller.stderr == err
  }

  /** The readers drain both pipes, and the process exits in time. */
  lemma BuildWhole(limit: int, out: Bytes, err: Bytes) returns (run: seq<System>)
    requires |out| + |err| <= Max(limit, 0)
    ensures RunOn(run, limit, out, err) && IsWholeResult(run[|run| - 1], out, err)
  {
    hide Next, Init;
    var s := Begins(limit, out, err);
    var a := DrainBoth([s], limit, out, err, s.controller);
    var b := FinishReader(a, limit, out, err, s.controller, Stdout);
    var e := FinishReader(b, limit, out, err, s.controller, Stderr);
    var f, d := Decide(e, limit, out, err, s.controller, true);
    run := Return(f, limit, out, err, d);
    UnflaggedIsComplete(run, |run| - 1);
  }

  /** An ordinary command: a run can return everything the child wrote, with neither flag, exactly when
      that is within the limit. */
  lemma WholeResultIff(limit: int, out: Bytes, err: Bytes)
    ensures (exists run :: RunOn(run, limit, out, err) && IsWholeResult(run[|run| - 1], out, err))
       <==> |out| + |err| <= Max(limit, 0)
  {
    hide Inv, Next, Init;
    if run :| RunOn(run, limit, out, err) && IsWholeResult(run[|run| - 1], out, err) {
      WholeIsWithin(run, limit, out, err);
    }
    if |out| + |err| <= Max(limit, 0) {
      var run := BuildWhole(limit, out, err);
    }
  }

  lemma WholeIsWithin(run: seq<System>, limit: int, out: Bytes, err: Bytes)
    requires RunOn(run, limit, out, err) && IsWholeResult(run[|run| - 1], out, err)
    ensures |out| + |err| <= Max(limit, 0)
  {
    RunInv(run, |run| - 1);
    RunMonotone(run, 0, |run| - 1);
  }

  /** And a run can report the limit exactly when the child writes more. */
  lemma LimitedIff(limit: int, out: Bytes, err: Bytes)
    ensures (exists run :: RunOn(run, limit, out, err) && ReportsLimit(run[|run| - 1]))
       <==> |out| + |err| > Max(limit, 0)
  {
    hide Inv, Next, Init;
    if run :| RunOn(run, limit, out, err) && ReportsLimit(run[|run| - 1]) {
      LimitedOverflows(run, limit, out, err);
    }
    if |out| + |err| > Max(limit, 0) {
      var run := BuildLimited(limit, out, err);
    }
  }

  lemma LimitedOverflows(run: seq<System>, limit: int, out: Bytes, err: Bytes)
    requires RunOn(run, limit, out, err) && ReportsLimit(run[|run| - 1])
    ensures |out| + |err| > Max(limit, 0)
  {
    RunInv(run, |run| - 1);
    RunMonotone(run, 0, |run| - 1);
    RunOverflows(run, |run| - 1);
  }

  /** The flag can be stale exactly when the child writes more than the limit. */
  lemma StaleFlagIff(limit: int, out: Bytes, err: Bytes)
    ensures (exists run :: RunOn(run, limit, out, err) && HasStaleFlag(run[|run| - 1])) <==> |out| + |err| > Max(limit, 0)
  {
    if run :| RunOn(run, limit, out, err) && HasStaleFlag(run[|run| - 1]) {
      StaleOverflows(run, limit, out, err);
    }
    if |out| + |err| > Max(limit, 0) {
      var run := BuildStale(limit, out, err);
    }
  }

  lemma StaleOverflows(run: seq<System>, limit: int, out: Bytes, err: Bytes)
    requires RunOn(run, limit, out, err) && HasStaleFlag(run[|run| - 1])
    ensures |out| + |err| > Max(limit, 0)
  {
    var last := |run| - 1;
    RunInv(run, last);
    RunOverflows(run, last);
    RunMonotone(run, 0, last);
  }
}
