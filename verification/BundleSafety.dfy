/** What publication keeps: originals, unmanaged files, and the exact previous bundle on rollback. */
module BundleSafety {
  import opened Wrappers
  import opened Sequences
  import opened Bundle

  function Saved(d: Disk): Dir {
    if d.backup.None? then map[] else d.backup.value
  }

  /** Every original entry is whole, at its place or in the backup. */
  predicate Conserved(orig: Dir, d: Disk) {
    forall n :: n in orig ==> (n in d.out && d.out[n] == orig[n]) || (n in Saved(d) && Saved(d)[n] == orig[n])
  }

  /** Files the bundle does not manage are untouched. */
  predicate UnmanagedKept(orig: Dir, managed: set<string>, d: Disk) {
    && (forall n :: n in orig && n !in managed ==> n in d.out && d.out[n] == orig[n])
    && (forall n :: n in d.out && n !in managed ==> n in orig)
  }

  predicate Kept(orig: Dir, managed: set<string>, d: Disk) {
    Conserved(orig, d) && UnmanagedKept(orig, managed, d)
  }

  /** The rollback invariant: `mine` names what this run put in place. Everything else visible is
      original, the backup holds originals only, and nothing original is covered without a backup. */
  predicate Safe(orig: Dir, managed: set<string>, mine: set<string>, d: Disk) {
    && mine <= managed
    && (forall n :: n in Saved(d) ==>
          n in managed && n in orig && Saved(d)[n] == orig[n] && (n in d.out ==> n in mine))
    && (forall n :: n in d.out && n !in mine ==> n in orig && d.out[n] == orig[n])
    && (forall n :: n in orig ==> (n in d.out && n !in mine) || n in Saved(d))
  }

  lemma SafeIsKept(orig: Dir, managed: set<string>, mine: set<string>, d: Disk)
    requires Safe(orig, managed, mine, d)
    ensures Kept(orig, managed, d)
  {
  }

  /** `v` continues `w`, and every state since then keeps the originals. */
  predicate KeptSince(orig: Dir, managed: set<string>, w: World, v: World) {
    && w.past <= v.past
    && forall k :: |w.past| <= k < |v.past| ==> Kept(orig, managed, v.past[k])
  }

  lemma KeptTransitive(orig: Dir, managed: set<string>, u: World, v: World, w: World)
    requires KeptSince(orig, managed, u, v) && KeptSince(orig, managed, v, w)
    ensures KeptSince(orig, managed, u, w)
  {
    hide Kept;
    forall k | |u.past| <= k < |w.past|
      ensures Kept(orig, managed, w.past[k])
    {
      if k < |v.past| {
        assert w.past[k] == v.past[k];
      }
    }
  }

  lemma KeptStep(orig: Dir, managed: set<string>, w: World, d: Disk)
    requires Kept(orig, managed, d)
    ensures KeptSince(orig, managed, w, w.Become(d))
  {
  }

  /** A directory lists each of its names once. */
  ghost predicate ListsOnce(env: Env) {
    forall s :: NoDuplicates(env.listing(s)) && SetOf(env.listing(s)) == s
  }

  // ----- calls that leave the visible directory alone -----

  predicate Quiet(op: Op) {
    op.MakeStage? || op.Write? || op.ReadBack? || op.ListBackup? || op.Probe? || op.RemoveStage?
  }

  lemma QuietKeeps(env: Env, w: World, op: Op)
    requires Quiet(op)
    ensures Do(env, w, op).disk.out == w.disk.out && Do(env, w, op).disk.backup == w.disk.backup
  {
  }

  /** The visible directory and the backup have not changed since `w`. */
  predicate SameSince(w: World, v: World) {
    && w.past <= v.past && v.disk.out == w.disk.out && v.disk.backup == w.disk.backup
    && forall k :: |w.past| <= k < |v.past| ==> v.past[k].out == w.disk.out && v.past[k].backup == w.disk.backup
  }

  lemma SameStep(env: Env, w: World, v: World, op: Op)
    requires SameSince(w, v) && Quiet(op)
    ensures SameSince(w, Do(env, v, op))
  {
    QuietKeeps(env, v, op);
  }

  lemma {:induction false} WritesAreQuiet(env: Env, w: World, v: World, files: Rendered)
    requires SameSince(w, v)
    ensures SameSince(w, WriteAll(env, v, files).world)
    decreases |files|
  {
    if files == [] {
    } else {
      var op := Write(files[0].0, files[0].1);
      SameStep(env, w, v, op);
      WritesAreQuiet(env, w, Do(env, v, op), files[1..]);
    }
  }

  lemma {:induction false} ReadsAreQuiet(env: Env, w: World, v: World, names: seq<string>, artifacts: seq<Artifact>)
    requires SameSince(w, v)
    ensures SameSince(w, ReadAll(env, v, names, artifacts).world)
    decreases |names|
  {
    if names == [] {
    } else {
      var op := ReadBack(names[0]);
      SameStep(env, w, v, op);
      if Succeeds(env, v, op) {
        ReadsAreQuiet(env, w, Do(env, v, op), names[1..],
                      artifacts + [ArtifactOf(env, names[0], v.disk.stage.value[names[0]].bytes)]);
      }
    }
  }

  /** Staging never shows in the output directory. */
  lemma StagingIsInvisible(env: Env, w: World, files: Rendered)
    ensures SameSince(w, Stage(env, w, files).world)
  {
    hide Do, Succeeds, SameSince;
    assert SameSince(w, w) by { SameSelf(w); }
    SameStep(env, w, w, MakeStage);
    if Succeeds(env, w, MakeStage) {
      var v := Do(env, w, MakeStage);
      var staged := StageFiles(env, v, files);
      WritesAreQuiet(env, w, v, files);
      var written := WriteAll(env, v, files);
      ReadsAreQuiet(env, w, written.world, Names(files), []);
      var listing := ReadAll(env, written.world, Names(files), []);
      SameStep(env, w, listing.world, Write(MANIFEST, env.codec.encode(ManifestOf(listing.artifacts))));
      SameStep(env, w, staged.world, RemoveStage);
    }
  }

  lemma SameSelf(w: World)
    ensures SameSince(w, w)
  {
  }

  lemma SameIsKept(orig: Dir, managed: set<string>, w: World, v: World)
    requires SameSince(w, v) && Kept(orig, managed, w.disk)
    ensures KeptSince(orig, managed, w, v)
  {
  }

  // ----- installation, turn by turn -----

  lemma {:induction false} InstallAppends(
      env: Env, w: World, files: Rendered, a: seq<string>, b: seq<string>, installed: seq<string>)
    ensures var p := Install(env, w, files, a, installed);
      Install(env, w, files, a + b, installed) == if p.ok then Install(env, p.world, files, b, p.installed) else p
    decreases |a|
  {
    hide InstallOne;
    if a == [] {
      assert a + b == b;
    } else {
      var one := InstallOne(env, w, files, a[0], installed);
      assert (a + b)[1..] == a[1..] + b;
      if one.ok {
        InstallAppends(env, one.world, files, a[1..], b, one.installed);
      }
    }
  }

  /** The run gets as far as installing. */
  predicate Installs(env: Env, w: World, files: Rendered) {
    Stage(env, w, files).ok && Succeeds(env, Stage(env, w, files).world, MakeBackup)
  }

  function Prepared(env: Env, w: World, files: Rendered): World {
    Do(env, Stage(env, w, files).world, MakeBackup)
  }

  /** Installation as far as the turn of the i-th managed name, and without it. */
  function Turn(env: Env, w: World, files: Rendered, i: nat): Progress
    requires i <= |ManagedNames(files)|
  {
    Install(env, Prepared(env, w, files), files, ManagedNames(files)[..i], [])
  }

  lemma TurnStep(env: Env, w: World, files: Rendered, i: nat)
    requires i < |ManagedNames(files)|
    ensures var p := Turn(env, w, files, i);
      Turn(env, w, files, i + 1) ==
        if p.ok then InstallOne(env, p.world, files, ManagedNames(files)[i], p.installed) else p
  {
    hide InstallOne, ManagedNames;
    var all := ManagedNames(files);
    assert all[..i + 1] == all[..i] + [all[i]] && [all[i]][1..] == [];
    InstallAppends(env, Prepared(env, w, files), files, all[..i], [all[i]], []);
  }

  lemma TurnsEnd(env: Env, w: World, files: Rendered)
    ensures Turn(env, w, files, 0) == Progress(Prepared(env, w, files), true, [])
    ensures Turn(env, w, files, |ManagedNames(files)|)
         == Install(env, Prepared(env, w, files), files, ManagedNames(files), [])
  {
    var all := ManagedNames(files);
    assert all[..0] == [] && all[..|all|] == all;
  }

  lemma {:induction false} TurnStuck(env: Env, w: World, files: Rendered, i: nat, k: nat)
    requires i <= k <= |ManagedNames(files)| && !Turn(env, w, files, i).ok
    ensures Turn(env, w, files, k) == Turn(env, w, files, i)
    decreases k - i
  {
    hide Turn, InstallOne, ManagedNames;
    if i == k {
    } else {
      TurnStep(env, w, files, i);
      TurnStuck(env, w, files, i + 1, k);
    }
  }

  /** The probe of the i-th managed name is made, and wrongly answers that nothing is there. */
  predicate Overlooked(env: Env, w: World, files: Rendered, i: nat)
    requires i < |ManagedNames(files)|
  {
    var p := Turn(env, w, files, i);
    && Installs(env, w, files) && p.ok
    && ManagedNames(files)[i] in p.world.disk.out && env.blind(p.world.Tick())
  }

  /** ... and the new file then replaces the one that was overlooked. */
  predicate Overwritten(env: Env, w: World, files: Rendered, i: nat)
    requires i < |ManagedNames(files)|
  {
    var name := ManagedNames(files)[i];
    && Overlooked(env, w, files, i) && IsTarget(files, name)
    && Succeeds(env, Probed(Turn(env, w, files, i).world), FromStage(name))
  }

  /** No existing file is overlooked and then replaced. */
  ghost predicate Sighted(env: Env, w: World, files: Rendered) {
    forall i :: 0 <= i < |ManagedNames(files)| ==> !Overwritten(env, w, files, i)
  }

  lemma InstallOneSafe(
      env: Env, orig: Dir, managed: set<string>, w: World, files: Rendered, name: string, installed: seq<string>)
    requires w.disk.backup.Some? && Safe(orig, managed, SetOf(installed), w.disk)
    requires name !in installed && name in managed
    requires name in w.disk.out && env.blind(w.Tick()) && IsTarget(files, name) ==>
      !Succeeds(env, Probed(w), FromStage(name))
    ensures var p := InstallOne(env, w, files, name, installed);
      && p.world.disk.backup.Some? && Safe(orig, managed, SetOf(p.installed), p.world.disk)
      && KeptSince(orig, managed, w, p.world)
      && (p.installed == installed || p.installed == installed + [name])
  {
    var p := InstallOne(env, w, files, name, installed);
    var mine := SetOf(installed);
    var probed := Probed(w);
    SafeIsKept(orig, managed, mine, w.disk);
    KeptStep(orig, managed, w, w.disk);
    var moves := Sees(env, w, name);
    var moved := Do(env, probed, ToBackup(name));
    var cleared := if moves then moved else probed;
    if moves {
      MoveAside(env, orig, managed, mine, probed, name);
      KeptTransitive(orig, managed, w, probed, moved);
    }
    if (moves ==> Succeeds(env, probed, ToBackup(name))) && IsTarget(files, name) {
      if name !in cleared.disk.out {
        PutInPlace(env, orig, managed, installed, cleared, name);
      } else {
        KeptStep(orig, managed, cleared, cleared.disk);
      }
      KeptTransitive(orig, managed, w, cleared, Do(env, cleared, FromStage(name)));
    }
  }

  lemma MoveAside(env: Env, orig: Dir, managed: set<string>, mine: set<string>, w: World, name: string)
    requires w.disk.backup.Some? && Safe(orig, managed, mine, w.disk)
    requires name !in mine && name in managed
    ensures var v := Do(env, w, ToBackup(name));
      && v.disk.backup.Some? && Safe(orig, managed, mine, v.disk) && KeptSince(orig, managed, w, v)
      && (Succeeds(env, w, ToBackup(name)) ==> name !in v.disk.out)
  {
    var v := Do(env, w, ToBackup(name));
    SafeIsKept(orig, managed, mine, v.disk);
    KeptStep(orig, managed, w, v.disk);
  }

  lemma PutInPlace(env: Env, orig: Dir, managed: set<string>, installed: seq<string>, w: World, name: string)
    requires w.disk.backup.Some? && Safe(orig, managed, SetOf(installed), w.disk)
    requires name !in w.disk.out && name in managed
    ensures var v := Do(env, w, FromStage(name));
      var mine := if Succeeds(env, w, FromStage(name)) then SetOf(installed + [name]) else SetOf(installed);
      v.disk.backup.Some? && Safe(orig, managed, mine, v.disk) && KeptSince(orig, managed, w, v)
  {
    var v := Do(env, w, FromStage(name));
    assert SetOf(installed + [name]) == SetOf(installed) + {name};
    var mine := if Succeeds(env, w, FromStage(name)) then SetOf(installed + [name]) else SetOf(installed);
    SafeIsKept(orig, managed, mine, v.disk);
    KeptStep(orig, managed, w, v.disk);
  }

  // ----- rollback -----

  lemma UnlinkOne(env: Env, orig: Dir, managed: set<string>, w: World, names: seq<string>)
    requires names != [] && Safe(orig, managed, SetOf(names), w.disk)
    ensures var v := Do(env, w, Unlink(names[0]));
      && (w.disk.backup.Some? <==> v.disk.backup.Some?) && KeptSince(orig, managed, w, v)
      && Safe(orig, managed, if Succeeds(env, w, Unlink(names[0])) then SetOf(names[1..]) else SetOf(names), v.disk)
  {
    var v := Do(env, w, Unlink(names[0]));
    var mine := if Succeeds(env, w, Unlink(names[0])) then SetOf(names[1..]) else SetOf(names);
    assert names == [names[0]] + names[1..];
    SafeIsKept(orig, managed, mine, v.disk);
    KeptStep(orig, managed, w, v.disk);
  }

  lemma {:induction false} UnlinkSafe(env: Env, orig: Dir, managed: set<string>, w: World, names: seq<string>)
    requires Safe(orig, managed, SetOf(names), w.disk)
    ensures var p := UnlinkAll(env, w, names);
      && (w.disk.backup.Some? <==> p.world.disk.backup.Some?) && KeptSince(orig, managed, w, p.world)
      && (p.ok ==> Safe(orig, managed, {}, p.world.disk))
    decreases |names|
  {
    hide Safe, Kept, Do;
    if names != [] {
      UnlinkOne(env, orig, managed, w, names);
      var v := Do(env, w, Unlink(names[0]));
      if Succeeds(env, w, Unlink(names[0])) {
        UnlinkSafe(env, orig, managed, v, names[1..]);
        KeptTransitive(orig, managed, w, v, UnlinkAll(env, v, names[1..]).world);
      }
    } else {
      assert SetOf(names) == {};
    }
  }

  lemma RestoreOne(env: Env, orig: Dir, managed: set<string>, w: World, name: string)
    requires w.disk.backup.Some? && Safe(orig, managed, {}, w.disk) && name in Saved(w.disk)
    ensures var v := Do(env, w, Restore(name));
      && v.disk.backup.Some? && Safe(orig, managed, {}, v.disk) && KeptSince(orig, managed, w, v)
      && (Succeeds(env, w, Restore(name)) ==> Saved(v.disk).Keys == Saved(w.disk).Keys - {name})
  {
    var v := Do(env, w, Restore(name));
    SafeIsKept(orig, managed, {}, v.disk);
    KeptStep(orig, managed, w, v.disk);
  }

  lemma {:induction false} RestoreSafe(env: Env, orig: Dir, managed: set<string>, w: World, names: seq<string>)
    requires w.disk.backup.Some? && Safe(orig, managed, {}, w.disk)
    requires NoDuplicates(names) && SetOf(names) == Saved(w.disk).Keys
    ensures var p := RestoreAll(env, w, names);
      && KeptSince(orig, managed, w, p.world) && (p.ok ==> p.world.disk.out == orig)
    decreases |names|
  {
    hide Kept, Do;
    if names == [] {
      assert Saved(w.disk) == map[];
      assert w.disk.out == orig;
    } else {
      assert names[0] in SetOf(names);
      RestoreOne(env, orig, managed, w, names[0]);
      var v := Do(env, w, Restore(names[0]));
      if Succeeds(env, w, Restore(names[0])) {
        assert names == [names[0]] + names[1..];
        RestoreSafe(env, orig, managed, v, names[1..]);
        KeptTransitive(orig, managed, w, v, RestoreAll(env, v, names[1..]).world);
      }
    }
  }

  /** Undoing keeps the originals throughout and, when nothing fails, restores the directory. */
  lemma UndoSafe(env: Env, orig: Dir, managed: set<string>, w: World, hasBackup: bool, installed: seq<string>)
    requires ListsOnce(env) && Safe(orig, managed, SetOf(installed), w.disk)
    requires hasBackup == w.disk.backup.Some?
    ensures var p := Undo(env, w, hasBackup, installed);
      && KeptSince(orig, managed, w, p.world) && (p.ok ==> p.world.disk.out == orig)
  {
    hide Kept, Do;
    var unlinked := UnlinkAll(env, w, installed);
    UnlinkSafe(env, orig, managed, w, installed);
    if unlinked.ok && hasBackup {
      var v := Do(env, unlinked.world, ListBackup);
      ListingKeeps(env, orig, managed, unlinked.world);
      KeptTransitive(orig, managed, w, unlinked.world, v);
      var names := env.listing(BackupNames(v.disk));
      assert BackupNames(v.disk) == BackupNames(unlinked.world.disk);
      RestoreSafe(env, orig, managed, v, names);
      KeptTransitive(orig, managed, w, v, RestoreAll(env, v, names).world);
    } else if unlinked.ok {
      assert Saved(unlinked.world.disk) == map[];
      assert unlinked.world.disk.out == orig;
    }
  }

  lemma ListingKeeps(env: Env, orig: Dir, managed: set<string>, w: World)
    requires w.disk.backup.Some? && Safe(orig, managed, {}, w.disk)
    ensures var v := Do(env, w, ListBackup); v.disk == w.disk && KeptSince(orig, managed, w, v)
  {
    SafeIsKept(orig, managed, {}, w.disk);
    KeptStep(orig, managed, w, w.disk);
  }

  lemma FailSafe(
      env: Env, orig: Dir, managed: set<string>, w: World, hasStage: bool, hasBackup: bool, installed: seq<string>)
    requires ListsOnce(env) && Safe(orig, managed, SetOf(installed), w.disk)
    requires hasBackup == w.disk.backup.Some?
    ensures var e := Fail(env, w, hasStage, hasBackup, installed);
      && e.outcome != Published && KeptSince(orig, managed, w, e.world)
      && Kept(orig, managed, e.world.disk)
      && (e.outcome.RolledBack? ==> e.world.disk.out == orig)
      && (e.outcome.RollbackFailed? ==> e.world.disk.backup == Undo(env, w, hasBackup, installed).world.disk.backup)
  {
    hide Kept, Safe;
    var undone := Undo(env, w, hasBackup, installed);
    UndoSafe(env, orig, managed, w, hasBackup, installed);
    var rolled := Rollback(env, w, hasBackup, installed);
    SafeIsKept(orig, managed, SetOf(installed), w.disk);
    UndoIsRecorded(env, w, hasBackup, installed);
    KeptNow(orig, managed, w, undone.world);
    if undone.ok && hasBackup {
      RestoredIsKept(orig, managed, rolled.world.disk);
      KeptStep(orig, managed, undone.world, rolled.world.disk);
      KeptTransitive(orig, managed, w, undone.world, rolled.world);
    }
    if hasStage {
      var v := Do(env, rolled.world, RemoveStage);
      QuietKeeps(env, rolled.world, RemoveStage);
      StageIsIrrelevant(orig, managed, rolled.world.disk, v.disk);
      KeptStep(orig, managed, rolled.world, v.disk);
      KeptTransitive(orig, managed, w, rolled.world, v);
    }
  }

  lemma RestoredIsKept(orig: Dir, managed: set<string>, d: Disk)
    requires d.out == orig
    ensures Kept(orig, managed, d)
  {
  }

  lemma StageIsIrrelevant(orig: Dir, managed: set<string>, d: Disk, e: Disk)
    requires d.out == e.out && d.backup == e.backup && Kept(orig, managed, d)
    ensures Kept(orig, managed, e)
  {
  }

  /** The present disk is the last one recorded, or the starting one. */
  predicate Recorded(w: World, v: World) {
    w.past <= v.past && v.disk == if |v.past| == |w.past| then w.disk else v.past[|v.past| - 1]
  }

  lemma KeptNow(orig: Dir, managed: set<string>, w: World, v: World)
    requires KeptSince(orig, managed, w, v) && Kept(orig, managed, w.disk) && Recorded(w, v)
    ensures Kept(orig, managed, v.disk)
  {
  }

  lemma {:induction false} UnlinkIsRecorded(env: Env, w: World, v: World, names: seq<string>)
    requires Recorded(w, v)
    ensures Recorded(w, UnlinkAll(env, v, names).world)
    decreases |names|
  {
    if names == [] {
    } else {
      UnlinkIsRecorded(env, w, Do(env, v, Unlink(names[0])), names[1..]);
    }
  }

  lemma {:induction false} RestoreIsRecorded(env: Env, w: World, v: World, names: seq<string>)
    requires Recorded(w, v)
    ensures Recorded(w, RestoreAll(env, v, names).world)
    decreases |names|
  {
    if names == [] {
    } else {
      RestoreIsRecorded(env, w, Do(env, v, Restore(names[0])), names[1..]);
    }
  }

  lemma UndoIsRecorded(env: Env, w: World, hasBackup: bool, installed: seq<string>)
    ensures Recorded(w, Undo(env, w, hasBackup, installed).world)
  {
    UnlinkIsRecorded(env, w, w, installed);
    var unlinked := UnlinkAll(env, w, installed);
    if unlinked.ok && hasBackup && Succeeds(env, unlinked.world, ListBackup) {
      RestoreIsRecorded(env, w, Do(env, unlinked.world, ListBackup), env.listing(BackupNames(unlinked.world.disk)));
    }
  }

  // ----- whole runs -----

  /** The disk before a run: no private directory of it exists yet. */
  predicate Start(w: World) {
    w.disk.stage.None? && w.disk.backup.None?
  }

  function Managed(files: Rendered): set<string> {
    SetOf(ManagedNames(files))
  }

  lemma StartIsSafe(files: Rendered, w: World)
    requires w.disk.backup.None? || w.disk.backup.value == map[]
    ensures Safe(w.disk.out, Managed(files), {}, w.disk)
  {
  }

  lemma PreparedIsSafe(env: Env, w: World, files: Rendered)
    requires Start(w)
    ensures var v := Prepared(env, w, files);
      && Safe(w.disk.out, Managed(files), {}, v.disk) && KeptSince(w.disk.out, Managed(files), w, v)
      && (v.disk.backup.Some? <==> Succeeds(env, Stage(env, w, files).world, MakeBackup))
  {
    hide Stage, Kept;
    var orig, managed := w.disk.out, Managed(files);
    var staged := Stage(env, w, files).world;
    StagingIsInvisible(env, w, files);
    StartIsSafe(files, w);
    SafeIsKept(orig, managed, {}, w.disk);
    SameIsKept(orig, managed, w, staged);
    var v := Prepared(env, w, files);
    StartIsSafe(files, v);
    SafeIsKept(orig, managed, {}, v.disk);
    KeptStep(orig, managed, staged, v.disk);
    KeptTransitive(orig, managed, w, staged, v);
  }

  lemma {:induction false} TurnSafe(env: Env, w: World, files: Rendered, i: nat)
    requires Start(w) && Installs(env, w, files) && Sighted(env, w, files) && i <= |ManagedNames(files)|
    ensures var p := Turn(env, w, files, i);
      && p.world.disk.backup.Some? && Safe(w.disk.out, Managed(files), SetOf(p.installed), p.world.disk)
      && KeptSince(w.disk.out, Managed(files), w, p.world)
      && (forall n :: n in p.installed ==> n in ManagedNames(files)[..i])
  {
    hide Safe, Kept, InstallOne, Turn, ManagedNames, Prepared;
    if i == 0 {
      TurnsEnd(env, w, files);
      PreparedIsSafe(env, w, files);
      assert SetOf<string>([]) == {};
    } else {
      var all, p := ManagedNames(files), Turn(env, w, files, i - 1);
      TurnSafe(env, w, files, i - 1);
      TurnStep(env, w, files, i - 1);
      assert all[..i] == all[..i - 1] + [all[i - 1]];
      if p.ok {
        var name := all[i - 1];
        ManagedOnce(files, i - 1);
        assert !Overwritten(env, w, files, i - 1);
        InstallOneSafe(env, w.disk.out, Managed(files), p.world, files, name, p.installed);
        KeptTransitive(w.disk.out, Managed(files), w, p.world, Turn(env, w, files, i).world);
      }
    }
  }

  lemma ManagedOnce(files: Rendered, i: nat)
    requires i < |ManagedNames(files)|
    ensures var all := ManagedNames(files); NoDuplicates(all) && all[i] !in all[..i] && all[i] in Managed(files)
  {
    FirstOccurrencesAreDistinct(Names(files) + [MANIFEST, CERTIFICATE]);
  }

  /** Where a run failed: the world handed to the failure path, and what it is told. */
  predicate FailsAt(
      env: Env, w: World, files: Rendered, v: World, hasStage: bool, hasBackup: bool, installed: seq<string>)
  {
    && Publish(env, w, files) == Fail(env, v, hasStage, hasBackup, installed)
    && hasBackup == v.disk.backup.Some?
  }

  lemma BeforeFailure(env: Env, w: World, files: Rendered)
    returns (v: World, hasStage: bool, hasBackup: bool, installed: seq<string>)
    requires Sighted(env, w, files) && Start(w) && Publish(env, w, files).outcome != Published
    ensures FailsAt(env, w, files, v, hasStage, hasBackup, installed)
    ensures Safe(w.disk.out, Managed(files), SetOf(installed), v.disk)
    ensures KeptSince(w.disk.out, Managed(files), w, v)
  {
    hide Fail, Kept, Install;
    var orig, managed := w.disk.out, Managed(files);
    var staged := Stage(env, w, files);
    assert SetOf<string>([]) == {};
    if !staged.ok {
      StagingIsInvisible(env, w, files);
      StartIsSafe(files, w);
      SafeIsKept(orig, managed, {}, w.disk);
      SameIsKept(orig, managed, w, staged.world);
      StartIsSafe(files, staged.world);
      return staged.world, false, false, [];
    }
    PreparedIsSafe(env, w, files);
    if !Succeeds(env, staged.world, MakeBackup) {
      return Prepared(env, w, files), true, false, [];
    }
    TurnSafe(env, w, files, |ManagedNames(files)|);
    TurnsEnd(env, w, files);
    var p := Turn(env, w, files, |ManagedNames(files)|);
    return p.world, true, true, p.installed;
  }

  // ----- what an overlooked file costs -----

  /** The turns before leave a managed name alone. */
  lemma {:induction false} TurnLeavesRest(env: Env, w: World, files: Rendered, i: nat, j: nat)
    requires Start(w) && Installs(env, w, files) && i <= j < |ManagedNames(files)|
    ensures var d, name := Turn(env, w, files, i).world.disk, ManagedNames(files)[j];
      (name in d.out <==> name in w.disk.out) && name !in Saved(d)
  {
    hide Turn, ManagedNames, Prepared, Stage;
    if i == 0 {
      TurnsEnd(env, w, files);
      PreparedIsSafe(env, w, files);
      PreparedIsStart(env, w, files);
    } else {
      TurnLeavesRest(env, w, files, i - 1, j);
      TurnStep(env, w, files, i - 1);
      ManagedOnce(files, j);
    }
  }

  lemma PreparedIsStart(env: Env, w: World, files: Rendered)
    requires Start(w) && Installs(env, w, files)
    ensures Prepared(env, w, files).disk.out == w.disk.out && Prepared(env, w, files).disk.backup == Some(map[])
  {
    hide Stage;
    StagingIsInvisible(env, w, files);
  }

  /** From its turn on, an overwritten name counts as installed and has no backup. */
  lemma {:induction false} OverwrittenHasNoBackup(env: Env, w: World, files: Rendered, i: nat, k: nat)
    requires Start(w) && i < k <= |ManagedNames(files)| && Overwritten(env, w, files, i)
    ensures ManagedNames(files)[i] in w.disk.out && ManagedNames(files)[i] in Turn(env, w, files, k).installed
    ensures ManagedNames(files)[i] !in Saved(Turn(env, w, files, k).world.disk)
  {
    hide Turn, ManagedNames, Installs;
    TurnStep(env, w, files, k - 1);
    if k == i + 1 {
      TurnLeavesRest(env, w, files, i, i);
    } else {
      OverwrittenHasNoBackup(env, w, files, i, k - 1);
      ManagedOnce(files, k - 1);
      assert ManagedNames(files)[i] in ManagedNames(files)[..k - 1];
    }
  }

  lemma {:induction false} UnlinkedIsGone(env: Env, w: World, names: seq<string>, name: string)
    requires name !in Saved(w.disk) && (name in names || name !in w.disk.out)
    ensures var p := UnlinkAll(env, w, names); name !in Saved(p.world.disk) && (p.ok ==> name !in p.world.disk.out)
    decreases |names|
  {
    if names == [] || !Succeeds(env, w, Unlink(names[0])) {
    } else {
      UnlinkedIsGone(env, Do(env, w, Unlink(names[0])), names[1..], name);
    }
  }

  lemma {:induction false} RestoredWithout(env: Env, w: World, names: seq<string>, name: string)
    requires name !in Saved(w.disk) && name !in w.disk.out
    ensures name !in RestoreAll(env, w, names).world.disk.out
    decreases |names|
  {
    if names == [] {
    } else {
      RestoredWithout(env, Do(env, w, Restore(names[0])), names[1..], name);
    }
  }

  lemma FailLoses(
      env: Env, w: World, hasStage: bool, hasBackup: bool, installed: seq<string>, name: string)
    requires name in installed && name !in Saved(w.disk)
    requires Fail(env, w, hasStage, hasBackup, installed).outcome.RolledBack?
    ensures name !in Fail(env, w, hasStage, hasBackup, installed).world.disk.out
  {
    var unlinked := UnlinkAll(env, w, installed);
    UnlinkedIsGone(env, w, installed, name);
    if hasBackup {
      var v := Do(env, unlinked.world, ListBackup);
      RestoredWithout(env, v, env.listing(BackupNames(unlinked.world.disk)), name);
    }
  }

  lemma OverwrittenIsLost(env: Env, w: World, files: Rendered, i: nat)
    requires Start(w) && i < |ManagedNames(files)| && Overwritten(env, w, files, i)
    requires Publish(env, w, files).outcome.RolledBack?
    ensures ManagedNames(files)[i] in w.disk.out && ManagedNames(files)[i] !in Publish(env, w, files).world.disk.out
  {
    hide Fail, Install, Stage;
    OverwrittenHasNoBackup(env, w, files, i, |ManagedNames(files)|);
    TurnsEnd(env, w, files);
    var p := Turn(env, w, files, |ManagedNames(files)|);
    FailLoses(env, p.world, true, true, p.installed, ManagedNames(files)[i]);
  }

  // ----- the theorems -----

  /** Rollback exactness: when publication fails and the rollback does not, the output directory,
      managed files and unmanaged ones, is what it was if and only if no overlooked file was
      replaced. Any number of calls may have failed. */
  lemma RollbackIsExact(env: Env, w: World, files: Rendered)
    requires ListsOnce(env) && Start(w) && Publish(env, w, files).outcome.RolledBack?
    ensures Publish(env, w, files).world.disk.out == w.disk.out <==> Sighted(env, w, files)
  {
    hide Publish, Fail, Kept, Safe, Overwritten, ManagedNames;
    if Sighted(env, w, files) {
      var v, hasStage, hasBackup, installed := BeforeFailure(env, w, files);
      FailSafe(env, w.disk.out, Managed(files), v, hasStage, hasBackup, installed);
    } else {
      var i :| 0 <= i < |ManagedNames(files)| && Overwritten(env, w, files, i);
      OverwrittenIsLost(env, w, files, i);
    }
  }

  /** Conservation: in a failed run every original is whole, at its place or in the backup, after
      every single call; and the backup of a failed rollback stays as that rollback left it. */
  lemma FailureConserves(env: Env, w: World, files: Rendered)
    returns (v: World, hasStage: bool, hasBackup: bool, installed: seq<string>)
    requires Sighted(env, w, files) && ListsOnce(env) && Start(w)
    requires Publish(env, w, files).outcome != Published
    ensures KeptSince(w.disk.out, Managed(files), w, Publish(env, w, files).world)
    ensures Kept(w.disk.out, Managed(files), Publish(env, w, files).world.disk)
    ensures FailsAt(env, w, files, v, hasStage, hasBackup, installed)
    ensures Publish(env, w, files).outcome.RollbackFailed? ==>
      Publish(env, w, files).world.disk.backup == Undo(env, v, hasBackup, installed).world.disk.backup
  {
    hide Publish, Fail, Kept, Safe, Undo;
    var orig, managed := w.disk.out, Managed(files);
    v, hasStage, hasBackup, installed := BeforeFailure(env, w, files);
    FailSafe(env, orig, managed, v, hasStage, hasBackup, installed);
    KeptTransitive(orig, managed, w, v, Fail(env, v, hasStage, hasBackup, installed).world);
  }

  /** The private directories go in the end unless the very call that removes one fails; the backup of a
      failed rollback stays. */
  lemma PrivateDirectories(env: Env, w: World, files: Rendered)
    requires Start(w)
    ensures var e := Publish(env, w, files); var d, n := e.world.disk, e.world.Tick();
      match e.outcome
      case Published => n >= 2 && (d.stage == None || env.fails(n - 2)) && (d.backup == None || env.fails(n - 1))
      case RolledBack =>
        && n >= 1 && (d.stage == None || env.fails(n - 1))
        && (d.backup == None || (n >= 2 && env.fails(n - 2)))
      case RollbackFailed => n >= 1 && (d.stage == None || env.fails(n - 1)) && d.backup.Some?
  {
    hide StageFiles, Install, UnlinkAll, RestoreAll;
    StagingIsInvisible(env, w, files);
    var staged := Stage(env, w, files);
    if staged.ok && !Succeeds(env, staged.world, MakeBackup) {
      NothingToUnlink(env, Do(env, staged.world, MakeBackup));
    } else if !staged.ok {
      NothingToUnlink(env, staged.world);
    } else {
      var p := Install(env, Do(env, staged.world, MakeBackup), files, ManagedNames(files), []);
      InstallKeepsBackup(env, Do(env, staged.world, MakeBackup), files, ManagedNames(files), []);
      UndoKeepsBackup(env, p.world, p.installed);
    }
  }

  lemma NothingToUnlink(env: Env, w: World)
    ensures UnlinkAll(env, w, []) == Progress(w, true, [])
  {
  }

  lemma {:induction false} InstallKeepsBackup(env: Env, w: World, files: Rendered, names: seq<string>, installed: seq<string>)
    requires w.disk.backup.Some?
    ensures Install(env, w, files, names, installed).world.disk.backup.Some?
    decreases |names|
  {
    if names == [] {
    } else {
      var one := InstallOne(env, w, files, names[0], installed);
      if one.ok {
        InstallKeepsBackup(env, one.world, files, names[1..], one.installed);
      }
    }
  }

  lemma {:induction false} UnlinkKeepsBackup(env: Env, w: World, names: seq<string>)
    ensures UnlinkAll(env, w, names).world.disk.backup == w.disk.backup
    decreases |names|
  {
    if names == [] {
    } else {
      UnlinkKeepsBackup(env, Do(env, w, Unlink(names[0])), names[1..]);
    }
  }

  lemma {:induction false} RestoreKeepsBackup(env: Env, w: World, names: seq<string>)
    requires w.disk.backup.Some?
    ensures RestoreAll(env, w, names).world.disk.backup.Some?
    decreases |names|
  {
    if names == [] {
    } else {
      RestoreKeepsBackup(env, Do(env, w, Restore(names[0])), names[1..]);
    }
  }

  lemma UndoKeepsBackup(env: Env, w: World, installed: seq<string>)
    requires w.disk.backup.Some?
    ensures Undo(env, w, true, installed).world.disk.backup.Some?
  {
    UnlinkKeepsBackup(env, w, installed);
    var unlinked := UnlinkAll(env, w, installed);
    if unlinked.ok && Succeeds(env, unlinked.world, ListBackup) {
      RestoreKeepsBackup(env, Do(env, unlinked.world, ListBackup), env.listing(BackupNames(unlinked.world.disk)));
    }
  }

  /** In a successful run the originals are conserved up to the removal of the backup, the last call. */
  lemma SuccessConserves(env: Env, w: World, files: Rendered, k: nat)
    requires Sighted(env, w, files) && Start(w) && Publish(env, w, files).outcome.Published?
    requires |w.past| <= k < |Publish(env, w, files).world.past| - 1
    ensures Kept(w.disk.out, Managed(files), Publish(env, w, files).world.past[k])
  {
    hide Kept, Install, Safe;
    var orig, managed := w.disk.out, Managed(files);
    TurnSafe(env, w, files, |ManagedNames(files)|);
    TurnsEnd(env, w, files);
    var p := Turn(env, w, files, |ManagedNames(files)|);
    SafeIsKept(orig, managed, SetOf(p.installed), p.world.disk);
    var u := Do(env, p.world, RemoveStage);
    StageIsIrrelevant(orig, managed, p.world.disk, u.disk);
    KeptStep(orig, managed, p.world, u.disk);
    KeptTransitive(orig, managed, w, p.world, u);
    assert Publish(env, w, files).world.past[k] == u.past[k];
  }
}
