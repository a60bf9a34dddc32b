/** Publication of an output bundle: stage, back up, install, and roll back on failure. */
module Bundle {
  import opened Wrappers
  import opened Sequences

  type Bytes = seq<bv8>

  /** What a name in a directory stands for. */
  datatype Entry = File(bytes: Bytes) | Directory(id: nat)

  type Dir = map<string, Entry>

  /** The output directory without the private directories, and those two. */
  datatype Disk = Disk(out: Dir, stage: Option<Dir>, backup: Option<Dir>)

  datatype Artifact = Artifact(name: string, size: nat, digest: string)

  datatype Manifest = Manifest(schema: string, status: string, artifacts: seq<Artifact>)

  /** JSON text and SHA-256, as far as the bundle depends on them. */
  datatype Codec = Codec(encode: Manifest -> Bytes, decode: Bytes -> Option<Manifest>, digest: Bytes -> string)

  /** The outside world of one run: which calls raise an OSError, which existence probes wrongly
      answer no (Python's `exists` swallows the error), and in which order a directory lists. */
  datatype Env = Env(fails: nat -> bool, blind: nat -> bool, listing: set<string> -> seq<string>, codec: Codec)

  const MANIFEST: string := "manifest.json"
  const CERTIFICATE: string := "certificate.pem"
  const PROJECTIONS: seq<string> :=
    ["scan.json", "scan.cdx.json", "scan.jsonl", "scan.rich.txt", "scan.md", "cbom.md"]
  const SCHEMA: string := "qureddy.output_bundle.v1"

  type Rendered = seq<(string, Bytes)>

  function Names(files: Rendered): (names: seq<string>)
    ensures |names| == |files|
  {
    seq(|files|, i requires 0 <= i < |files| => files[i].0)
  }

  /** The six projections, and the certificate when the scan captured one. */
  predicate IsProjection(files: Rendered) {
    Names(files) == PROJECTIONS || Names(files) == PROJECTIONS + [CERTIFICATE]
  }

  // ----- one filesystem call -----

  datatype Op =
    | MakeStage | Write(name: string, bytes: Bytes) | ReadBack(name: string)
    | MakeBackup | Probe(name: string) | ToBackup(name: string) | FromStage(name: string)
    | Unlink(name: string) | ListBackup | Restore(name: string)
    | RemoveStage | RemoveBackup

  /** A rename onto an existing name replaces a file by a file and raises otherwise. */
  predicate Replaces(moved: Entry, existing: Entry) {
    moved.File? && existing.File?
  }

  /** The disk after a call, or None when the call is impossible and raises. */
  function Effect(op: Op, d: Disk): Option<Disk> {
    match op
    case MakeStage => Some(d.(stage := Some(map[])))
    case Write(n, b) => if d.stage.None? then None else Some(d.(stage := Some(d.stage.value[n := File(b)])))
    case ReadBack(n) => if d.stage.None? || n !in d.stage.value || d.stage.value[n].Directory? then None else Some(d)
    case MakeBackup => Some(d.(backup := Some(map[])))
    case Probe(_) => Some(d)
    case ToBackup(n) =>
      if d.backup.None? || n !in d.out || (n in d.backup.value && !Replaces(d.out[n], d.backup.value[n])) then None
      else Some(d.(out := d.out - {n}, backup := Some(d.backup.value[n := d.out[n]])))
    case FromStage(n) =>
      if d.stage.None? || n !in d.stage.value || (n in d.out && !Replaces(d.stage.value[n], d.out[n])) then None
      else Some(d.(out := d.out[n := d.stage.value[n]], stage := Some(d.stage.value - {n})))
    case Unlink(n) => if n in d.out && d.out[n].Directory? then None else Some(d.(out := d.out - {n}))
    case ListBackup => if d.backup.None? then None else Some(d)
    case Restore(n) =>
      if d.backup.None? || n !in d.backup.value || (n in d.out && !Replaces(d.backup.value[n], d.out[n])) then None
      else Some(d.(out := d.out[n := d.backup.value[n]], backup := Some(d.backup.value - {n})))
    case RemoveStage => Some(d.(stage := None))
    case RemoveBackup => Some(d.(backup := None))
  }

  /** The disk and every disk it was, one for each call made. */
  datatype World = World(disk: Disk, past: seq<Disk>) {
    function Tick(): nat {
      |past|
    }

    function Become(d: Disk): World {
      World(d, past + [d])
    }
  }

  predicate Succeeds(env: Env, w: World, op: Op) {
    !env.fails(w.Tick()) && Effect(op, w.disk).Some?
  }

  function Do(env: Env, w: World, op: Op): World {
    w.Become(if Succeeds(env, w, op) then Effect(op, w.disk).value else w.disk)
  }

  /** What `destination.exists()` answers. */
  predicate Sees(env: Env, w: World, name: string) {
    name in w.disk.out && !env.blind(w.Tick())
  }

  function Probed(w: World): World {
    w.Become(w.disk)
  }

  // ----- staging -----

  datatype Progress = Progress(world: World, ok: bool, installed: seq<string>)

  function WriteAll(env: Env, w: World, files: Rendered): Progress
    decreases |files|
  {
    if files == [] then Progress(w, true, [])
    else if !Succeeds(env, w, Write(files[0].0, files[0].1)) then
      Progress(Do(env, w, Write(files[0].0, files[0].1)), false, [])
    else WriteAll(env, Do(env, w, Write(files[0].0, files[0].1)), files[1..])
  }

  function ArtifactOf(env: Env, name: string, bytes: Bytes): Artifact {
    Artifact(name, |bytes|, env.codec.digest(bytes))
  }

  datatype Listing = Listing(world: World, ok: bool, artifacts: seq<Artifact>)

  /** The manifest entries, read back from the stage. */
  function ReadAll(env: Env, w: World, names: seq<string>, artifacts: seq<Artifact>): Listing
    decreases |names|
  {
    if names == [] then Listing(w, true, artifacts)
    else if !Succeeds(env, w, ReadBack(names[0])) then Listing(Do(env, w, ReadBack(names[0])), false, artifacts)
    else ReadAll(env, Do(env, w, ReadBack(names[0])), names[1..],
                 artifacts + [ArtifactOf(env, names[0], w.disk.stage.value[names[0]].bytes)])
  }

  function ManifestOf(artifacts: seq<Artifact>): Manifest {
    Manifest(SCHEMA, "complete", artifacts)
  }

  function StageFiles(env: Env, w: World, files: Rendered): Progress {
    var written := WriteAll(env, w, files);
    if !written.ok then written else
      var listing := ReadAll(env, written.world, Names(files), []);
      if !listing.ok then Progress(listing.world, false, []) else
        var op := Write(MANIFEST, env.codec.encode(ManifestOf(listing.artifacts)));
        Progress(Do(env, listing.world, op), Succeeds(env, listing.world, op), [])
  }

  /** `_stage_bundle`: a failure removes the stage again. */
  function Stage(env: Env, w: World, files: Rendered): Progress {
    if !Succeeds(env, w, MakeStage) then Progress(Do(env, w, MakeStage), false, []) else
      var staged := StageFiles(env, Do(env, w, MakeStage), files);
      if staged.ok then staged else Progress(Do(env, staged.world, RemoveStage), false, [])
  }

  // ----- installation and rollback -----

  function ManagedNames(files: Rendered): seq<string> {
    FirstOccurrences(Names(files) + [MANIFEST, CERTIFICATE])
  }

  predicate IsTarget(files: Rendered, name: string) {
    name in Names(files) || name == MANIFEST
  }

  /** One turn of the installation loop. */
  function InstallOne(env: Env, w: World, files: Rendered, name: string, installed: seq<string>): Progress {
    var probed := Probed(w);
    var moves := Sees(env, w, name);
    if moves && !Succeeds(env, probed, ToBackup(name)) then Progress(Do(env, probed, ToBackup(name)), false, installed)
    else
      var cleared := if moves then Do(env, probed, ToBackup(name)) else probed;
      if !IsTarget(files, name) then Progress(cleared, true, installed)
      else if !Succeeds(env, cleared, FromStage(name)) then Progress(Do(env, cleared, FromStage(name)), false, installed)
      else Progress(Do(env, cleared, FromStage(name)), true, installed + [name])
  }

  function Install(env: Env, w: World, files: Rendered, names: seq<string>, installed: seq<string>): Progress
    decreases |names|
  {
    if names == [] then Progress(w, true, installed) else
      var one := InstallOne(env, w, files, names[0], installed);
      if !one.ok then one else Install(env, one.world, files, names[1..], one.installed)
  }

  function UnlinkAll(env: Env, w: World, names: seq<string>): Progress
    decreases |names|
  {
    if names == [] then Progress(w, true, [])
    else if !Succeeds(env, w, Unlink(names[0])) then Progress(Do(env, w, Unlink(names[0])), false, [])
    else UnlinkAll(env, Do(env, w, Unlink(names[0])), names[1..])
  }

  function RestoreAll(env: Env, w: World, names: seq<string>): Progress
    decreases |names|
  {
    if names == [] then Progress(w, true, [])
    else if !Succeeds(env, w, Restore(names[0])) then Progress(Do(env, w, Restore(names[0])), false, [])
    else RestoreAll(env, Do(env, w, Restore(names[0])), names[1..])
  }

  function BackupNames(d: Disk): set<string> {
    if d.backup.None? then {} else d.backup.value.Keys
  }

  /** The restoring half of `_rollback_bundle`, before the empty backup is removed. */
  function Undo(env: Env, w: World, hasBackup: bool, installed: seq<string>): Progress {
    var unlinked := UnlinkAll(env, w, installed);
    if !unlinked.ok || !hasBackup then unlinked
    else if !Succeeds(env, unlinked.world, ListBackup) then Progress(Do(env, unlinked.world, ListBackup), false, [])
    else RestoreAll(env, Do(env, unlinked.world, ListBackup), env.listing(BackupNames(unlinked.world.disk)))
  }

  function Rollback(env: Env, w: World, hasBackup: bool, installed: seq<string>): Progress {
    var undone := Undo(env, w, hasBackup, installed);
    if undone.ok && hasBackup then Progress(Do(env, undone.world, RemoveBackup), true, []) else undone
  }

  datatype Outcome = Published | RolledBack | RollbackFailed

  datatype Ending = Ending(world: World, outcome: Outcome)

  function Fail(env: Env, w: World, hasStage: bool, hasBackup: bool, installed: seq<string>): Ending {
    var rolled := Rollback(env, w, hasBackup, installed);
    Ending(if hasStage then Do(env, rolled.world, RemoveStage) else rolled.world,
           if rolled.ok then RolledBack else RollbackFailed)
  }

  /** `_render_bundle` from its rendered files on. */
  function Publish(env: Env, w: World, files: Rendered): Ending {
    var staged := Stage(env, w, files);
    if !staged.ok then Fail(env, staged.world, false, false, [])
    else if !Succeeds(env, staged.world, MakeBackup) then
      Fail(env, Do(env, staged.world, MakeBackup), true, false, [])
    else
      var installed := Install(env, Do(env, staged.world, MakeBackup), files, ManagedNames(files), []);
      if !installed.ok then Fail(env, installed.world, true, true, installed.installed)
      else Ending(Do(env, Do(env, installed.world, RemoveStage), RemoveBackup), Published)
  }

  // ----- the program over a mutable disk -----

  class FileSystem {
    const env: Env
    var disk: Disk
    var calls: nat
    ghost var past: seq<Disk>

    ghost predicate Valid()
      reads this
    {
      calls == |past|
    }

    ghost function Now(): World
      reads this
    {
      World(disk, past)
    }

    constructor (env: Env, out: Dir)
      ensures Valid() && this.env == env && Now() == World(Disk(out, None, None), [])
    {
      this.env := env;
      disk := Disk(out, None, None);
      calls := 0;
      past := [];
    }

    /** One call that may raise. */
    method Call(op: Op) returns (ok: bool)
      requires Valid()
      modifies this
      ensures Valid() && Now() == Do(env, old(Now()), op) && ok == Succeeds(env, old(Now()), op)
    {
      var effect := Effect(op, disk);
      ok := !env.fails(calls) && effect.Some?;
      if ok {
        disk := effect.value;
      }
      calls := calls + 1;
      past := past + [disk];
    }

    method Exists(name: string) returns (seen: bool)
      requires Valid()
      modifies this
      ensures Valid() && Now() == Probed(old(Now())) && seen == Sees(env, old(Now()), name)
    {
      seen := name in disk.out && !env.blind(calls);
      calls := calls + 1;
      past := past + [disk];
    }

    method StageBundle(files: Rendered) returns (ok: bool)
      requires Valid()
      modifies this
      ensures Valid() && Now() == Stage(env, old(Now()), files).world && ok == Stage(env, old(Now()), files).ok
    {
      ok := Call(MakeStage);
      if !ok {
        return;
      }
      ok := WriteStage(files);
      if !ok {
        var _ := Call(RemoveStage);
      }
    }

    method WriteStage(files: Rendered) returns (ok: bool)
      requires Valid()
      modifies this
      ensures Valid() && Now() == StageFiles(env, old(Now()), files).world
      ensures ok == StageFiles(env, old(Now()), files).ok
    {
      ghost var start := Now();
      for i := 0 to |files|
        invariant Valid() && WriteAll(env, start, files) == WriteAll(env, Now(), files[i..])
      {
        ok := Call(Write(files[i].0, files[i].1));
        if !ok {
          return;
        }
        assert files[i..][1..] == files[i + 1..];
      }
      ghost var written := Now();
      var names := Names(files);
      var artifacts: seq<Artifact> := [];
      for i := 0 to |names|
        invariant Valid() && ReadAll(env, written, names, []) == ReadAll(env, Now(), names[i..], artifacts)
      {
        ghost var before := Now();
        ok := Call(ReadBack(names[i]));
        if !ok {
          return;
        }
        artifacts := artifacts + [ArtifactOf(env, names[i], disk.stage.value[names[i]].bytes)];
        assert names[i..][1..] == names[i + 1..];
      }
      ok := Call(Write(MANIFEST, env.codec.encode(ManifestOf(artifacts))));
    }

    method InstallStagedBundle(files: Rendered) returns (ok: bool, installed: seq<string>)
      requires Valid()
      modifies this
      ensures Valid()
      ensures Progress(Now(), ok, installed) == Install(env, old(Now()), files, ManagedNames(files), [])
    {
      ghost var start := Now();
      installed := [];
      var names := ManagedNames(files);
      for i := 0 to |names|
        invariant Valid()
        invariant Install(env, start, files, names, []) == Install(env, Now(), files, names[i..], installed)
      {
        var name := names[i];
        var present := Exists(name);
        if present {
          ok := Call(ToBackup(name));
          if !ok {
            return;
          }
        }
        if name in Names(files) || name == MANIFEST {
          ok := Call(FromStage(name));
          if !ok {
            return;
          }
          installed := installed + [name];
        }
        assert names[i..][1..] == names[i + 1..];
      }
      ok := true;
    }

    method RollbackBundle(hasBackup: bool, installed: seq<string>) returns (ok: bool)
      requires Valid()
      modifies this
      ensures Valid() && Now() == Rollback(env, old(Now()), hasBackup, installed).world
      ensures ok == Rollback(env, old(Now()), hasBackup, installed).ok
    {
      ghost var start := Now();
      for i := 0 to |installed|
        invariant Valid() && UnlinkAll(env, start, installed) == UnlinkAll(env, Now(), installed[i..])
      {
        ok := Call(Unlink(installed[i]));
        if !ok {
          return;
        }
        assert installed[i..][1..] == installed[i + 1..];
      }
      if !hasBackup {
        return true;
      }
      var names := env.listing(BackupNames(disk));
      ok := Call(ListBackup);
      if !ok {
        return;
      }
      ghost var listed := Now();
      for i := 0 to |names|
        invariant Valid() && RestoreAll(env, listed, names) == RestoreAll(env, Now(), names[i..])
      {
        ok := Call(Restore(names[i]));
        if !ok {
          return;
        }
        assert names[i..][1..] == names[i + 1..];
      }
      var _ := Call(RemoveBackup);
      return true;
    }

    method RenderBundle(files: Rendered) returns (outcome: Outcome)
      requires Valid()
      modifies this
      ensures Valid() && Ending(Now(), outcome) == Publish(env, old(Now()), files)
    {
      var hasStage, hasBackup := false, false;
      var installed: seq<string> := [];
      var ok := StageBundle(files);
      if ok {
        hasStage := true;
        ok := Call(MakeBackup);
        if ok {
          hasBackup := true;
          ok, installed := InstallStagedBundle(files);
        }
      }
      if ok {
        outcome := Published;
      } else {
        var rolled := RollbackBundle(hasBackup, installed);
        outcome := if rolled then RolledBack else RollbackFailed;
      }
      if hasStage {
        var _ := Call(RemoveStage);
      }
      if ok {
        var _ := Call(RemoveBackup);
      }
    }
  }
}
