/** What a reader of the output directory may conclude from its manifest. */
module BundleValidity {
  import opened Wrappers
  import opened Sequences
  import opened Bundle
  import opened BundleSafety

  // ----- the validator -----

  /** `Path(name).name == name`. */
  predicate PlainName(name: string) {
    name != "." && '/' !in name
  }

  predicate Matches(codec: Codec, out: Dir, a: Artifact) {
    && PlainName(a.name) && a.name in out && out[a.name].File?
    && a.size == |out[a.name].bytes| && a.digest == codec.digest(out[a.name].bytes)
  }

  function ArtifactNames(artifacts: seq<Artifact>): (names: seq<string>)
    ensures |names| == |artifacts|
  {
    seq(|artifacts|, i requires 0 <= i < |artifacts| => artifacts[i].name)
  }

  /** The plain files next to the manifest. */
  function Present(out: Dir, optional: set<string>): set<string> {
    set n | n in out && out[n].File? && n != MANIFEST && n !in optional
  }

  /** A complete bundle: the manifest decodes, and lists exactly the files present, truthfully. */
  predicate Accepts(codec: Codec, out: Dir, optional: set<string>) {
    && MANIFEST in out && out[MANIFEST].File?
    && var decoded := codec.decode(out[MANIFEST].bytes);
    && decoded.Some? && decoded.value.schema == SCHEMA && decoded.value.status == "complete"
    && (forall i :: 0 <= i < |decoded.value.artifacts| ==> Matches(codec, out, decoded.value.artifacts[i]))
    && var names := ArtifactNames(decoded.value.artifacts);
    NoDuplicates(names) && SetOf(names) == Present(out, optional) && SetOf(PROJECTIONS) <= SetOf(names)
  }

  datatype Complaint =
    | Unreadable | UnsupportedSchema | Incomplete | InvalidName | MissingArtifact
    | SizeMismatch | DigestMismatch | DuplicateNames | ListMismatch

  method ValidateManifest(codec: Codec, out: Dir, optional: set<string>) returns (complaint: Option<Complaint>)
    ensures complaint.None? <==> Accepts(codec, out, optional)
  {
    if MANIFEST !in out || out[MANIFEST].Directory? {
      return Some(Unreadable);
    }
    var decoded := codec.decode(out[MANIFEST].bytes);
    if decoded.None? {
      return Some(Unreadable);
    }
    var manifest := decoded.value;
    if manifest.schema != SCHEMA {
      return Some(UnsupportedSchema);
    }
    if manifest.status != "complete" {
      return Some(Incomplete);
    }
    var names: seq<string> := [];
    for i := 0 to |manifest.artifacts|
      invariant names == ArtifactNames(manifest.artifacts)[..i]
      invariant forall j :: 0 <= j < i ==> Matches(codec, out, manifest.artifacts[j])
    {
      var artifact := manifest.artifacts[i];
      if !PlainName(artifact.name) {
        return Some(InvalidName);
      }
      names := names + [artifact.name];
      if artifact.name !in out || out[artifact.name].Directory? {
        return Some(MissingArtifact);
      }
      var data := out[artifact.name].bytes;
      if artifact.size != |data| {
        return Some(SizeMismatch);
      }
      if artifact.digest != codec.digest(data) {
        return Some(DigestMismatch);
      }
    }
    assert names == ArtifactNames(manifest.artifacts);
    var listed := SetOf(names);
    DistinctBySize(names);
    if |listed| != |names| {
      return Some(DuplicateNames);
    }
    if listed != Present(out, optional) || !(SetOf(PROJECTIONS) <= listed) {
      return Some(ListMismatch);
    }
    return None;
  }

  /** An accepted directory stays accepted exactly as long as no artifact is lost, added, resized or changed
      under the digest: any change but one that the digest cannot see is reported. */
  lemma TamperingIsReported(codec: Codec, out: Dir, changed: Dir, optional: set<string>)
    requires Accepts(codec, out, optional)
    requires MANIFEST in changed && changed[MANIFEST] == out[MANIFEST]
    ensures Accepts(codec, changed, optional) <==>
      && Present(changed, optional) == Present(out, optional)
      && forall n :: n in Present(out, optional) ==>
           |changed[n].bytes| == |out[n].bytes| && codec.digest(changed[n].bytes) == codec.digest(out[n].bytes)
  {
    hide PlainName, NoDuplicates;
    var artifacts := codec.decode(out[MANIFEST].bytes).value.artifacts;
    var names := ArtifactNames(artifacts);
    assert forall i :: 0 <= i < |artifacts| ==> names[i] == artifacts[i].name && names[i] in SetOf(names);
    if Accepts(codec, changed, optional) {
      forall n | n in Present(out, optional)
        ensures |changed[n].bytes| == |out[n].bytes| && codec.digest(changed[n].bytes) == codec.digest(out[n].bytes)
      {
        var i :| 0 <= i < |names| && names[i] == n;
        assert Matches(codec, out, artifacts[i]) && Matches(codec, changed, artifacts[i]);
      }
    }
    if Present(changed, optional) == Present(out, optional)
       && forall n :: n in Present(out, optional) ==>
            |changed[n].bytes| == |out[n].bytes| && codec.digest(changed[n].bytes) == codec.digest(out[n].bytes) {
      forall i | 0 <= i < |artifacts|
        ensures Matches(codec, changed, artifacts[i])
      {
        assert Matches(codec, out, artifacts[i]) && names[i] in Present(out, optional) && names[i] in Present(changed, optional);
      }
    }
  }

  /** What an accepted manifest says: it is complete, of the published schema, and lists all projections. */
  lemma AcceptedSays(codec: Codec, out: Dir, optional: set<string>)
    requires Accepts(codec, out, optional)
    ensures MANIFEST in out && out[MANIFEST].File? && codec.decode(out[MANIFEST].bytes).Some?
    ensures var m := codec.decode(out[MANIFEST].bytes).value;
      && m.schema == "qureddy.output_bundle.v1" && m.status == "complete"
      && (forall n :: n in ["scan.json", "scan.cdx.json", "scan.jsonl", "scan.rich.txt", "scan.md", "cbom.md"] ==>
            n in out && out[n].File?)
      && (forall i :: 0 <= i < |m.artifacts| ==>
            var n := m.artifacts[i].name;
            && n in out && out[n].File? && m.artifacts[i].size == |out[n].bytes|
            && m.artifacts[i].digest == codec.digest(out[n].bytes) && '/' !in n && n != ".")
  {
    hide NoDuplicates;
    var m := codec.decode(out[MANIFEST].bytes).value;
    var names := ArtifactNames(m.artifacts);
    forall n | n in PROJECTIONS
      ensures n in out && out[n].File?
    {
      assert n in SetOf(names) && n in Present(out, optional);
    }
    assert forall i :: 0 <= i < |m.artifacts| ==> Matches(codec, out, m.artifacts[i]);
  }

  // ----- what staging prepares -----

  function Contents(files: Rendered): Dir {
    if files == [] then map[] else map[files[0].0 := File(files[0].1)] + Contents(files[1..])
  }

  function ArtifactsFor(env: Env, files: Rendered): seq<Artifact> {
    seq(|files|, i requires 0 <= i < |files| => ArtifactOf(env, files[i].0, files[i].1))
  }

  function ManifestBytes(env: Env, files: Rendered): Bytes {
    env.codec.encode(ManifestOf(ArtifactsFor(env, files)))
  }

  /** The complete new bundle: every projection and its manifest. */
  function NewBundle(env: Env, files: Rendered): Dir {
    Contents(files)[MANIFEST := File(ManifestBytes(env, files))]
  }

  lemma {:induction false} ContentsAt(files: Rendered, i: nat)
    requires NoDuplicates(Names(files)) && i < |files|
    ensures files[i].0 in Contents(files) && Contents(files)[files[i].0] == File(files[i].1)
  {
    var rest := files[1..];
    assert Names(files)[1..] == Names(rest);
    if i > 0 {
      assert forall j, k :: 0 <= j < k < |rest| ==> Names(rest)[j] == Names(files)[j + 1] && Names(rest)[k] == Names(files)[k + 1];
      ContentsAt(rest, i - 1);
    } else {
      ContentsKeys(rest);
      forall j | 0 <= j < |rest|
        ensures rest[j].0 != files[0].0
      {
        assert Names(files)[j + 1] == rest[j].0 && Names(files)[0] == files[0].0;
      }
    }
  }

  lemma {:induction false} ContentsKeys(files: Rendered)
    ensures Contents(files).Keys == SetOf(Names(files))
  {
    if files == [] {
    } else {
      ContentsKeys(files[1..]);
      assert Names(files) == [files[0].0] + Names(files[1..]);
    }
  }

  lemma {:induction false} WritesContents(env: Env, w: World, files: Rendered)
    requires w.disk.stage.Some? && WriteAll(env, w, files).ok
    ensures WriteAll(env, w, files).world.disk == w.disk.(stage := Some(w.disk.stage.value + Contents(files)))
    decreases |files|
  {
    if files != [] {
      var (name, bytes) := files[0];
      var stage := w.disk.stage.value;
      WritesContents(env, Do(env, w, Write(name, bytes)), files[1..]);
      assert stage[name := File(bytes)] + Contents(files[1..]) == stage + Contents(files);
    } else {
      assert w.disk.stage.value + map[] == w.disk.stage.value;
    }
  }

  lemma {:induction false} ReadsArtifacts(env: Env, w: World, files: Rendered, i: nat)
    requires i <= |files| && NoDuplicates(Names(files)) && w.disk.stage == Some(Contents(files))
    requires ReadAll(env, w, Names(files)[i..], ArtifactsFor(env, files)[..i]).ok
    ensures var listing := ReadAll(env, w, Names(files)[i..], ArtifactsFor(env, files)[..i]);
      listing.artifacts == ArtifactsFor(env, files) && listing.world.disk == w.disk
    decreases |files| - i
  {
    var names, all := Names(files), ArtifactsFor(env, files);
    if i == |files| {
    } else {
      ContentsAt(files, i);
      assert names[i..][1..] == names[i + 1..];
      assert all[..i] + [ArtifactOf(env, names[i], files[i].1)] == all[..i + 1];
      ReadsArtifacts(env, Do(env, w, ReadBack(names[i])), files, i + 1);
    }
  }

  /** A successful staging prepared exactly the new bundle. */
  lemma StageHolds(env: Env, w: World, files: Rendered)
    requires NoDuplicates(Names(files)) && Stage(env, w, files).ok
    ensures Stage(env, w, files).world.disk.stage == Some(NewBundle(env, files))
  {
    var v := Do(env, w, MakeStage);
    var written := WriteAll(env, v, files);
    WritesContents(env, v, files);
    assert map[] + Contents(files) == Contents(files);
    assert Names(files)[0..] == Names(files) && ArtifactsFor(env, files)[..0] == [];
    ReadsArtifacts(env, written.world, files, 0);
  }

  // ----- the names of a bundle -----

  lemma FixedNamesDiffer()
    ensures NoDuplicates(PROJECTIONS + [CERTIFICATE] + [MANIFEST])
  {
    var all := PROJECTIONS + [CERTIFICATE] + [MANIFEST];
    assert all[0][5] == 'j' && all[1][5] == 'c' && all[2][5] == 'j' && all[3][5] == 'r' && all[4][5] == 'm';
    assert |all[0]| == 9 && |all[2]| == 10 && |all[5]| == 7 && |all[4]| == 7 && |all[6]| == 15 && |all[7]| == 13;
    assert all[5][0] == 'c' && all[4][0] == 's' && all[6][0] == 'c' && all[7][0] == 'm' && all[1][0] == 's' && all[3][0] == 's';
  }

  lemma BundleNames(files: Rendered)
    requires IsProjection(files)
    ensures NoDuplicates(Names(files)) && MANIFEST !in Names(files)
    ensures CERTIFICATE in Names(files) <==> Names(files) == PROJECTIONS + [CERTIFICATE]
    ensures NoDuplicates(ManagedNames(files))
    ensures ManagedNames(files) == Names(files) + [MANIFEST] + if CERTIFICATE in Names(files) then [] else [CERTIFICATE]
  {
    FixedNamesDiffer();
    var all := PROJECTIONS + [CERTIFICATE] + [MANIFEST];
    assert forall i :: 0 <= i < 6 ==> PROJECTIONS[i] == all[i];
    assert all[6] == CERTIFICATE && all[7] == MANIFEST;
    var names := Names(files);
    assert forall i :: 0 <= i < |names| ==> names[i] == all[i];
    var listed := names + [MANIFEST, CERTIFICATE];
    FirstOccurrencesAreDistinct(listed);
    assert listed[..|listed| - 1] == names + [MANIFEST];
    assert NoDuplicates(names + [MANIFEST]);
    DistinctUnchanged(names + [MANIFEST]);
    if names == PROJECTIONS + [CERTIFICATE] {
      assert names[6] == CERTIFICATE;
    }
  }

  // ----- what a visible manifest promises -----

  /** Every artifact of the bundle, and its manifest, is in place. */
  predicate Complete(bundle: Dir, d: Disk) {
    forall n :: n in bundle ==> n in d.out && d.out[n] == bundle[n]
  }

  /** Where the manifest of the bundle is visible, so is everything it lists. */
  predicate Truthful(bundle: Dir, d: Disk) {
    MANIFEST in bundle && MANIFEST in d.out && d.out[MANIFEST] == bundle[MANIFEST] ==> Complete(bundle, d)
  }

  /** The managed names show what they showed before the run. */
  predicate OldWhole(orig: Dir, files: Rendered, d: Disk) {
    forall n :: n in Managed(files) ==>
      (n in d.out <==> n in orig) && (n in d.out && n in orig ==> d.out[n] == orig[n])
  }

  /** Whichever manifest is visible, the whole bundle it came with is: the new one or the old one. */
  predicate WholeBundle(orig: Dir, bundle: Dir, files: Rendered, d: Disk) {
    MANIFEST in d.out ==> Complete(bundle, d) || OldWhole(orig, files, d)
  }

  /** The invariant: a visible manifest is the original one, or comes with everything the new one lists. */
  predicate Honest(orig: Dir, bundle: Dir, d: Disk) {
    MANIFEST in d.out ==> (MANIFEST in orig && d.out[MANIFEST] == orig[MANIFEST]) || Complete(bundle, d)
  }

  predicate HonestSince(orig: Dir, bundle: Dir, w: World, v: World) {
    && w.past <= v.past
    && forall k :: |w.past| <= k < |v.past| ==> Honest(orig, bundle, v.past[k])
  }

  lemma HonestTransitive(orig: Dir, bundle: Dir, u: World, v: World, w: World)
    requires HonestSince(orig, bundle, u, v) && HonestSince(orig, bundle, v, w)
    ensures HonestSince(orig, bundle, u, w)
  {
    hide Honest;
    forall k | |u.past| <= k < |w.past|
      ensures Honest(orig, bundle, w.past[k])
    {
      if k < |v.past| {
        assert w.past[k] == v.past[k];
      }
    }
  }

  lemma HonestStep(orig: Dir, bundle: Dir, w: World, d: Disk)
    requires Honest(orig, bundle, d)
    ensures HonestSince(orig, bundle, w, w.Become(d))
  {
  }

  // ----- what installation shows -----

  function Restrict(bundle: Dir, done: set<string>): Dir {
    map n | n in bundle && n in done :: bundle[n]
  }

  /** The names in `done` show the new bundle, the names in `cleared` nothing else, the rest the old. */
  function Mixed(orig: Dir, bundle: Dir, done: set<string>, cleared: set<string>): Dir {
    (orig - cleared) + Restrict(bundle, done)
  }

  predicate SavedFrom(orig: Dir, names: set<string>, d: Disk) {
    && d.backup.Some?
    && forall n :: n in Saved(d) ==> n in names && n in orig && Saved(d)[n] == orig[n]
  }

  predicate Installing(orig: Dir, bundle: Dir, done: set<string>, d: Disk) {
    d.out == Mixed(orig, bundle, done, done) && d.stage == Some(bundle - done) && SavedFrom(orig, done, d)
  }

  /** In the turn of a name: the old entry is there or not, the new one not yet. */
  predicate Clearing(orig: Dir, bundle: Dir, done: set<string>, name: string, d: Disk) {
    && (d.out == Mixed(orig, bundle, done, done) || d.out == Mixed(orig, bundle, done, done + {name}))
    && d.stage == Some(bundle - done) && SavedFrom(orig, done + {name}, d)
  }

  lemma ClearingIsHonest(orig: Dir, bundle: Dir, done: set<string>, name: string, d: Disk)
    requires Clearing(orig, bundle, done, name, d) && MANIFEST !in done
    ensures Honest(orig, bundle, d) && OriginalAt(orig, MANIFEST, d)
  {
  }

  lemma InstallingIsHonest(orig: Dir, bundle: Dir, done: set<string>, d: Disk)
    requires Installing(orig, bundle, done, d) && (MANIFEST in done ==> bundle.Keys <= done)
    ensures Honest(orig, bundle, d)
  {
  }

  /** The probe and the move aside. */
  function Cleared(env: Env, w: World, name: string): Progress {
    if !Sees(env, w, name) then Progress(Probed(w), true, [])
    else Progress(Do(env, Probed(w), ToBackup(name)), Succeeds(env, Probed(w), ToBackup(name)), [])
  }

  lemma ClearedShows(env: Env, orig: Dir, bundle: Dir, done: set<string>, w: World, name: string)
    requires Installing(orig, bundle, done, w.disk) && name !in done && MANIFEST !in done
    ensures var c := Cleared(env, w, name);
      HonestSince(orig, bundle, w, c.world) && Clearing(orig, bundle, done, name, c.world.disk)
  {
    var c := Cleared(env, w, name);
    assert w.disk.out - {name} == Mixed(orig, bundle, done, done + {name});
    ClearingIsHonest(orig, bundle, done, name, w.disk);
    HonestStep(orig, bundle, w, w.disk);
    if Sees(env, w, name) {
      ClearingIsHonest(orig, bundle, done, name, c.world.disk);
      HonestStep(orig, bundle, Probed(w), c.world.disk);
    }
  }

  lemma PutEffect(orig: Dir, bundle: Dir, done: set<string>, name: string, d: Disk)
    requires Clearing(orig, bundle, done, name, d) && name !in done && name in bundle
    ensures (bundle - done) - {name} == bundle - (done + {name})
    ensures d.out[name := bundle[name]] == Mixed(orig, bundle, done + {name}, done + {name})
  {
  }

  lemma PutShows(env: Env, orig: Dir, bundle: Dir, done: set<string>, w: World, name: string)
    requires Clearing(orig, bundle, done, name, w.disk) && name !in done && name in bundle
    requires MANIFEST !in done && (name == MANIFEST ==> bundle.Keys <= done + {name})
    ensures var v, ok := Do(env, w, FromStage(name)), Succeeds(env, w, FromStage(name));
      && HonestSince(orig, bundle, w, v)
      && (if ok then Installing(orig, bundle, done + {name}, v.disk) else v.disk == w.disk)
  {
    hide Mixed, Honest;
    var v, next := Do(env, w, FromStage(name)), done + {name};
    if Succeeds(env, w, FromStage(name)) {
      PutEffect(orig, bundle, done, name, w.disk);
      InstallingIsHonest(orig, bundle, next, v.disk);
    } else {
      ClearingIsHonest(orig, bundle, done, name, v.disk);
    }
    HonestStep(orig, bundle, w, v.disk);
  }

  lemma InstallOneShows(
      env: Env, orig: Dir, bundle: Dir, done: set<string>, w: World, files: Rendered, name: string, installed: seq<string>)
    requires Installing(orig, bundle, done, w.disk) && name !in done
    requires IsTarget(files, name) && name in bundle
    requires MANIFEST !in done && (name == MANIFEST ==> bundle.Keys <= done + {name})
    ensures var p := InstallOne(env, w, files, name, installed);
      && HonestSince(orig, bundle, w, p.world)
      && (p.ok ==> Installing(orig, bundle, done + {name}, p.world.disk) && p.installed == installed + [name])
      && (!p.ok ==> OriginalAt(orig, MANIFEST, p.world.disk) && p.installed == installed)
  {
    hide Installing, Clearing, HonestSince, Effect, IsTarget, OriginalAt;
    var c := Cleared(env, w, name);
    ClearedShows(env, orig, bundle, done, w, name);
    ClearingIsHonest(orig, bundle, done, name, c.world.disk);
    if c.ok {
      PutShows(env, orig, bundle, done, c.world, name);
      HonestTransitive(orig, bundle, w, c.world, Do(env, c.world, FromStage(name)));
    }
  }

  /** The names of the bundle in the order of installation: the manifest comes last. */
  function Targets(files: Rendered): (names: seq<string>)
    ensures |names| == |files| + 1
  {
    Names(files) + [MANIFEST]
  }

  lemma TargetOrder(env: Env, files: Rendered)
    requires IsProjection(files)
    ensures ManagedNames(files) == Targets(files) + if CERTIFICATE in Names(files) then [] else [CERTIFICATE]
    ensures NoDuplicates(ManagedNames(files)) && NoDuplicates(Targets(files))
    ensures NewBundle(env, files).Keys == SetOf(Targets(files))
    ensures forall n :: IsTarget(files, n) <==> n in Targets(files)
    ensures CERTIFICATE in NewBundle(env, files) <==> CERTIFICATE in Names(files)
  {
    hide IsProjection;
    BundleNames(files);
    ContentsKeys(files);
    var all := ManagedNames(files);
    assert Targets(files) == all[..|files| + 1];
    assert CERTIFICATE !in [MANIFEST];
  }

  lemma TargetAt(env: Env, files: Rendered, i: nat)
    requires IsProjection(files) && i <= |files|
    ensures var all, bundle := ManagedNames(files), NewBundle(env, files);
      && |files| < |all| && |all[..i]| == i && all[i] == Targets(files)[i] && IsTarget(files, all[i]) && all[i] in bundle
      && all[i] !in SetOf(all[..i]) && MANIFEST !in SetOf(all[..i])
      && SetOf(all[..i + 1]) == SetOf(all[..i]) + {all[i]} && all[..i + 1] == all[..i] + [all[i]]
      && (all[i] == MANIFEST ==> bundle.Keys <= SetOf(all[..i]) + {all[i]})
  {
    hide IsProjection, NewBundle, ManagedNames, IsTarget;
    TargetOrder(env, files);
    var all, t := ManagedNames(files), Targets(files);
    assert all[..i + 1] == all[..i] + [all[i]] && all[i] == t[i] && t[i] in t;
    assert t[|files|] == MANIFEST && all[|files|] == MANIFEST;
    if i == |files| {
      assert all[..i + 1] == t;
    } else {
      assert all[i] != all[|files|];
    }
  }

  lemma PreparedInstalling(env: Env, w: World, files: Rendered)
    requires Start(w) && IsProjection(files) && Installs(env, w, files)
    ensures Installing(w.disk.out, NewBundle(env, files), SetOf(ManagedNames(files)[..0]), Prepared(env, w, files).disk)
    ensures HonestSince(w.disk.out, NewBundle(env, files), w, Prepared(env, w, files))
  {
    hide Stage, NewBundle, ManagedNames, IsProjection;
    StagingIsInvisible(env, w, files);
    PreparedIsStart(env, w, files);
    BundleNames(files);
    StageHolds(env, w, files);
    NothingInstalled(w.disk.out, NewBundle(env, files), Prepared(env, w, files).disk);
    assert ManagedNames(files)[..0] == [];
  }

  lemma NothingInstalled(orig: Dir, bundle: Dir, d: Disk)
    requires d.out == orig && d.stage == Some(bundle) && d.backup == Some(map[])
    ensures Installing(orig, bundle, SetOf([]), d)
  {
    assert SetOf<string>([]) == {};
    assert Mixed(orig, bundle, {}, {}) == orig;
    assert bundle - {} == bundle;
  }

  /** Whatever fails and whichever probes are wrong: no turn of a name of the bundle shows a
      manifest that is neither the old one nor complete; and if one fails, the new one is not in place. */
  lemma {:induction false} TurnShows(env: Env, w: World, files: Rendered, i: nat)
    requires Start(w) && IsProjection(files) && Installs(env, w, files) && i <= |files| + 1
    ensures |files| + 1 <= |ManagedNames(files)|
    ensures var orig, bundle, all, p := w.disk.out, NewBundle(env, files), ManagedNames(files), Turn(env, w, files, i);
      && HonestSince(orig, bundle, w, p.world)
      && (p.ok ==> Installing(orig, bundle, SetOf(all[..i]), p.world.disk) && p.installed == all[..i])
      && (!p.ok ==> OriginalAt(orig, MANIFEST, p.world.disk) && MANIFEST !in p.installed)
    decreases i
  {
    hide Honest, Installing, OriginalAt, InstallOne, Turn, ManagedNames, NewBundle, IsProjection, Installs, Prepared, IsTarget;
    TargetAt(env, files, 0);
    if i == 0 {
      TurnsEnd(env, w, files);
      PreparedInstalling(env, w, files);
    } else {
      var orig, bundle, all, p := w.disk.out, NewBundle(env, files), ManagedNames(files), Turn(env, w, files, i - 1);
      TurnShows(env, w, files, i - 1);
      TurnStep(env, w, files, i - 1);
      TargetAt(env, files, i - 1);
      if p.ok {
        InstallOneShows(env, orig, bundle, SetOf(all[..i - 1]), p.world, files, all[i - 1], p.installed);
        HonestTransitive(orig, bundle, w, p.world, Turn(env, w, files, i).world);
      }
    }
  }

  /** A stale certificate: one from an earlier scan that the present scan has none to replace. */
  predicate StaleCertificate(orig: Dir, files: Rendered) {
    CERTIFICATE in orig && CERTIFICATE !in Names(files)
  }

  /** A stale certificate is left behind when its probe, made after everything is in place, is wrong. */
  predicate LeavesCertificate(env: Env, w: World, files: Rendered)
    requires |files| + 1 <= |ManagedNames(files)|
  {
    StaleCertificate(w.disk.out, files) && env.blind(Turn(env, w, files, |files| + 1).world.Tick())
  }

  /** What remains under the name of the certificate after the last turn. */
  lemma LastTurn(env: Env, w: World, files: Rendered)
    requires Start(w) && IsProjection(files) && Installs(env, w, files)
    ensures |files| + 1 <= |ManagedNames(files)|
    ensures var p, q := Turn(env, w, files, |files| + 1), Turn(env, w, files, |ManagedNames(files)|);
      && (q.ok ==> p.ok && q.world.disk.stage == p.world.disk.stage)
      && (p.ok && (!StaleCertificate(w.disk.out, files) || !env.fails(p.world.Tick() + 1)) ==> q.ok)
      && (!p.ok ==> q == p)
      && (q.ok ==>
            var kept := LeavesCertificate(env, w, files) || CERTIFICATE in Names(files);
            q.world.disk.out == if kept then p.world.disk.out else p.world.disk.out - {CERTIFICATE})
      && (p.ok ==> HonestSince(w.disk.out, NewBundle(env, files), w, q.world))
      && (p.ok ==> CERTIFICATE !in Names(files) ==> (CERTIFICATE in p.world.disk.out <==> CERTIFICATE in w.disk.out))
  {
    hide Turn, ManagedNames, NewBundle, IsProjection, Installs, Prepared, Honest;
    var n, orig, bundle, all := |files| + 1, w.disk.out, NewBundle(env, files), ManagedNames(files);
    TargetOrder(env, files);
    TurnShows(env, w, files, n);
    var p := Turn(env, w, files, n);
    if CERTIFICATE !in Names(files) {
      assert all[..n] == Targets(files) && all[n] == CERTIFICATE;
      TurnStep(env, w, files, n);
      if p.ok {
        CertificateTurn(env, orig, bundle, SetOf(all[..n]), p.world, files, p.installed);
        HonestTransitive(orig, bundle, w, p.world, Turn(env, w, files, n + 1).world);
      }
    }
  }

  lemma CertificateTurn(
      env: Env, orig: Dir, bundle: Dir, done: set<string>, w: World, files: Rendered, installed: seq<string>)
    requires Installing(orig, bundle, done, w.disk) && bundle.Keys == done && CERTIFICATE !in done && MANIFEST in done
    requires !IsTarget(files, CERTIFICATE)
    ensures CERTIFICATE in w.disk.out <==> CERTIFICATE in orig
    ensures var p := InstallOne(env, w, files, CERTIFICATE, installed);
      && HonestSince(orig, bundle, w, p.world) && p.world.disk.stage == w.disk.stage
      && (CERTIFICATE !in orig || !env.fails(w.Tick() + 1) ==> p.ok)
      && (p.ok ==>
            var kept := CERTIFICATE in orig && env.blind(w.Tick());
            p.world.disk.out == if kept then w.disk.out else w.disk.out - {CERTIFICATE})
  {
    var p := InstallOne(env, w, files, CERTIFICATE, installed);
    assert Honest(orig, bundle, w.disk);
    assert CERTIFICATE !in w.disk.out ==> w.disk.out - {CERTIFICATE} == w.disk.out;
    HonestStep(orig, bundle, w, w.disk);
    if Sees(env, w, CERTIFICATE) {
      HonestStep(orig, bundle, Probed(w), p.world.disk);
    }
  }

  // ----- rollback shows no new manifest it did not install -----

  /** The entry visible under `name`, and the one saved for it, are original if there at all. */
  predicate OriginalAt(orig: Dir, name: string, d: Disk) {
    && (name in d.out ==> name in orig && d.out[name] == orig[name])
    && (name in Saved(d) ==> name in orig && Saved(d)[name] == orig[name])
  }

  predicate OriginalSince(orig: Dir, name: string, w: World, v: World) {
    && w.past <= v.past && OriginalAt(orig, name, v.disk)
    && forall k :: |w.past| <= k < |v.past| ==> OriginalAt(orig, name, v.past[k])
  }

  predicate Undoing(op: Op) {
    op.Unlink? || op.ListBackup? || op.Restore? || op.RemoveBackup? || op.RemoveStage? || op.MakeBackup?
  }

  lemma OriginalStep(env: Env, orig: Dir, name: string, w: World, v: World, op: Op)
    requires OriginalSince(orig, name, w, v) && Undoing(op)
    ensures OriginalSince(orig, name, w, Do(env, v, op))
  {
  }

  lemma {:induction false} UnlinkShowsOriginal(env: Env, orig: Dir, name: string, w: World, v: World, names: seq<string>)
    requires OriginalSince(orig, name, w, v)
    ensures OriginalSince(orig, name, w, UnlinkAll(env, v, names).world)
    decreases |names|
  {
    if names == [] {
    } else {
      OriginalStep(env, orig, name, w, v, Unlink(names[0]));
      UnlinkShowsOriginal(env, orig, name, w, Do(env, v, Unlink(names[0])), names[1..]);
    }
  }

  lemma {:induction false} RestoreShowsOriginal(env: Env, orig: Dir, name: string, w: World, v: World, names: seq<string>)
    requires OriginalSince(orig, name, w, v)
    ensures OriginalSince(orig, name, w, RestoreAll(env, v, names).world)
    decreases |names|
  {
    if names == [] {
    } else {
      OriginalStep(env, orig, name, w, v, Restore(names[0]));
      RestoreShowsOriginal(env, orig, name, w, Do(env, v, Restore(names[0])), names[1..]);
    }
  }

  lemma FailShowsOriginal(
      env: Env, orig: Dir, name: string, w: World, hasStage: bool, hasBackup: bool, installed: seq<string>)
    requires OriginalAt(orig, name, w.disk)
    ensures OriginalSince(orig, name, w, Fail(env, w, hasStage, hasBackup, installed).world)
  {
    hide OriginalSince, Do, Succeeds;
    assert OriginalSince(orig, name, w, w) by { OriginalSelf(orig, name, w); }
    var unlinked := UnlinkAll(env, w, installed);
    UnlinkShowsOriginal(env, orig, name, w, w, installed);
    if unlinked.ok && hasBackup {
      OriginalStep(env, orig, name, w, unlinked.world, ListBackup);
      var v := Do(env, unlinked.world, ListBackup);
      RestoreShowsOriginal(env, orig, name, w, v, env.listing(BackupNames(unlinked.world.disk)));
    }
    var undone := Undo(env, w, hasBackup, installed);
    OriginalStep(env, orig, name, w, undone.world, RemoveBackup);
    OriginalStep(env, orig, name, w, Rollback(env, w, hasBackup, installed).world, RemoveStage);
  }

  lemma OriginalSelf(orig: Dir, name: string, w: World)
    requires OriginalAt(orig, name, w.disk)
    ensures OriginalSince(orig, name, w, w)
  {
  }

  lemma OriginalIsHonest(orig: Dir, bundle: Dir, w: World, v: World)
    requires OriginalSince(orig, MANIFEST, w, v)
    ensures HonestSince(orig, bundle, w, v)
  {
  }

  lemma FailIsHonest(
      env: Env, orig: Dir, bundle: Dir, u: World, w: World, hasStage: bool, hasBackup: bool, installed: seq<string>)
    requires HonestSince(orig, bundle, u, w) && OriginalAt(orig, MANIFEST, w.disk)
    ensures HonestSince(orig, bundle, u, Fail(env, w, hasStage, hasBackup, installed).world)
  {
    hide Honest, Fail;
    FailShowsOriginal(env, orig, MANIFEST, w, hasStage, hasBackup, installed);
    OriginalIsHonest(orig, bundle, w, Fail(env, w, hasStage, hasBackup, installed).world);
    HonestTransitive(orig, bundle, u, w, Fail(env, w, hasStage, hasBackup, installed).world);
  }

  // ----- published bundles -----

  /** A successful publication leaves the new bundle and nothing of the old one, except a stale
      certificate whose probe was wrong; and on the way every visible manifest is honest. */
  lemma PublishedBundle(env: Env, w: World, files: Rendered)
    requires Start(w) && IsProjection(files) && Publish(env, w, files).outcome.Published?
    ensures |files| + 1 <= |ManagedNames(files)|
    ensures Publish(env, w, files).world.disk.out
         == (w.disk.out - Managed(files)) + NewBundle(env, files)
            + if LeavesCertificate(env, w, files) then map[CERTIFICATE := w.disk.out[CERTIFICATE]] else map[]
    ensures HonestSince(w.disk.out, NewBundle(env, files), w, Publish(env, w, files).world)
  {
    hide Honest, Install, Stage, NewBundle, ManagedNames, IsProjection, Effect, Do, Succeeds, Installing, Turn;
    var n, orig, bundle := |files| + 1, w.disk.out, NewBundle(env, files);
    TargetOrder(env, files);
    TurnShows(env, w, files, n);
    LastTurn(env, w, files);
    TurnsEnd(env, w, files);
    var p := Turn(env, w, files, |ManagedNames(files)|);
    assert ManagedNames(files)[..n] == Targets(files);
    AllInstalled(env, w, files);
    EndIsHonest(env, orig, bundle, w, p.world);
  }

  lemma AllInstalled(env: Env, w: World, files: Rendered)
    requires Start(w) && IsProjection(files) && Installs(env, w, files) && |files| + 1 <= |ManagedNames(files)|
    requires Turn(env, w, files, |ManagedNames(files)|).ok
    ensures var q := Turn(env, w, files, |ManagedNames(files)|);
      && q.world.disk.out == (w.disk.out - Managed(files)) + NewBundle(env, files)
            + (if LeavesCertificate(env, w, files) then map[CERTIFICATE := w.disk.out[CERTIFICATE]] else map[])
      && Honest(w.disk.out, NewBundle(env, files), q.world.disk)
  {
    hide Stage, NewBundle, ManagedNames, IsProjection, Turn, Installs, HonestSince, Honest, Targets, Names;
    var n, orig, bundle := |files| + 1, w.disk.out, NewBundle(env, files);
    TargetOrder(env, files);
    TurnShows(env, w, files, n);
    LastTurn(env, w, files);
    var p, q := Turn(env, w, files, n), Turn(env, w, files, |ManagedNames(files)|);
    assert ManagedNames(files)[..n] == Targets(files);
    ManagedAreTargets(env, files);
    AllMixed(orig, bundle, SetOf(Targets(files)), p.world.disk, q.world.disk,
             CERTIFICATE !in Names(files), LeavesCertificate(env, w, files));
  }

  lemma ManagedAreTargets(env: Env, files: Rendered)
    requires IsProjection(files)
    ensures Managed(files) == SetOf(Targets(files)) + (if CERTIFICATE in Names(files) then {} else {CERTIFICATE})
    ensures MANIFEST in SetOf(Targets(files))
  {
    hide IsProjection, ManagedNames;
    TargetOrder(env, files);
    assert Targets(files)[|files|] == MANIFEST;
  }

  lemma AllMixed(orig: Dir, bundle: Dir, t: set<string>, d: Disk, e: Disk, stale: bool, left: bool)
    requires d.out == Mixed(orig, bundle, t, t) && bundle.Keys == t && MANIFEST in t
    requires (stale <==> CERTIFICATE !in t) && (left ==> stale && CERTIFICATE in orig)
    requires e.out == if left || !stale then d.out else d.out - {CERTIFICATE}
    ensures e.out == (orig - (t + if stale then {CERTIFICATE} else {})) + bundle
                     + (if left then map[CERTIFICATE := orig[CERTIFICATE]] else map[])
    ensures Honest(orig, bundle, e)
  {
    assert Restrict(bundle, t) == bundle;
  }

  lemma EndIsHonest(env: Env, orig: Dir, bundle: Dir, u: World, w: World)
    requires Honest(orig, bundle, w.disk) && HonestSince(orig, bundle, u, w)
    ensures var v := Do(env, Do(env, w, RemoveStage), RemoveBackup);
      v.disk.out == w.disk.out && HonestSince(orig, bundle, u, v)
  {
    hide Honest;
    var a := Do(env, w, RemoveStage);
    var v := Do(env, a, RemoveBackup);
    SameManifestHonest(orig, bundle, w.disk, a.disk);
    SameManifestHonest(orig, bundle, a.disk, v.disk);
    HonestStep(orig, bundle, w, a.disk);
    HonestStep(orig, bundle, a, v.disk);
    HonestTransitive(orig, bundle, u, w, a);
    HonestTransitive(orig, bundle, u, a, v);
  }

  lemma SameManifestHonest(orig: Dir, bundle: Dir, d: Disk, e: Disk)
    requires d.out == e.out && Honest(orig, bundle, d)
    ensures Honest(orig, bundle, e)
  {
  }

  ghost predicate RoundTrips(codec: Codec) {
    forall m :: codec.decode(codec.encode(m)) == Some(m)
  }

  lemma PlainNames(files: Rendered, i: nat)
    requires IsProjection(files) && i < |files|
    ensures PlainName(files[i].0) && files[i].0 in SetOf(Names(files))
  {
    var all := PROJECTIONS + [CERTIFICATE];
    assert Names(files)[i] == all[i];
    assert PlainName(all[0]) && PlainName(all[1]) && PlainName(all[2]) && PlainName(all[3])
        && PlainName(all[4]) && PlainName(all[5]) && PlainName(all[6]);
  }

  lemma BundleMatches(env: Env, files: Rendered, out: Dir)
    requires IsProjection(files)
    requires forall n :: n in NewBundle(env, files) ==> n in out && out[n] == NewBundle(env, files)[n]
    ensures forall i :: 0 <= i < |files| ==> Matches(env.codec, out, ArtifactsFor(env, files)[i])
    ensures ArtifactNames(ArtifactsFor(env, files)) == Names(files)
  {
    hide IsProjection, Names;
    BundleNames(files);
    forall i | 0 <= i < |files|
      ensures Matches(env.codec, out, ArtifactsFor(env, files)[i])
    {
      ContentsAt(files, i);
      PlainNames(files, i);
      assert Names(files)[i] == files[i].0 by { NameAt(files, i); }
      assert files[i].0 != MANIFEST;
    }
    forall i | 0 <= i < |files|
      ensures ArtifactNames(ArtifactsFor(env, files))[i] == Names(files)[i]
    {
      NameAt(files, i);
    }
  }

  lemma NameAt(files: Rendered, i: nat)
    requires i < |files|
    ensures Names(files)[i] == files[i].0
  {
  }

  /** The validator accepts a published directory exactly when it holds no file the bundle does not
      manage and no stale certificate file was left behind. */
  lemma PublishedIsAccepted(env: Env, w: World, files: Rendered)
    requires RoundTrips(env.codec) && Start(w) && IsProjection(files)
    requires Publish(env, w, files).outcome.Published?
    ensures |files| + 1 <= |ManagedNames(files)|
    ensures Accepts(env.codec, Publish(env, w, files).world.disk.out, {}) <==>
      && (forall n :: n in w.disk.out && n !in Managed(files) ==> w.disk.out[n].Directory?)
      && (LeavesCertificate(env, w, files) ==> w.disk.out[CERTIFICATE].Directory?)
  {
    hide Publish, IsProjection, Names, Managed, Turn, ManagedNames, NewBundle, Contents, Matches, PROJECTIONS;
    var orig, bundle, out := w.disk.out, NewBundle(env, files), Publish(env, w, files).world.disk.out;
    PublishedBundle(env, w, files);
    TargetOrder(env, files);
    BundleIsManaged(env, files);
    BundleIsKept(orig, bundle, Managed(files), out);
    BundleMatches(env, files, out);
    BundleNames(files);
    ProjectionsListed(files);
    var left := LeavesCertificate(env, w, files);
    PublishedFiles(env, files, orig, out, left);
    AcceptedIff(env, files, out);
  }

  lemma BundleIsKept(orig: Dir, bundle: Dir, managed: set<string>, out: Dir)
    requires out == (orig - managed) + bundle + map[]
      || (CERTIFICATE in orig && CERTIFICATE !in bundle
          && out == (orig - managed) + bundle + map[CERTIFICATE := orig[CERTIFICATE]])
    ensures forall n :: n in bundle ==> n in out && out[n] == bundle[n]
  {
  }

  /** The files of a published directory: the artifacts, what the bundle does not manage, what was left. */
  lemma PublishedFiles(env: Env, files: Rendered, orig: Dir, out: Dir, left: bool)
    requires IsProjection(files) && (left ==> StaleCertificate(orig, files))
    requires out == (orig - Managed(files)) + NewBundle(env, files)
      + if left then map[CERTIFICATE := orig[CERTIFICATE]] else map[]
    ensures Present(out, {}) == SetOf(Names(files)) <==>
      && (forall n :: n in orig && n !in Managed(files) ==> orig[n].Directory?)
      && (left ==> orig[CERTIFICATE].Directory?)
  {
    hide IsProjection, Names, ManagedNames, NewBundle;
    var bundle := NewBundle(env, files);
    TargetOrder(env, files);
    BundleIsManaged(env, files);
    BundleNames(files);
    KeysOfBundle(env, files);
    forall n | n in bundle
      ensures bundle[n].File?
    {
      BundleIsFiles(env, files, n);
    }
    FilesAre(orig, bundle, Managed(files), SetOf(Names(files)), out, left);
  }

  lemma FilesAre(orig: Dir, bundle: Dir, managed: set<string>, names: set<string>, out: Dir, left: bool)
    requires (forall n :: n in bundle ==> bundle[n].File?) && bundle.Keys == names + {MANIFEST} && MANIFEST !in names
    requires bundle.Keys <= managed && CERTIFICATE in managed && (left ==> CERTIFICATE in orig && CERTIFICATE !in names)
    requires out == (orig - managed) + bundle + if left then map[CERTIFICATE := orig[CERTIFICATE]] else map[]
    ensures Present(out, {}) == names <==>
      && (forall n :: n in orig && n !in managed ==> orig[n].Directory?) && (left ==> orig[CERTIFICATE].Directory?)
  {
    assert CERTIFICATE != MANIFEST;
    forall n
      ensures n in Present(out, {}) <==>
        n in names || (n in orig && n !in managed && orig[n].File?) || (left && n == CERTIFICATE && orig[n].File?)
    {
    }
  }

  lemma AcceptedIff(env: Env, files: Rendered, out: Dir)
    requires IsProjection(files) && RoundTrips(env.codec)
    requires MANIFEST in out && out[MANIFEST] == NewBundle(env, files)[MANIFEST]
    requires forall i :: 0 <= i < |files| ==> Matches(env.codec, out, ArtifactsFor(env, files)[i])
    requires ArtifactNames(ArtifactsFor(env, files)) == Names(files)
    ensures Accepts(env.codec, out, {}) <==> Present(out, {}) == SetOf(Names(files))
  {
    hide IsProjection, Names, Matches, PROJECTIONS;
    BundleNames(files);
    ProjectionsListed(files);
    assert env.codec.decode(ManifestBytes(env, files)) == Some(ManifestOf(ArtifactsFor(env, files)));
  }

  lemma KeysOfBundle(env: Env, files: Rendered)
    ensures NewBundle(env, files).Keys == SetOf(Names(files)) + {MANIFEST}
  {
    ContentsKeys(files);
  }

  lemma BundleIsManaged(env: Env, files: Rendered)
    requires IsProjection(files)
    ensures NewBundle(env, files).Keys <= Managed(files)
    ensures CERTIFICATE in Managed(files) && MANIFEST in Managed(files)
  {
    BundleNames(files);
    ContentsKeys(files);
  }

  lemma ProjectionsListed(files: Rendered)
    requires IsProjection(files)
    ensures SetOf(PROJECTIONS) <= SetOf(Names(files))
  {
    assert Names(files)[..6] == PROJECTIONS;
  }

  lemma {:induction false} ContentsAreFiles(files: Rendered, n: string)
    requires n in Contents(files)
    ensures Contents(files)[n].File?
  {
    if n !in Contents(files[1..]) {
    } else {
      ContentsAreFiles(files[1..], n);
    }
  }

  lemma BundleIsFiles(env: Env, files: Rendered, n: string)
    requires n in NewBundle(env, files)
    ensures NewBundle(env, files)[n].File?
  {
    if n != MANIFEST {
      ContentsAreFiles(files, n);
    }
  }

  // ----- the manifest as a completion marker -----

  /** Without a stale certificate to remove, a visible manifest is the original one or complete, in
      any run and any state: whatever fails, rollback included, and whichever probes are wrong. */
  lemma ManifestIsHonest(env: Env, w: World, files: Rendered)
    requires Start(w) && IsProjection(files) && !StaleCertificate(w.disk.out, files)
    ensures HonestSince(w.disk.out, NewBundle(env, files), w, Publish(env, w, files).world)
  {
    hide Honest, Install, Stage, Fail, Effect, Do, Succeeds, OriginalAt, NewBundle, IsProjection, Turn, ManagedNames, HonestSince;
    var orig, bundle := w.disk.out, NewBundle(env, files);
    var staged := Stage(env, w, files);
    BeforeInstalling(env, w, files);
    if !staged.ok {
      FailIsHonest(env, orig, bundle, w, staged.world, false, false, []);
    } else if !Succeeds(env, staged.world, MakeBackup) {
      FailIsHonest(env, orig, bundle, w, Prepared(env, w, files), true, false, []);
    } else if Publish(env, w, files).outcome.Published? {
      PublishedBundle(env, w, files);
    } else {
      TurnShows(env, w, files, |files| + 1);
      LastTurn(env, w, files);
      TurnsEnd(env, w, files);
      var p := Turn(env, w, files, |ManagedNames(files)|);
      FailIsHonest(env, orig, bundle, w, p.world, true, true, p.installed);
    }
  }

  lemma BeforeInstalling(env: Env, w: World, files: Rendered)
    requires Start(w)
    ensures var orig, bundle, v := w.disk.out, NewBundle(env, files), Stage(env, w, files).world;
      && HonestSince(orig, bundle, w, v) && OriginalAt(orig, MANIFEST, v.disk)
      && HonestSince(orig, bundle, w, Prepared(env, w, files)) && OriginalAt(orig, MANIFEST, Prepared(env, w, files).disk)
  {
    hide Stage, NewBundle;
    StagingIsInvisible(env, w, files);
  }

  /** The old manifest and the new one have the same bytes. */
  predicate SameManifest(orig: Dir, bundle: Dir) {
    MANIFEST in orig && MANIFEST in bundle && orig[MANIFEST] == bundle[MANIFEST]
  }

  /** So the new manifest is never visible before everything it lists: no stale certificate, and no
      old manifest with its very bytes. */
  lemma ManifestIsTruthful(env: Env, w: World, files: Rendered, k: nat)
    requires Start(w) && IsProjection(files)
    requires !StaleCertificate(w.disk.out, files) && !SameManifest(w.disk.out, NewBundle(env, files))
    requires |w.past| <= k < |Publish(env, w, files).world.past|
    ensures Truthful(NewBundle(env, files), Publish(env, w, files).world.past[k])
  {
    hide Publish, NewBundle, IsProjection, StaleCertificate;
    ManifestIsHonest(env, w, files);
    assert Honest(w.disk.out, NewBundle(env, files), Publish(env, w, files).world.past[k]);
  }

  // ----- every turn is on record -----

  lemma {:induction false} TurnIsRecorded(env: Env, w: World, files: Rendered, i: nat, k: nat)
    requires i <= k <= |ManagedNames(files)|
    ensures Turn(env, w, files, i).world.past <= Turn(env, w, files, k).world.past
    decreases k
  {
    hide Turn, ManagedNames;
    if i == k {
    } else {
      TurnIsRecorded(env, w, files, i, k - 1);
      TurnStep(env, w, files, k - 1);
    }
  }

  lemma FailIsRecorded(env: Env, w: World, hasStage: bool, hasBackup: bool, installed: seq<string>)
    ensures w.past <= Fail(env, w, hasStage, hasBackup, installed).world.past
  {
    UndoIsRecorded(env, w, hasBackup, installed);
  }

  lemma RunRecordsTurn(env: Env, w: World, files: Rendered, i: nat)
    requires Installs(env, w, files) && i <= |ManagedNames(files)|
    ensures Turn(env, w, files, i).world.past <= Publish(env, w, files).world.past
    ensures |w.past| <= |Turn(env, w, files, i).world.past|
  {
    hide Stage, ManagedNames, Turn, Fail, Install;
    TurnsEnd(env, w, files);
    StagingIsInvisible(env, w, files);
    TurnIsRecorded(env, w, files, 0, i);
    TurnIsRecorded(env, w, files, i, |ManagedNames(files)|);
    var p := Turn(env, w, files, |ManagedNames(files)|);
    FailIsRecorded(env, p.world, true, true, p.installed);
  }

  /** The run moves the i-th managed name aside. */
  predicate MovesAside(env: Env, w: World, files: Rendered, i: nat)
    requires i < |ManagedNames(files)|
  {
    var p, name := Turn(env, w, files, i), ManagedNames(files)[i];
    && Installs(env, w, files) && p.ok && Sees(env, p.world, name)
    && Succeeds(env, Probed(p.world), ToBackup(name))
  }

  lemma MovedIsRecorded(env: Env, w: World, files: Rendered, i: nat)
    requires i < |ManagedNames(files)| && MovesAside(env, w, files, i)
    ensures var p, q := Turn(env, w, files, i), Turn(env, w, files, i + 1);
      && |p.world.past| + 2 <= |q.world.past|
      && q.world.past[|p.world.past| + 1] == Do(env, Probed(p.world), ToBackup(ManagedNames(files)[i])).disk
  {
    hide Turn, ManagedNames, Effect, Installs;
    TurnStep(env, w, files, i);
  }

  /** Over an old manifest, every run misleads as soon as it moves an artifact aside: the old manifest
      is visible without that artifact, and so is the new one when the two have the same bytes. */
  lemma OldManifestMisleads(env: Env, w: World, files: Rendered, i: nat) returns (k: nat)
    requires Start(w) && IsProjection(files) && MANIFEST in w.disk.out
    requires i < |files| && i < |ManagedNames(files)| && MovesAside(env, w, files, i)
    ensures |w.past| <= k < |Publish(env, w, files).world.past|
    ensures !WholeBundle(w.disk.out, NewBundle(env, files), files, Publish(env, w, files).world.past[k])
    ensures SameManifest(w.disk.out, NewBundle(env, files)) ==>
      !Truthful(NewBundle(env, files), Publish(env, w, files).world.past[k])
  {
    hide Publish, Turn, NewBundle, IsProjection, ManagedNames, Installs, Fail, Stage, OldWhole;
    var p, name := Turn(env, w, files, i), ManagedNames(files)[i];
    TurnShows(env, w, files, i);
    TargetAt(env, files, i);
    ManifestIsNotArtifact(files, i);
    RunRecordsTurn(env, w, files, i);
    RunRecordsTurn(env, w, files, i + 1);
    MovedIsRecorded(env, w, files, i);
    k := |p.world.past| + 1;
    var d := Do(env, Probed(p.world), ToBackup(name)).disk;
    assert Publish(env, w, files).world.past[k] == d;
    assert name in w.disk.out && name !in d.out && MANIFEST in d.out && d.out[MANIFEST] == w.disk.out[MANIFEST];
    MissingIsNotWhole(w.disk.out, files, d, i);
  }

  lemma ManifestIsNotArtifact(files: Rendered, i: nat)
    requires IsProjection(files) && i < |files| && i < |ManagedNames(files)|
    ensures ManagedNames(files)[i] != MANIFEST && ManagedNames(files)[i] == Names(files)[i]
  {
    hide IsProjection;
    BundleNames(files);
    assert Names(files)[i] in Names(files);
  }

  lemma MissingIsNotWhole(orig: Dir, files: Rendered, d: Disk, i: nat)
    requires i < |ManagedNames(files)|
    requires ManagedNames(files)[i] in orig <==> ManagedNames(files)[i] !in d.out
    ensures !OldWhole(orig, files, d)
  {
    assert ManagedNames(files)[i] in Managed(files);
  }

  // ----- publication succeeds when nothing fails -----

  ghost predicate NoFailure(env: Env, from: nat, until: nat) {
    forall t :: from <= t < until ==> !env.fails(t)
  }

  ghost predicate NoBlindness(env: Env, from: nat, until: nat) {
    forall t :: from <= t < until ==> !env.blind(t)
  }

  lemma {:induction false} WritesSucceed(env: Env, w: World, files: Rendered)
    requires w.disk.stage.Some? && NoFailure(env, w.Tick(), w.Tick() + |files|)
    ensures WriteAll(env, w, files).ok && WriteAll(env, w, files).world.Tick() == w.Tick() + |files|
    decreases |files|
  {
    if files == [] {
    } else {
      WritesSucceed(env, Do(env, w, Write(files[0].0, files[0].1)), files[1..]);
    }
  }

  lemma {:induction false} ReadsSucceed(env: Env, w: World, names: seq<string>, artifacts: seq<Artifact>)
    requires w.disk.stage.Some? && NoFailure(env, w.Tick(), w.Tick() + |names|)
    requires forall n :: n in names ==> n in w.disk.stage.value && w.disk.stage.value[n].File?
    ensures ReadAll(env, w, names, artifacts).ok
    ensures ReadAll(env, w, names, artifacts).world.Tick() == w.Tick() + |names|
    ensures ReadAll(env, w, names, artifacts).world.disk == w.disk
    decreases |names|
  {
    if names == [] {
    } else {
      ReadsSucceed(env, Do(env, w, ReadBack(names[0])), names[1..],
                   artifacts + [ArtifactOf(env, names[0], w.disk.stage.value[names[0]].bytes)]);
    }
  }

  function StageCalls(files: Rendered): nat {
    2 + 2 * |files|
  }

  lemma StageSucceeds(env: Env, w: World, files: Rendered)
    requires IsProjection(files) && NoFailure(env, w.Tick(), w.Tick() + StageCalls(files))
    ensures Stage(env, w, files).ok && Stage(env, w, files).world.Tick() == w.Tick() + StageCalls(files)
  {
    hide IsProjection, Names;
    var v := Do(env, w, MakeStage);
    WritesSucceed(env, v, files);
    WritesContents(env, v, files);
    ContentsKeys(files);
    var written := WriteAll(env, v, files).world;
    forall n | n in Names(files)
      ensures n in written.disk.stage.value && written.disk.stage.value[n].File?
    {
      assert n in Contents(files);
      ContentsAreFiles(files, n);
    }
    ReadsSucceed(env, written, Names(files), []);
  }

  /** How many calls the installation loop makes. */
  function InstallCalls(orig: Dir, files: Rendered, names: seq<string>): nat {
    if names == [] then 0
    else 1 + (if names[0] in orig then 1 else 0) + (if IsTarget(files, names[0]) then 1 else 0)
         + InstallCalls(orig, files, names[1..])
  }

  lemma InstallOneSucceeds(
      env: Env, orig: Dir, bundle: Dir, done: set<string>, w: World, files: Rendered, name: string, installed: seq<string>)
    requires Installing(orig, bundle, done, w.disk) && name !in done && IsTarget(files, name) && name in bundle
    requires !env.fails(w.Tick() + 1) && (name in orig ==> !env.fails(w.Tick() + 2))
    requires env.blind(w.Tick()) && name in orig ==> orig[name].File? && bundle[name].File?
    ensures var p := InstallOne(env, w, files, name, installed);
      && p.ok
      && p.world.Tick() == w.Tick() + if name in orig && !env.blind(w.Tick()) then 3 else 2
  {
    assert name in w.disk.out <==> name in orig;
    assert name in orig ==> w.disk.out[name] == orig[name];
  }

  lemma {:induction false} CallsOfPrefix(orig: Dir, files: Rendered, a: seq<string>, b: seq<string>)
    ensures InstallCalls(orig, files, a + b) == InstallCalls(orig, files, a) + InstallCalls(orig, files, b)
  {
    if a == [] {
      assert a + b == b;
    } else {
      assert (a + b)[1..] == a[1..] + b;
      CallsOfPrefix(orig, files, a[1..], b);
    }
  }

  /** The number of the call that probes the i-th managed name when nothing has gone wrong before. */
  function ProbeTick(w: World, files: Rendered, i: nat): nat
    requires i <= |ManagedNames(files)|
  {
    w.Tick() + StageCalls(files) + 1 + InstallCalls(w.disk.out, files, ManagedNames(files)[..i])
  }

  lemma FirstProbeTick(w: World, files: Rendered)
    ensures ProbeTick(w, files, 0) == w.Tick() + StageCalls(files) + 1
  {
    assert ManagedNames(files)[..0] == [];
  }

  lemma {:induction false} ProbeTickStep(w: World, files: Rendered, i: nat)
    requires i < |ManagedNames(files)|
    ensures ProbeTick(w, files, i + 1) == ProbeTick(w, files, i) + 1
      + (if ManagedNames(files)[i] in w.disk.out then 1 else 0) + (if IsTarget(files, ManagedNames(files)[i]) then 1 else 0)
  {
    hide ManagedNames, IsTarget;
    var all := ManagedNames(files);
    assert all[..i + 1] == all[..i] + [all[i]] && [all[i]][1..] == [];
    CallsOfPrefix(w.disk.out, files, all[..i], [all[i]]);
  }

  /** As long as nothing goes wrong, every turn succeeds, on schedule. */
  lemma {:induction false} TurnSucceeds(env: Env, w: World, files: Rendered, i: nat)
    requires Start(w) && IsProjection(files) && i <= |files| + 1 <= |ManagedNames(files)|
    requires NoFailure(env, w.Tick(), ProbeTick(w, files, i)) && NoBlindness(env, w.Tick(), ProbeTick(w, files, i))
    ensures Installs(env, w, files) && Turn(env, w, files, i).ok
    ensures Turn(env, w, files, i).world.Tick() == ProbeTick(w, files, i)
    decreases i
  {
    hide Turn, ManagedNames, NewBundle, IsProjection, Stage, IsTarget, Installing, InstallOne, HonestSince, InstallCalls;
    var all := ManagedNames(files);
    FirstProbeTick(w, files);
    if i == 0 {
      StageSucceeds(env, w, files);
      TurnsEnd(env, w, files);
    } else {
      ProbeTickStep(w, files, i - 1);
      TurnSucceeds(env, w, files, i - 1);
      TurnStep(env, w, files, i - 1);
      TurnShows(env, w, files, i - 1);
      TargetAt(env, files, i - 1);
      var p := Turn(env, w, files, i - 1);
      InstallOneSucceeds(env, w.disk.out, NewBundle(env, files), SetOf(all[..i - 1]), p.world, files, all[i - 1], p.installed);
    }
  }

  // ----- publication when nothing fails -----

  /** A wrong probe of a directory: the rename of the new file onto it raises. */
  predicate Blocked(env: Env, w: World, files: Rendered, i: nat)
    requires i < |ManagedNames(files)|
  {
    var name := ManagedNames(files)[i];
    Overlooked(env, w, files, i) && IsTarget(files, name) && Turn(env, w, files, i).world.disk.out[name].Directory?
  }

  lemma {:induction false} UnblockedTurns(env: Env, w: World, files: Rendered, i: nat)
    requires Start(w) && IsProjection(files) && Installs(env, w, files) && i <= |files| + 1 <= |ManagedNames(files)|
    requires forall t :: !env.fails(t)
    requires forall j :: 0 <= j < i ==> !Blocked(env, w, files, j)
    ensures Turn(env, w, files, i).ok
    decreases i
  {
    hide Turn, ManagedNames, NewBundle, IsProjection, Installs, IsTarget, InstallOne, HonestSince;
    if i == 0 {
      TurnsEnd(env, w, files);
    } else {
      var all, p := ManagedNames(files), Turn(env, w, files, i - 1);
      UnblockedTurns(env, w, files, i - 1);
      TurnStep(env, w, files, i - 1);
      TurnShows(env, w, files, i - 1);
      TargetAt(env, files, i - 1);
      BundleIsFiles(env, files, all[i - 1]);
      assert !Blocked(env, w, files, i - 1);
      RestIsOriginal(w.disk.out, NewBundle(env, files), SetOf(all[..i - 1]), p.world.disk, all[i - 1]);
      InstallOneSucceeds(env, w.disk.out, NewBundle(env, files), SetOf(all[..i - 1]), p.world, files, all[i - 1], p.installed);
    }
  }

  lemma RestIsOriginal(orig: Dir, bundle: Dir, done: set<string>, d: Disk, name: string)
    requires Installing(orig, bundle, done, d) && name !in done
    ensures name in d.out <==> name in orig
    ensures name in orig ==> d.out[name] == orig[name]
    ensures name !in Saved(d)
  {
  }

  /** When no call fails, the bundle is published if and only if no wrong probe hid a directory. */
  lemma NoFailurePublishes(env: Env, w: World, files: Rendered)
    requires Start(w) && IsProjection(files)
    requires forall t :: !env.fails(t)
    ensures Publish(env, w, files).outcome.Published? <==>
      forall i :: 0 <= i < |ManagedNames(files)| ==> !Blocked(env, w, files, i)
  {
    hide Install, Stage, NewBundle, ManagedNames, IsProjection, Turn, Blocked, Rollback, HonestSince;
    StageSucceeds(env, w, files);
    LastTurn(env, w, files);
    TurnsEnd(env, w, files);
    if i :| 0 <= i < |ManagedNames(files)| && Blocked(env, w, files, i) {
      BlockedTurnFails(env, w, files, i);
      TurnStuck(env, w, files, i + 1, |ManagedNames(files)|);
    } else {
      UnblockedTurns(env, w, files, |files| + 1);
    }
  }

  lemma BlockedTurnFails(env: Env, w: World, files: Rendered, i: nat)
    requires Start(w) && IsProjection(files) && i < |ManagedNames(files)| && Blocked(env, w, files, i)
    ensures !Turn(env, w, files, i + 1).ok
  {
    hide Turn, ManagedNames, IsProjection, Installs;
    TurnStep(env, w, files, i);
  }

  // ----- the exact conditions of the completion marker -----

  /** In every state of the run the new manifest comes with everything it lists. */
  ghost predicate TruthfulRun(env: Env, w: World, files: Rendered) {
    var past := Publish(env, w, files).world.past;
    forall k :: |w.past| <= k < |past| ==> Truthful(NewBundle(env, files), past[k])
  }

  /** In every state of the run the visible manifest, old or new, comes with its whole bundle. */
  ghost predicate WholeRun(env: Env, w: World, files: Rendered) {
    var past := Publish(env, w, files).world.past;
    forall k :: |w.past| <= k < |past| ==> WholeBundle(w.disk.out, NewBundle(env, files), files, past[k])
  }

  /** The same world with other failures and other wrong probes. */
  function With(env: Env, fails: nat -> bool, blind: nat -> bool): Env {
    Env(fails, blind, env.listing, env.codec)
  }

  lemma BundleIgnoresFailures(env: Env, fails: nat -> bool, blind: nat -> bool, files: Rendered)
    ensures NewBundle(With(env, fails, blind), files) == NewBundle(env, files)
  {
    assert ArtifactsFor(With(env, fails, blind), files) == ArtifactsFor(env, files);
  }

  /** The new manifest never misleads, whatever fails and whichever probes are wrong, if and only if
      there is neither a stale certificate nor an old manifest with the bytes of the new one. */
  lemma TruthfulIff(env: Env, w: World, files: Rendered)
    requires Start(w) && IsProjection(files)
    ensures (forall fails: nat -> bool, blind: nat -> bool :: TruthfulRun(With(env, fails, blind), w, files))
      <==> !StaleCertificate(w.disk.out, files) && !SameManifest(w.disk.out, NewBundle(env, files))
  {
    hide Publish, NewBundle, IsProjection, StaleCertificate, With, Truthful;
    var orig, bundle := w.disk.out, NewBundle(env, files);
    if StaleCertificate(orig, files) {
      var bad, k := StaleCertificateMisleads(env, w, files);
      assert !TruthfulRun(With(env, bad.fails, bad.blind), w, files);
    } else if SameManifest(orig, bundle) {
      var calm, k, l := OldManifestRun(env, w, files);
      assert !TruthfulRun(With(env, calm.fails, calm.blind), w, files);
    } else {
      forall fails: nat -> bool, blind: nat -> bool
        ensures TruthfulRun(With(env, fails, blind), w, files)
      {
        var e := With(env, fails, blind);
        BundleIgnoresFailures(env, fails, blind, files);
        forall k | |w.past| <= k < |Publish(e, w, files).world.past|
          ensures Truthful(NewBundle(e, files), Publish(e, w, files).world.past[k])
        {
          ManifestIsTruthful(e, w, files, k);
        }
      }
    }
  }

  /** A visible manifest, old or new, never misleads, whatever fails and whichever probes are wrong,
      if and only if the directory holds no manifest and no stale certificate to begin with. */
  lemma WholeIff(env: Env, w: World, files: Rendered)
    requires Start(w) && IsProjection(files)
    ensures (forall fails: nat -> bool, blind: nat -> bool :: WholeRun(With(env, fails, blind), w, files))
      <==> MANIFEST !in w.disk.out && !StaleCertificate(w.disk.out, files)
  {
    hide Publish, NewBundle, IsProjection, StaleCertificate, With, Complete, OldWhole;
    var orig, bundle := w.disk.out, NewBundle(env, files);
    if MANIFEST in orig {
      var calm, k, l := OldManifestRun(env, w, files);
      assert !WholeRun(With(env, calm.fails, calm.blind), w, files);
    } else if StaleCertificate(orig, files) {
      var bad, k := StaleCertificateMisleads(env, w, files);
      assert !WholeRun(With(env, bad.fails, bad.blind), w, files);
    } else {
      forall fails: nat -> bool, blind: nat -> bool
        ensures WholeRun(With(env, fails, blind), w, files)
      {
        var e := With(env, fails, blind);
        ManifestIsHonest(e, w, files);
        var past := Publish(e, w, files).world.past;
        assert forall k :: |w.past| <= k < |past| ==> Honest(orig, NewBundle(e, files), past[k]);
      }
    }
  }

  /** An artifact in place that no probe overlooks is moved aside. */
  lemma SeenIsMoved(env: Env, w: World, files: Rendered, i: nat)
    requires Start(w) && IsProjection(files) && Installs(env, w, files) && i <= |files| < |ManagedNames(files)|
    requires Turn(env, w, files, i).ok && ManagedNames(files)[i] in w.disk.out
    requires var t := Turn(env, w, files, i).world.Tick(); !env.blind(t) && !env.fails(t + 1)
    ensures MovesAside(env, w, files, i)
  {
    hide Turn, ManagedNames, NewBundle, IsProjection, Installs, Installing, HonestSince;
    TurnShows(env, w, files, i);
    TargetAt(env, files, i);
    var p, name := Turn(env, w, files, i), ManagedNames(files)[i];
    RestIsOriginal(w.disk.out, NewBundle(env, files), SetOf(ManagedNames(files)[..i]), p.world.disk, name);
    assert p.world.disk.backup.Some? by {
      assert Installing(w.disk.out, NewBundle(env, files), SetOf(ManagedNames(files)[..i]), p.world.disk);
      InstallingHasBackup(w.disk.out, NewBundle(env, files), SetOf(ManagedNames(files)[..i]), p.world.disk);
    }
  }

  lemma InstallingHasBackup(orig: Dir, bundle: Dir, done: set<string>, d: Disk)
    requires Installing(orig, bundle, done, d)
    ensures d.backup.Some?
  {
  }

  /** Over an old manifest even the run in which nothing goes wrong misleads: about the visible
      manifest at `k`, and about the new one at `l` when the two have the same bytes. */
  lemma OldManifestRun(env: Env, w: World, files: Rendered) returns (calm: Env, k: nat, l: nat)
    requires Start(w) && IsProjection(files) && MANIFEST in w.disk.out
    ensures calm == With(env, calm.fails, calm.blind) && NewBundle(calm, files) == NewBundle(env, files)
    ensures forall t :: !calm.fails(t) && !calm.blind(t)
    ensures |w.past| <= k < |Publish(calm, w, files).world.past| && |w.past| <= l < |Publish(calm, w, files).world.past|
    ensures !WholeBundle(w.disk.out, NewBundle(env, files), files, Publish(calm, w, files).world.past[k])
    ensures SameManifest(w.disk.out, NewBundle(env, files)) ==>
      !Truthful(NewBundle(env, files), Publish(calm, w, files).world.past[l])
  {
    hide Publish, NewBundle, IsProjection, Turn, ManagedNames, Installs, WholeBundle, Truthful, Complete, OldWhole, HonestSince;
    var orig, bundle, all := w.disk.out, NewBundle(env, files), ManagedNames(files);
    calm := With(env, t => false, t => false);
    BundleIgnoresFailures(env, t => false, t => false, files);
    AtLeastSix(files);
    TargetAt(env, files, 0);
    TargetAt(env, files, 1);
    TurnSucceeds(calm, w, files, 0);
    TurnSucceeds(calm, w, files, 1);
    if all[0] in orig {
      SeenIsMoved(calm, w, files, 0);
      k := OldManifestMisleads(calm, w, files, 0);
      l := k;
    } else {
      l := MissingFirst(calm, w, files);
      var d := FirstInPlace(calm, w, files);
      RunRecordsTurn(calm, w, files, 1);
      if Complete(bundle, d) {
        assert all[1] in orig by { OnlyFirstIsNew(calm, w, files, d); }
        SeenIsMoved(calm, w, files, 1);
        k := OldManifestMisleads(calm, w, files, 1);
      } else {
        k := |Turn(calm, w, files, 1).world.past| - 1;
        NotWhole(orig, bundle, files, d);
      }
    }
  }

  lemma AtLeastSix(files: Rendered)
    requires IsProjection(files)
    ensures |files| >= 6
  {
    assert |Names(files)| == |files|;
  }

  /** The state before the first turn, recorded as the last one of the preparation. */
  lemma MissingFirst(env: Env, w: World, files: Rendered) returns (l: nat)
    requires Start(w) && IsProjection(files) && Installs(env, w, files) && 0 < |ManagedNames(files)|
    requires ManagedNames(files)[0] !in w.disk.out
    ensures |w.past| <= l < |Publish(env, w, files).world.past|
    ensures SameManifest(w.disk.out, NewBundle(env, files)) ==>
      !Truthful(NewBundle(env, files), Publish(env, w, files).world.past[l])
  {
    hide Publish, NewBundle, IsProjection, ManagedNames, Turn, Stage;
    TargetAt(env, files, 0);
    TurnsEnd(env, w, files);
    RunRecordsTurn(env, w, files, 0);
    PreparedIsStart(env, w, files);
    StagingIsInvisible(env, w, files);
    l := |Prepared(env, w, files).past| - 1;
    assert Publish(env, w, files).world.past[l] == Prepared(env, w, files).disk;
  }

  /** The state after the first turn when the first artifact was not there: its place is taken. */
  lemma FirstInPlace(env: Env, w: World, files: Rendered) returns (d: Disk)
    requires Start(w) && IsProjection(files) && Installs(env, w, files) && 0 < |ManagedNames(files)|
    requires ManagedNames(files)[0] !in w.disk.out && MANIFEST in w.disk.out && Turn(env, w, files, 1).ok
    ensures var p := Turn(env, w, files, 1);
      && d == p.world.disk && |w.past| < |p.world.past| && p.world.past[|p.world.past| - 1] == d
    ensures ManagedNames(files)[0] in d.out && MANIFEST in d.out
    ensures forall n :: n in d.out ==> n in w.disk.out || n == ManagedNames(files)[0]
    ensures !OldWhole(w.disk.out, files, d)
  {
    hide Publish, NewBundle, IsProjection, ManagedNames, Turn, Installs, Prepared, OldWhole, HonestSince;
    var all := ManagedNames(files);
    AtLeastSix(files);
    TargetAt(env, files, 0);
    ManifestIsNotArtifact(files, 0);
    TurnStep(env, w, files, 0);
    TurnsEnd(env, w, files);
    RunRecordsTurn(env, w, files, 0);
    TurnShows(env, w, files, 1);
    d := Turn(env, w, files, 1).world.disk;
    assert all[..1] == [all[0]];
    MissingIsNotWhole(w.disk.out, files, d, 0);
  }

  lemma OnlyFirstIsNew(env: Env, w: World, files: Rendered, d: Disk)
    requires IsProjection(files) && 1 < |ManagedNames(files)| && Complete(NewBundle(env, files), d)
    requires forall n :: n in d.out ==> n in w.disk.out || n == ManagedNames(files)[0]
    ensures ManagedNames(files)[1] in w.disk.out
  {
    hide IsProjection, ManagedNames, NewBundle;
    AtLeastSix(files);
    TargetAt(env, files, 1);
    assert ManagedNames(files)[..1] == [ManagedNames(files)[0]];
  }

  lemma NotWhole(orig: Dir, bundle: Dir, files: Rendered, d: Disk)
    requires MANIFEST in d.out && !Complete(bundle, d) && !OldWhole(orig, files, d)
    ensures !WholeBundle(orig, bundle, files, d)
  {
  }

  /** What the failure path recorded right after its first unlink stays on record. */
  lemma FirstUnlinkRecorded(env: Env, w: World, installed: seq<string>)
    requires installed != [] && Succeeds(env, w, Unlink(installed[0]))
    ensures var v := Do(env, w, Unlink(installed[0])); v.past <= Fail(env, w, true, true, installed).world.past
  {
    hide Effect, Succeeds;
    var v := Do(env, w, Unlink(installed[0]));
    UnlinkIsRecorded(env, v, v, installed[1..]);
    var unlinked := UnlinkAll(env, w, installed);
    if unlinked.ok && Succeeds(env, unlinked.world, ListBackup) {
      var u := Do(env, unlinked.world, ListBackup);
      RestoreIsRecorded(env, v, u, env.listing(BackupNames(unlinked.world.disk)));
    }
  }

  /** With a stale certificate there is always a run in which the new manifest misleads: the
      certificate cannot be moved aside, and the rollback removes artifacts before the manifest. */
  lemma StaleCertificateMisleads(env: Env, w: World, files: Rendered) returns (bad: Env, k: nat)
    requires Start(w) && IsProjection(files) && StaleCertificate(w.disk.out, files)
    ensures bad == With(env, bad.fails, bad.blind) && NewBundle(bad, files) == NewBundle(env, files)
    ensures |w.past| <= k < |Publish(bad, w, files).world.past|
    ensures !Truthful(NewBundle(env, files), Publish(bad, w, files).world.past[k])
    ensures MANIFEST !in w.disk.out ==>
      !WholeBundle(w.disk.out, NewBundle(env, files), files, Publish(bad, w, files).world.past[k])
  {
    hide Install, Stage, Names, IsProjection, ManagedNames, NewBundle, Fail, Turn, HonestSince;
    var n, all := |files| + 1, ManagedNames(files);
    TargetOrder(env, files);
    var last := ProbeTick(w, files, n) + 1;
    bad := With(env, t => t == last, t => false);
    BundleIgnoresFailures(env, t => t == last, t => false, files);
    TurnSucceeds(bad, w, files, n);
    TurnShows(bad, w, files, n);
    assert all[..n] == Targets(files);
    var f := CertificateStuck(bad, w, files);
    AllVisible(w.disk.out, NewBundle(env, files), SetOf(all[..n]), f.disk);
    k := UnlinkMisleads(bad, w, files, f);
  }

  /** When the last turn fails with everything in place, the first unlink of the rollback misleads. */
  lemma UnlinkMisleads(env: Env, w: World, files: Rendered, f: World) returns (k: nat)
    requires IsProjection(files) && Installs(env, w, files) && Complete(NewBundle(env, files), f.disk)
    requires !env.fails(f.Tick())
    requires Turn(env, w, files, |ManagedNames(files)|) == Progress(f, false, Targets(files))
    ensures |w.past| <= k < |Publish(env, w, files).world.past|
    ensures var d := Publish(env, w, files).world.past[k];
      && !Truthful(NewBundle(env, files), d)
      && (MANIFEST !in w.disk.out ==> !WholeBundle(w.disk.out, NewBundle(env, files), files, d))
  {
    hide Install, Stage, Names, IsProjection, ManagedNames, NewBundle, Fail, Turn;
    var first, bundle := Targets(files)[0], NewBundle(env, files);
    TurnsEnd(env, w, files);
    TargetAt(env, files, 0);
    TargetOrder(env, files);
    AtLeastSix(files);
    ManifestIsNotArtifact(files, 0);
    BundleIsFiles(env, files, first);
    FirstUnlinkRecorded(env, f, Targets(files));
    RunRecordsTurn(env, w, files, |ManagedNames(files)|);
    k := |f.past|;
    var v := Do(env, f, Unlink(first));
    assert Publish(env, w, files).world.past[k] == v.disk by {
      assert Publish(env, w, files) == Fail(env, f, true, true, Targets(files));
    }
    assert first !in v.disk.out && first in bundle && MANIFEST in bundle && v.disk.out[MANIFEST] == bundle[MANIFEST];
    NewManifestOnly(w.disk.out, bundle, files, v.disk);
  }

  lemma NewManifestOnly(orig: Dir, bundle: Dir, files: Rendered, d: Disk)
    requires MANIFEST in bundle && MANIFEST in d.out && d.out[MANIFEST] == bundle[MANIFEST] && !Complete(bundle, d)
    requires MANIFEST in Managed(files)
    ensures !Truthful(bundle, d) && (MANIFEST !in orig ==> !WholeBundle(orig, bundle, files, d))
  {
  }

  lemma AllVisible(orig: Dir, bundle: Dir, done: set<string>, d: Disk)
    requires Installing(orig, bundle, done, d) && bundle.Keys == done
    ensures Complete(bundle, d)
  {
  }

  lemma CertificateStuck(env: Env, w: World, files: Rendered) returns (f: World)
    requires Start(w) && IsProjection(files) && Installs(env, w, files) && StaleCertificate(w.disk.out, files)
    requires |files| + 2 == |ManagedNames(files)|
    requires var p := Turn(env, w, files, |files| + 1);
      p.ok && !env.blind(p.world.Tick()) && env.fails(p.world.Tick() + 1)
    ensures var p := Turn(env, w, files, |files| + 1);
      && f.disk == p.world.disk && f.Tick() == p.world.Tick() + 2
      && Turn(env, w, files, |files| + 2) == Progress(f, false, p.installed)
  {
    hide Stage, Names, IsProjection, ManagedNames, NewBundle, Turn, HonestSince;
    TargetOrder(env, files);
    LastTurn(env, w, files);
    TurnStep(env, w, files, |files| + 1);
    f := Turn(env, w, files, |files| + 2).world;
  }

  // ----- what the hypotheses are for -----

  lemma {:induction false} UnlinksSucceed(env: Env, w: World, names: seq<string>)
    requires forall t :: t >= w.Tick() ==> !env.fails(t)
    requires forall n :: n in names && n in w.disk.out ==> w.disk.out[n].File?
    ensures var p := UnlinkAll(env, w, names);
      && p.ok && p.world.disk == w.disk.(out := w.disk.out - SetOf(names)) && p.world.Tick() >= w.Tick()
    decreases |names|
  {
    if names == [] {
      assert w.disk.out - SetOf(names) == w.disk.out;
    } else {
      var v := Do(env, w, Unlink(names[0]));
      UnlinksSucceed(env, v, names[1..]);
      assert names == [names[0]] + names[1..];
      assert (w.disk.out - {names[0]}) - SetOf(names[1..]) == w.disk.out - SetOf(names);
    }
  }

  lemma {:induction false} RestoresSucceed(env: Env, w: World, names: seq<string>)
    requires forall t :: t >= w.Tick() ==> !env.fails(t)
    requires NoDuplicates(names) && w.disk.backup.Some?
    requires forall n :: n in names ==> n in Saved(w.disk) && n !in w.disk.out
    ensures RestoreAll(env, w, names).ok
    decreases |names|
  {
    if names == [] {
    } else {
      var v := Do(env, w, Restore(names[0]));
      assert forall n :: n in names[1..] ==> n in names && n != names[0];
      RestoresSucceed(env, v, names[1..]);
    }
  }

  /** A rollback in which nothing fails succeeds. */
  lemma FailRollsBack(env: Env, orig: Dir, bundle: Dir, w: World, installed: seq<string>)
    requires ListsOnce(env) && (forall t :: t >= w.Tick() ==> !env.fails(t))
    requires Installing(orig, bundle, SetOf(installed), w.disk)
    requires forall n :: n in installed ==> n in bundle && bundle[n].File?
    ensures Fail(env, w, true, true, installed).outcome.RolledBack?
  {
    UnlinksSucceed(env, w, installed);
    var u := UnlinkAll(env, w, installed).world;
    var v := Do(env, u, ListBackup);
    var names := env.listing(BackupNames(u.disk));
    forall n | n in names
      ensures n in Saved(v.disk) && n !in v.disk.out
    {
      assert n in SetOf(names);
    }
    RestoresSucceed(env, v, names);
  }

  /** A probe that wrongly answers no costs a whole run its exactness: for every old artifact file
      there is one such probe and one later failure with which the run rolls back and loses it. */
  lemma BlindProbeLosesOriginal(env: Env, w: World, files: Rendered, i: nat) returns (bad: Env, b: nat)
    requires ListsOnce(env) && Start(w) && IsProjection(files) && i < |files| && i < |ManagedNames(files)|
    requires ManagedNames(files)[i] in w.disk.out && w.disk.out[ManagedNames(files)[i]].File?
    ensures bad == With(env, t => t == b + 3, t => t == b)
    ensures Publish(bad, w, files).outcome.RolledBack?
    ensures ManagedNames(files)[i] !in Publish(bad, w, files).world.disk.out
  {
    hide Install, Stage, Names, IsProjection, ManagedNames, NewBundle, Fail, HonestSince, Installing, Turn, InstallOne, IsTarget;
    var orig, all := w.disk.out, ManagedNames(files);
    b := ProbeTick(w, files, i);
    bad := With(env, t => t == b + 3, t => t == b);
    TargetAt(bad, files, i);
    TargetAt(bad, files, i + 1);
    TurnSucceeds(bad, w, files, i);
    TurnShows(bad, w, files, i);
    var bundle, p := NewBundle(bad, files), Turn(bad, w, files, i);
    BundleIsFiles(bad, files, all[i]);
    TurnStep(bad, w, files, i);
    InstallOneSucceeds(bad, orig, bundle, SetOf(all[..i]), p.world, files, all[i], p.installed);
    TurnShows(bad, w, files, i + 1);
    var q := Turn(bad, w, files, i + 1);
    TurnStep(bad, w, files, i + 1);
    InstallOneFails(bad, orig, bundle, SetOf(all[..i + 1]), q.world, files, all[i + 1], q.installed);
    var r := Turn(bad, w, files, i + 2);
    TurnStuck(bad, w, files, i + 2, |all|);
    TurnsEnd(bad, w, files);
    forall n | n in all[..i + 1]
      ensures n in bundle && bundle[n].File?
    {
      PrefixInBundle(bad, files, i + 1, n);
    }
    FailRollsBack(bad, orig, bundle, r.world, r.installed);
    OverlookedIsOverwritten(bad, w, files, i);
    OverwrittenIsLost(bad, w, files, i);
  }

  lemma PrefixInBundle(env: Env, files: Rendered, i: nat, n: string)
    requires IsProjection(files) && i <= |files| < |ManagedNames(files)| && n in ManagedNames(files)[..i]
    ensures n in NewBundle(env, files) && NewBundle(env, files)[n].File?
  {
    hide IsProjection, ManagedNames, NewBundle;
    var j :| 0 <= j < i && ManagedNames(files)[j] == n;
    TargetAt(env, files, j);
    BundleIsFiles(env, files, n);
  }

  lemma OverlookedIsOverwritten(env: Env, w: World, files: Rendered, i: nat)
    requires Start(w) && IsProjection(files) && Installs(env, w, files) && i < |files| && i < |ManagedNames(files)|
    requires Turn(env, w, files, i).ok && ManagedNames(files)[i] in w.disk.out && w.disk.out[ManagedNames(files)[i]].File?
    requires var t := Turn(env, w, files, i).world.Tick(); env.blind(t) && !env.fails(t + 1)
    ensures Overwritten(env, w, files, i)
  {
    hide Turn, ManagedNames, NewBundle, IsProjection, Installs, HonestSince, IsTarget;
    TurnShows(env, w, files, i);
    TargetAt(env, files, i);
    BundleIsFiles(env, files, ManagedNames(files)[i]);
    var p, name := Turn(env, w, files, i), ManagedNames(files)[i];
    RestIsOriginal(w.disk.out, NewBundle(env, files), SetOf(ManagedNames(files)[..i]), p.world.disk, name);
  }

  /** A turn of a name of the bundle whose second call fails leaves the disk as it was. */
  lemma InstallOneFails(
      env: Env, orig: Dir, bundle: Dir, done: set<string>, w: World, files: Rendered, name: string, installed: seq<string>)
    requires Installing(orig, bundle, done, w.disk) && IsTarget(files, name) && env.fails(w.Tick() + 1)
    ensures var p := InstallOne(env, w, files, name, installed);
      !p.ok && p.world.disk == w.disk && p.world.Tick() == w.Tick() + 2 && p.installed == installed
  {
  }

  /** Without the de-duplication of managed names, a second visit to the certificate would move the
      new one over the backup of the old: the original is lost. */
  lemma DuplicateLosesOriginal(env: Env, w: World, files: Rendered)
    requires w.disk.backup == Some(map[]) && w.disk.stage.Some?
    requires CERTIFICATE in Names(files) && CERTIFICATE in w.disk.stage.value && w.disk.stage.value[CERTIFICATE].File?
    requires CERTIFICATE in w.disk.out && w.disk.out[CERTIFICATE].File?
    requires w.disk.out[CERTIFICATE] != w.disk.stage.value[CERTIFICATE]
    requires NoFailure(env, w.Tick(), w.Tick() + 5) && NoBlindness(env, w.Tick(), w.Tick() + 5)
    ensures !Conserved(w.disk.out, Install(env, w, files, [CERTIFICATE, CERTIFICATE], []).world.disk)
  {
    var one := InstallOne(env, w, files, CERTIFICATE, []);
    assert [CERTIFICATE, CERTIFICATE][1..] == [CERTIFICATE];
    assert one.ok && one.world.Tick() == w.Tick() + 3;
    SecondVisit(env, w, one.world, files, one.installed);
  }

  lemma SecondVisit(env: Env, w: World, v: World, files: Rendered, installed: seq<string>)
    requires CERTIFICATE in Names(files) && CERTIFICATE in w.disk.out && w.disk.out[CERTIFICATE].File?
    requires v.disk.backup == Some(map[CERTIFICATE := w.disk.out[CERTIFICATE]])
    requires v.disk.stage.Some? && CERTIFICATE !in v.disk.stage.value
    requires CERTIFICATE in v.disk.out && v.disk.out[CERTIFICATE].File? && v.disk.out[CERTIFICATE] != w.disk.out[CERTIFICATE]
    requires NoFailure(env, v.Tick(), v.Tick() + 2) && NoBlindness(env, v.Tick(), v.Tick() + 1)
    ensures !Conserved(w.disk.out, Install(env, v, files, [CERTIFICATE], installed).world.disk)
  {
    var p := InstallOne(env, v, files, CERTIFICATE, installed);
    var before, after := w.disk.out[CERTIFICATE], v.disk.out[CERTIFICATE];
    assert map[CERTIFICATE := before][CERTIFICATE := after] == map[CERTIFICATE := after];
    assert p.world.disk.backup == Some(map[CERTIFICATE := after]);
    assert CERTIFICATE !in p.world.disk.out;
    assert Install(env, v, files, [CERTIFICATE], installed) == p;
  }
}
