/**
 * When the disk mirrors the running manifest: a restart then reloads the same values, which is what
 * moving secrets into an env file is meant to keep (multiapp.go).
 */
module FleetMirror {
  import opened Text
  import opened Hosts
  import opened Manifest
  import opened Registry
  import opened Fleet
  import opened FleetRuns
  import opened FleetRestart
  import EnvFile

  /** Every entry reads back with the env its running app has. */
  ghost predicate Mirrors(f: State) {
    && Declared(f)
    && forall k :: 0 <= k < |f.apps| ==> EntryMirrors(f, k)
  }

  ghost predicate EntryMirrors(f: State, k: nat)
    requires f.file.Some?
  {
    && k < |f.apps| && k < |f.file.value|
    && DiskEnv(f.disk, f.place.dir, f.file.value[k]) == Some(f.apps[k].mergedEnv)
  }

  /** The next start looks where the process writes. */
  predicate SamePlace(place: Place, name: string) {
    WritesTo(place, name) == ReadsFrom(place, name)
  }

  /** That holds for every name or for none: the data directory is absolute, or relative to one directory. */
  lemma SamePlaceIff(place: Place, name: string)
    ensures SamePlace(place, name) <==> place.dataDir == "" || IsAbs(place.dataDir) || place.cwd == place.dir
  {
    var p := EnvPath(place, name);
    assert p[0] == if place.dataDir == "" then '/' else place.dataDir[0];
    if !IsAbs(p) && place.cwd + "/" + p == place.dir + "/" + p {
      assert |place.cwd| == |place.dir|;
      assert place.cwd == (place.cwd + "/" + p)[..|place.cwd|];
      assert place.dir == (place.dir + "/" + p)[..|place.dir|];
    }
  }

  /** Another app's entry reads the file at `path`, and `text` is not its env. */
  ghost predicate Clobbers(f: State, path: string, text: string, own: int)
    requires f.file.Some? && |f.file.value| == |f.apps|
  {
    exists k :: 0 <= k < |f.apps| && k != own && Reads(f.place, f.file.value[k], path)
                && EnvFrom(text, f.file.value[k]) != Some(f.apps[k].mergedEnv)
  }

  /** The generated file of `name` will give `merged` back, when `env` went into it. */
  ghost predicate GivesBack(f: State, name: string, env: Env, merged: Env) {
    if SamePlace(f.place, name) then merged == env && EnvFile.SafeEnv(env)
    else FileEnv(f.disk, f.place.dir, EnvPath(f.place, name)) == Some(merged)
  }

  /**
   * An add: its entries clobber another app's file, or it goes through and its own file will not
   * give its env back, because an env file of its own held more, an entry is unsafe, or the next
   * start looks elsewhere.
   */
  ghost predicate AddDiverges(f: State, spec: AppSpec, io: AddIo)
    requires f.file.Some? && |f.file.value| == |f.apps|
  {
    AddWrites(f, spec, io) &&
    var env := Planned(spec, io).env;
    || (!io.envWrite.Refused? && Clobbers(f, WritesTo(f.place, spec.name), Left(f.place, env, io.envWrite), -1))
    || (AddGoesThrough(f, spec, io) && !GivesBack(f, spec.name, env, Candidate(f, spec, io).mergedEnv))
  }

  /**
   * An accepted edit: it clobbers another app's file, or, persisted, its file will not give the new
   * env back, or, not persisted, the old entry does not read as the new env.
   */
  ghost predicate EditDiverges(f: State, name: string, setEnv: Env, unset: seq<string>, io: EditIo)
    requires f.file.Some? && |f.file.value| == |f.apps|
  {
    EditAccepted(f, name, setEnv, unset) &&
    var i := AppIndex(f.apps, name);
    var next := NextEnv(f.apps[i].mergedEnv, setEnv, unset);
    || (!io.envWrite.Refused? && Clobbers(f, WritesTo(f.place, name), Left(f.place, next, io.envWrite), i))
    || (if EditPersists(f, name, io) then !GivesBack(f, name, next, next)
        else !StillReads(f, i, name, next, io.envWrite))
  }

  /** An entry the edit did not replace reads as `next` after its write. */
  ghost predicate StillReads(f: State, i: nat, name: string, next: Env, w: EnvWrite)
    requires f.file.Some? && i < |f.file.value| && i < |f.apps|
  {
    if !w.Refused? && Reads(f.place, f.file.value[i], WritesTo(f.place, name))
    then EnvFrom(Left(f.place, next, w), f.file.value[i]) == Some(next)
    else next == f.apps[i].mergedEnv
  }

  ghost predicate Diverges(f: State, op: Op)
    requires f.file.Some? && |f.file.value| == |f.apps|
  {
    match op
    case AddOp(spec, io) => AddDiverges(f, spec, io)
    case EditOp(name, setEnv, unset, io) => EditDiverges(f, name, setEnv, unset, io)
    case RemoveOp(_, _, _) => false
  }

  // One entry after one write.

  /** The entries of the other apps mirror after a write exactly when it clobbers none. */
  lemma OthersMirrorIff(f: State, name: string, env: Env, w: EnvWrite, own: int)
    requires Mirrors(f)
    ensures (forall k :: 0 <= k < |f.apps| && k != own ==>
               DiskEnv(WroteEnv(f, name, env, w), f.place.dir, f.file.value[k]) == Some(f.apps[k].mergedEnv))
            <==> w.Refused? || !Clobbers(f, WritesTo(f.place, name), Left(f.place, env, w), own)
  {
    WroteIsLeft(f, name, env, w);
    var disk := WroteEnv(f, name, env, w);
    forall k | 0 <= k < |f.apps|
      ensures DiskEnv(disk, f.place.dir, f.file.value[k]) ==
              if !w.Refused? && Reads(f.place, f.file.value[k], WritesTo(f.place, name))
                  then EnvFrom(Left(f.place, env, w), f.file.value[k])
              else Some(f.apps[k].mergedEnv)
    {
      assert EntryMirrors(f, k);
      if !w.Refused? {
        EntryAfterWrite(f.disk, f.place, f.file.value[k], WritesTo(f.place, name), Left(f.place, env, w));
      }
    }
  }

  /** An entry that declares the generated file and nothing else reads `merged` exactly when the file gives it back. */
  lemma GeneratedEntryIff(f: State, e: AppSpec, name: string, env: Env, merged: Env)
    requires e.envFile == EnvPath(f.place, name) && e.env == map[]
    requires forall k :: k in env ==> k in merged && merged[k] == env[k]
    ensures DiskEnv(WroteEnv(f, name, env, Wrote), f.place.dir, e) == Some(merged) <==> GivesBack(f, name, env, merged)
  {
    var text := EnvFile.TextOf(f.place.header, env);
    EntryAfterWrite(f.disk, f.place, e, WritesTo(f.place, name), text);
    assert e.envFile != "";
    EnvFile.TextReadsAsWholeIff(f.place.header, env, merged);
    NothingInline(EnvFile.Parse(text), e);
    NothingInline(FileEnv(f.disk, f.place.dir, e.envFile), e);
  }

  lemma NothingInline(m: Option<Env>, e: AppSpec)
    requires e.env == map[]
    ensures m.Some? ==> m.value + e.env == m.value
  {
  }

  // One operation.

  /** The own entry of an add that goes through. */
  lemma AddedEntryIff(f: State, spec: AppSpec, io: AddIo)
    requires f.file.Some? && AddGoesThrough(f, spec, io)
    ensures var a := Added(f, spec, io);
            DiskEnv(AddDisk(f, spec, io), f.place.dir, a) == Some(a.mergedEnv) <==>
              (AddWrites(f, spec, io) ==> GivesBack(f, spec.name, Planned(spec, io).env, a.mergedEnv))
  {
    var a, env := Added(f, spec, io), Planned(spec, io).env;
    if AddWrites(f, spec, io) {
      GeneratedEntryIff(f, a, spec.name, env, a.mergedEnv);
    } else {
      assert |env| == 0 && env == map[];
    }
  }

  lemma AppendedMirrorsIff(f: State, g: State, a: AppSpec)
    requires Declared(f) && Declared(g) && g.place == f.place
    requires g.apps == f.apps + [a] && g.file == Some(f.file.value + [a])
    ensures Mirrors(g) <==>
              && DiskEnv(g.disk, f.place.dir, a) == Some(a.mergedEnv)
              && forall k :: 0 <= k < |f.apps| ==>
                  DiskEnv(g.disk, f.place.dir, f.file.value[k]) == Some(f.apps[k].mergedEnv)
  {
    var n := |f.apps|;
    assert g.apps[n] == a && g.file.value[n] == a;
    forall k | 0 <= k < n
      ensures EntryMirrors(g, k) <==> DiskEnv(g.disk, f.place.dir, f.file.value[k]) == Some(f.apps[k].mergedEnv)
    {
      assert g.apps[k] == f.apps[k] && g.file.value[k] == f.file.value[k];
    }
    if Mirrors(g) {
      assert EntryMirrors(g, n);
      forall k | 0 <= k < n ensures DiskEnv(g.disk, f.place.dir, f.file.value[k]) == Some(f.apps[k].mergedEnv) {
        assert EntryMirrors(g, k);
      }
    }
  }

  lemma SameEntriesMirrorIff(f: State, g: State)
    requires Declared(f) && g.apps == f.apps && g.file == f.file && g.place == f.place
    ensures Mirrors(g) <==> forall k :: 0 <= k < |f.apps| ==>
              DiskEnv(g.disk, f.place.dir, f.file.value[k]) == Some(f.apps[k].mergedEnv)
  {
    SameDeclarations(f, g);
    if Mirrors(g) {
      forall k | 0 <= k < |f.apps| ensures DiskEnv(g.disk, f.place.dir, f.file.value[k]) == Some(f.apps[k].mergedEnv) {
        assert EntryMirrors(g, k);
      }
    }
  }

  /** The other entries after the write of an add, if it gets that far. */
  lemma AddOthersIff(f: State, spec: AppSpec, io: AddIo)
    requires Mirrors(f)
    ensures (forall k :: 0 <= k < |f.apps| ==>
               DiskEnv(AddDisk(f, spec, io), f.place.dir, f.file.value[k]) == Some(f.apps[k].mergedEnv))
            <==> !(AddWrites(f, spec, io) && !io.envWrite.Refused?
                   && Clobbers(f, WritesTo(f.place, spec.name), Left(f.place, Planned(spec, io).env, io.envWrite), -1))
  {
    if AddWrites(f, spec, io) {
      OthersMirrorIff(f, spec.name, Planned(spec, io).env, io.envWrite, -1);
    } else {
      forall k | 0 <= k < |f.apps| ensures DiskEnv(f.disk, f.place.dir, f.file.value[k]) == Some(f.apps[k].mergedEnv) {
        assert EntryMirrors(f, k);
      }
    }
  }

  lemma AddMirrorsIff(f: State, spec: AppSpec, io: AddIo)
    requires Mirrors(f)
    ensures Mirrors(Add(f, spec, io).fleet) <==> !AddDiverges(f, spec, io)
  {
    var op, g := AddOp(spec, io), Add(f, spec, io).fleet;
    StepKeepsDeclared(f, op);
    StepLeaves(f, op);
    AddOthersIff(f, spec, io);
    if Add(f, spec, io).ok {
      AddSucceeds(f, spec, io);
      AddedEntryIff(f, spec, io);
      AppendedMirrorsIff(f, g, Added(f, spec, io));
    } else {
      AddFails(f, spec, io);
      SameEntriesMirrorIff(f, g);
    }
  }

  /** One entry and its app changed: a question of that entry and of the others. */
  lemma ChangedMirrorsIff(f: State, g: State, i: nat, e: AppSpec, a: AppSpec)
    requires Declared(f) && Declared(g) && g.place == f.place && i < |f.apps|
    requires g.apps == f.apps[i := a] && g.file == Some(f.file.value[i := e])
    ensures Mirrors(g) <==>
              && DiskEnv(g.disk, f.place.dir, e) == Some(a.mergedEnv)
              && forall k :: 0 <= k < |f.apps| && k != i ==>
                  DiskEnv(g.disk, f.place.dir, f.file.value[k]) == Some(f.apps[k].mergedEnv)
  {
    assert g.apps[i] == a && g.file.value[i] == e;
    forall k | 0 <= k < |f.apps| && k != i
      ensures EntryMirrors(g, k) <==> DiskEnv(g.disk, f.place.dir, f.file.value[k]) == Some(f.apps[k].mergedEnv)
    {
      assert g.apps[k] == f.apps[k] && g.file.value[k] == f.file.value[k];
    }
    if Mirrors(g) {
      assert EntryMirrors(g, i);
      forall k | 0 <= k < |f.apps| && k != i
          ensures DiskEnv(g.disk, f.place.dir, f.file.value[k]) == Some(f.apps[k].mergedEnv) {
        assert EntryMirrors(g, k);
      }
    }
  }

  /** The entry of an edit that did not replace it. */
  lemma KeptEntryIff(f: State, i: nat, name: string, next: Env, w: EnvWrite)
    requires Mirrors(f) && i < |f.apps|
    ensures DiskEnv(WroteEnv(f, name, next, w), f.place.dir, f.file.value[i]) == Some(next) <==>
              StillReads(f, i, name, next, w)
  {
    assert EntryMirrors(f, i);
    WroteIsLeft(f, name, next, w);
    if !w.Refused? {
      EntryAfterWrite(f.disk, f.place, f.file.value[i], WritesTo(f.place, name), Left(f.place, next, w));
    }
  }

  lemma EditMirrorsIff(f: State, name: string, setEnv: Env, unset: seq<string>, io: EditIo)
    requires Mirrors(f) && EditAccepted(f, name, setEnv, unset)
    ensures Mirrors(Edit(f, name, setEnv, unset, io).fleet) <==> !EditDiverges(f, name, setEnv, unset, io)
  {
    var op, g := EditOp(name, setEnv, unset, io), Edit(f, name, setEnv, unset, io).fleet;
    var i := AppIndex(f.apps, name);
    var next := NextEnv(f.apps[i].mergedEnv, setEnv, unset);
    StepKeepsDeclared(f, op);
    StepLeaves(f, op);
    EditChangesOneApp(f, name, setEnv, unset, io);
    DeclaredIndex(f, name);
    OthersMirrorIff(f, name, next, io.envWrite, i);
    if EditPersists(f, name, io) {
      GeneratedEntryIff(f, Edited(f, i, next), name, next, next);
      ChangedMirrorsIff(f, g, i, Edited(f, i, next), g.apps[i]);
    } else {
      KeptEntryIff(f, i, name, next, io.envWrite);
      assert f.file.value == f.file.value[i := f.file.value[i]];
      ChangedMirrorsIff(f, g, i, f.file.value[i], g.apps[i]);
    }
  }

  lemma RemoveMirrors(f: State, g: State, i: nat)
    requires Mirrors(f) && Declared(g) && i < |f.apps| && g.place == f.place && g.disk == f.disk
    requires g.apps == Without(f.apps, i) && g.file == Some(Without(f.file.value, i))
    ensures Mirrors(g)
  {
    forall k | 0 <= k < |g.apps| ensures EntryMirrors(g, k) {
      WithoutAt(f.apps, i, k);
      WithoutAt(f.file.value, i, k);
      assert EntryMirrors(f, Was(i, k));
    }
  }

  /**
   * The disk goes on mirroring the running manifest through exactly the operations that do not
   * diverge: every write done, every entry safe, no second source of env, the data directory found
   * again, no other app's file overwritten.
   */
  lemma StepMirrorsIff(f: State, op: Op)
    requires Mirrors(f)
    ensures Mirrors(Step(f, op)) <==> !Diverges(f, op)
  {
    match op
    case AddOp(spec, io) => AddMirrorsIff(f, spec, io);
    case EditOp(name, setEnv, unset, io) =>
      if EditAccepted(f, name, setEnv, unset) {
        EditMirrorsIff(f, name, setEnv, unset, io);
      }
    case RemoveOp(name, confirm, ok) =>
      if RemoveAccepted(f, name, confirm, ok) {
        StepKeepsDeclared(f, op);
        FileDropsOne(f, name);
        RemoveMirrors(f, Step(f, op), AppIndex(f.apps, name));
      }
  }

  ghost predicate AlwaysMirrors(f: State, ops: seq<Op>)
    decreases |ops|
  {
    Mirrors(f) && (ops == [] || AlwaysMirrors(Step(f, ops[0]), ops[1..]))
  }

  ghost predicate NeverDiverges(f: State, ops: seq<Op>)
    decreases |ops|
  {
    ops == [] || (f.file.Some? && |f.file.value| == |f.apps| && !Diverges(f, ops[0])
        && NeverDiverges(Step(f, ops[0]), ops[1..]))
  }

  /** A restart at any point of a run reloads the running values if and only if no operation diverges. */
  lemma {:induction false} MirrorsThroughoutIff(f: State, ops: seq<Op>)
    requires Mirrors(f)
    ensures AlwaysMirrors(f, ops) <==> NeverDiverges(f, ops)
    decreases |ops|
  {
    if ops != [] {
      StepMirrorsIff(f, ops[0]);
      if Mirrors(Step(f, ops[0])) {
        MirrorsThroughoutIff(Step(f, ops[0]), ops[1..]);
      } else {
        assert !AlwaysMirrors(Step(f, ops[0]), ops[1..]);
      }
    }
  }

  // A mirrored fleet restarts as it runs.

  lemma SameEnvsCredible(xs: seq<AppSpec>, ys: seq<AppSpec>, operatorKey: string)
    requires |xs| == |ys| && forall i :: 0 <= i < |xs| ==> xs[i].mergedEnv == ys[i].mergedEnv
    ensures Credentials(xs, operatorKey) ==> Credentials(ys, operatorKey)
  {
    if Credentials(xs, operatorKey) {
      forall i | 0 <= i < |ys| ensures Credible(ys, operatorKey, i) {
        assert Credible(xs, operatorKey, i);
      }
    }
  }

  lemma MirroredReloadsIffLoadable(f: State, stat: string -> bool)
    requires Mirrors(f)
    ensures Reloads(f, stat) <==> Loadable(f.apps, f.operatorKey, stat)
  {
    var disk := OnDisk(f);
    forall k | 0 <= k < |f.apps|
      ensures disk[k].mergedEnv == f.apps[k].mergedEnv && SameShape(disk[k], f.apps[k]) && SameShape(f.apps[k], disk[k])
    {
      assert EntryMirrors(f, k) && SameEntry(f.file.value[k], f.apps[k]);
    }
    LoadableIff(disk, f.operatorKey, stat);
    LoadableIff(f.apps, f.operatorKey, stat);
    SameShapes(disk, f.apps, stat);
    SameShapes(f.apps, disk, stat);
    SameEnvsCredible(disk, f.apps, f.operatorKey);
    SameEnvsCredible(f.apps, disk, f.operatorKey);
  }

  lemma AppendedCredentials(apps: seq<AppSpec>, a: AppSpec, operatorKey: string)
    requires Credentials(apps, operatorKey) && RequiredPresent(a.mergedEnv) && KeyApart(operatorKey, a.mergedEnv)
    requires SecretFree(apps, Secret(a))
    ensures Credentials(apps + [a], operatorKey)
  {
    var all := apps + [a];
    forall i | 0 <= i < |all| ensures Credible(all, operatorKey, i) {
      if i < |apps| {
        assert Credible(apps, operatorKey, i);
      }
    }
  }

  lemma ChangedCredentials(apps: seq<AppSpec>, i: nat, a: AppSpec, operatorKey: string)
    requires Credentials(apps, operatorKey) && i < |apps|
    requires RequiredPresent(a.mergedEnv) && KeyApart(operatorKey, a.mergedEnv)
    requires forall k :: 0 <= k < |apps| && k != i ==> Secret(apps[k]) != Secret(a)
    ensures Credentials(apps[i := a], operatorKey)
  {
    var now := apps[i := a];
    forall k | 0 <= k < |now| ensures Credible(now, operatorKey, k) {
      assert Credible(apps, operatorKey, k);
    }
  }

  lemma FewerCredentials(apps: seq<AppSpec>, i: nat, operatorKey: string)
    requires Credentials(apps, operatorKey) && i < |apps|
    ensures Credentials(Without(apps, i), operatorKey)
  {
    var rest := Without(apps, i);
    forall k | 0 <= k < |rest| ensures Credible(rest, operatorKey, k) {
      WithoutAt(apps, i, k);
      assert Credible(apps, operatorKey, Was(i, k));
      forall l | 0 <= l < |rest| && l != k ensures Secret(rest[l]) != Secret(rest[k]) {
        WithoutAt(apps, i, l);
      }
    }
  }

  /** The checks an operation makes keep the credentials of the running manifest sound. */
  lemma RunningCredentialsStaySound(f: State, op: Op)
    requires Declared(f) && Credentials(f.apps, f.operatorKey)
    ensures Credentials(Step(f, op).apps, f.operatorKey)
  {
    match op
    case AddOp(spec, io) =>
      if Add(f, spec, io).ok {
        AddSucceeds(f, spec, io);
        AppendedCredentials(f.apps, Added(f, spec, io), f.operatorKey);
      } else {
        AddFails(f, spec, io);
      }
    case EditOp(name, setEnv, unset, io) =>
      if EditAccepted(f, name, setEnv, unset) {
        EditChangesOneApp(f, name, setEnv, unset, io);
        var i := AppIndex(f.apps, name);
        ChangedCredentials(f.apps, i, Step(f, op).apps[i], f.operatorKey);
      }
    case RemoveOp(name, confirm, ok) =>
      if RemoveAccepted(f, name, confirm, ok) {
        FewerCredentials(f.apps, AppIndex(f.apps, name), f.operatorKey);
      }
  }

  /** While the disk mirrors the running manifest and the operation does not diverge, no credential is lost. */
  lemma MirroredLosesNothing(f: State, op: Op)
    requires Mirrors(f) && DiskSecretsSound(f) && !Diverges(f, op)
    ensures !LosesCredential(f, op)
  {
    var g := Step(f, op);
    StepMirrorsIff(f, op);
    StepLeaves(f, op);
    EnvsMirror(f);
    EnvsMirror(g);
    SameEnvsCredible(OnDisk(f), f.apps, f.operatorKey);
    RunningCredentialsStaySound(f, op);
    SameEnvsCredible(g.apps, OnDisk(g), f.operatorKey);
    CredentialsThenIff(f, op);
  }

  lemma EnvsMirror(f: State)
    requires Mirrors(f)
    ensures |OnDisk(f)| == |f.apps| && forall k :: 0 <= k < |f.apps| ==> OnDisk(f)[k].mergedEnv == f.apps[k].mergedEnv
  {
    forall k | 0 <= k < |f.apps| ensures OnDisk(f)[k].mergedEnv == f.apps[k].mergedEnv {
      assert EntryMirrors(f, k);
    }
  }

  // The compile of the next start.

  /** An accepted edit to an env that does not compile: the edit writes before it compiles. */
  ghost predicate EditsUnbuildable(f: State, op: Op, w: World) {
    && op.EditOp? && EditAccepted(f, op.name, op.setEnv, op.unset)
    && var i := AppIndex(f.apps, op.name);
    !Builds(w, f.apps[i].schema, NextEnv(f.apps[i].mergedEnv, op.setEnv, op.unset))
  }

  lemma AppendedBuilds(apps: seq<AppSpec>, a: AppSpec, w: World)
    requires AllBuild(apps, w)
    ensures AllBuild(apps + [a], w) <==> Builds(w, a.schema, a.mergedEnv)
  {
    assert (apps + [a])[|apps|] == a;
  }

  lemma ChangedBuilds(apps: seq<AppSpec>, i: nat, a: AppSpec, w: World)
    requires AllBuild(apps, w) && i < |apps|
    ensures AllBuild(apps[i := a], w) <==> Builds(w, a.schema, a.mergedEnv)
  {
    assert apps[i := a][i] == a;
  }

  lemma FewerBuild(apps: seq<AppSpec>, i: nat, w: World)
    requires AllBuild(apps, w) && i < |apps|
    ensures AllBuild(Without(apps, i), w)
  {
    forall k | 0 <= k < |apps| - 1
      ensures Builds(w, Without(apps, i)[k].schema, Without(apps, i)[k].mergedEnv)
    {
      WithoutAt(apps, i, k);
    }
  }

  /** The running manifest goes on compiling through every operation but such an edit. */
  lemma RunningBuildsIff(f: State, op: Op, w: World)
    requires AllBuild(f.apps, w) && (op.AddOp? ==> op.addIo.world == w)
    ensures AllBuild(Step(f, op).apps, w) <==> !EditsUnbuildable(f, op, w)
  {
    match op
    case AddOp(spec, io) =>
      if Add(f, spec, io).ok {
        AddSucceeds(f, spec, io);
        AppendedBuilds(f.apps, Added(f, spec, io), w);
      } else {
        AddFails(f, spec, io);
      }
    case EditOp(name, setEnv, unset, io) =>
      if EditAccepted(f, name, setEnv, unset) {
        EditChangesOneApp(f, name, setEnv, unset, io);
        var i := AppIndex(f.apps, name);
        ChangedBuilds(f.apps, i, Step(f, op).apps[i], w);
      }
    case RemoveOp(name, confirm, ok) =>
      if RemoveAccepted(f, name, confirm, ok) {
        FewerBuild(f.apps, AppIndex(f.apps, name), w);
      }
  }

  lemma MirroredBuilds(f: State, w: World)
    requires Mirrors(f)
    ensures AllBuild(OnDisk(f), w) <==> AllBuild(f.apps, w)
  {
    EnvsMirror(f);
    forall k | 0 <= k < |f.apps| ensures OnDisk(f)[k].schema == f.apps[k].schema {
      assert SameEntry(f.file.value[k], f.apps[k]);
    }
    if AllBuild(OnDisk(f), w) {
      forall k | 0 <= k < |f.apps| ensures Builds(w, f.apps[k].schema, f.apps[k].mergedEnv) {
        assert Builds(w, OnDisk(f)[k].schema, OnDisk(f)[k].mergedEnv);
      }
    }
  }

  /**
   * In a mirrored fleet, an operation that does not diverge leaves one the next start brings up
   * except exactly after a repeated host, after the removal of the only app, and after an accepted
   * edit to an env that does not compile.
   */
  lemma MirroredStepBootsIff(f: State, op: Op, w: World)
    requires Mirrors(f) && Boots(f, w) && !Diverges(f, op) && (op.AddOp? ==> op.addIo.world == w)
    ensures Mirrors(Step(f, op))
    ensures Boots(Step(f, op), w) <==>
              !AddsRepeatedHost(f, op) && !EmptiesFleet(f, op) && !EditsUnbuildable(f, op, w)
  {
    LoadableIff(OnDisk(f), f.operatorKey, w.stat);
    MirroredLosesNothing(f, op);
    StepMirrorsIff(f, op);
    StepReloadsIff(f, op, w.stat);
    MirroredBuilds(f, w);
    MirroredBuilds(Step(f, op), w);
    RunningBuildsIff(f, op, w);
  }

  /**
   * Whenever such an edit is written as it should be, the caller gets an error, the old instance
   * serves on, the disk mirrors the running manifest, the load passes, and no start comes up.
   */
  lemma UnbuildableEditStrands(f: State, name: string, setEnv: Env, unset: seq<string>, io: EditIo)
    requires Mirrors(f) && Boots(f, io.world) && EditsUnbuildable(f, EditOp(name, setEnv, unset, io), io.world)
    requires !EditDiverges(f, name, setEnv, unset, io)
    ensures var r := Edit(f, name, setEnv, unset, io);
            && !r.ok && r.fleet.panel == f.panel && r.fleet.table == f.table
            && Mirrors(r.fleet) && Reloads(r.fleet, io.world.stat) && !Boots(r.fleet, io.world)
  {
    var op := EditOp(name, setEnv, unset, io);
    MirroredStepBootsIff(f, op, io.world);
    LoadableIff(OnDisk(f), f.operatorKey, io.world.stat);
    MirroredLosesNothing(f, op);
    StepReloadsIff(f, op, io.world.stat);
    FailedEditLeaves(f, name, setEnv, unset, io);
  }

  /** In a fleet of one, an edit whose writes succeed does not diverge when its env is safe and found again. */
  lemma LoneEditDoesNotDiverge(f: State, name: string, setEnv: Env, unset: seq<string>, io: EditIo)
    requires f.file.Some? && |f.file.value| == |f.apps| == 1 && EditAccepted(f, name, setEnv, unset)
    requires EditPersists(f, name, io) && SamePlace(f.place, name)
    requires EnvFile.SafeEnv(NextEnv(f.apps[AppIndex(f.apps, name)].mergedEnv, setEnv, unset))
    ensures !EditDiverges(f, name, setEnv, unset, io)
  {
  }
}
