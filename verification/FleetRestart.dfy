/**
 * What the next fleet start makes of the manifest file and the env files an operation leaves. It
 * reads both again (`LoadManifest`); what the running process holds in memory is gone.
 */
module FleetRestart {
  import opened Text
  import opened Hosts
  import opened Manifest
  import opened Registry
  import opened Fleet
  import opened FleetRuns
  import EnvFile

  /** The apps as the next start resolves them. */
  function OnDisk(f: State): seq<AppSpec>
    requires f.file.Some?
  {
    ReloadAll(f.disk, f.place.dir, f.file.value)
  }

  /** The load of the next start accepts the fleet. */
  ghost predicate Reloads(f: State, stat: string -> bool) {
    f.file.Some? && Loadable(OnDisk(f), f.operatorKey, stat)
  }

  ghost predicate AllBuild(apps: seq<AppSpec>, w: World) {
    forall i :: 0 <= i < |apps| ==> Builds(w, apps[i].schema, apps[i].mergedEnv)
  }

  /** The next start comes up when databases and ports are there: the load accepts, and every app compiles. */
  ghost predicate Boots(f: State, w: World) {
    Reloads(f, w.stat) && AllBuild(OnDisk(f), w)
  }

  // The two halves of the load rules.

  /** The rules that do not look at the env. */
  ghost predicate ShapeOk(a: AppSpec, stat: string -> bool) {
    && NameOk(a.name) && a.schema != "" && stat(a.schema) && |a.domains| > 0
    && (forall d :: d in NormalAll(a.domains) ==> HostnameOk(d))
    && Distinct(NormalAll(a.domains))
  }

  ghost predicate ShapesApart(a: AppSpec, b: AppSpec) {
    a.name != b.name && Disjoint(NormalAll(a.domains), NormalAll(b.domains))
  }

  ghost predicate Shapes(apps: seq<AppSpec>, stat: string -> bool) {
    && |apps| > 0
    && (forall i :: 0 <= i < |apps| ==> ShapeOk(apps[i], stat))
    && forall i, j :: 0 <= i < |apps| && 0 <= j < |apps| && i != j ==> ShapesApart(apps[i], apps[j])
  }

  function Secret(a: AppSpec): string {
    Get(a.mergedEnv, JWT_SECRET)
  }

  /** The rules on the env of one app: its credentials, and a secret of its own. */
  ghost predicate Credible(apps: seq<AppSpec>, operatorKey: string, i: nat) {
    && i < |apps|
    && RequiredPresent(apps[i].mergedEnv) && KeyApart(operatorKey, apps[i].mergedEnv)
    && forall j :: 0 <= j < |apps| && j != i ==> Secret(apps[j]) != Secret(apps[i])
  }

  ghost predicate Credentials(apps: seq<AppSpec>, operatorKey: string) {
    forall i :: 0 <= i < |apps| ==> Credible(apps, operatorKey, i)
  }

  lemma LoadableIff(apps: seq<AppSpec>, operatorKey: string, stat: string -> bool)
    ensures Loadable(apps, operatorKey, stat) <==> Shapes(apps, stat) && Credentials(apps, operatorKey)
  {
    if Loadable(apps, operatorKey, stat) {
      forall i, j | 0 <= i < |apps| && 0 <= j < |apps| && i != j ensures Compatible(apps[i], apps[j]) {
        CompatibleEverywhere(apps, operatorKey, stat, i, j);
      }
      forall i | 0 <= i < |apps| ensures ShapeOk(apps[i], stat) && Credible(apps, operatorKey, i) {
        assert FitsAt(apps, stat, i);
      }
      forall i, j | 0 <= i < |apps| && 0 <= j < |apps| && i != j ensures ShapesApart(apps[i], apps[j]) {
        assert Compatible(apps[i], apps[j]);
      }
    }
    if Shapes(apps, stat) && Credentials(apps, operatorKey) {
      forall i | 0 <= i < |apps| ensures FitsAt(apps, stat, i) && KeyApart(operatorKey, apps[i].mergedEnv) {
        assert ShapeOk(apps[i], stat) && Credible(apps, operatorKey, i);
        forall k | 0 <= k < i ensures Compatible(apps[k], apps[i]) {
          assert ShapesApart(apps[k], apps[i]);
        }
      }
    }
  }

  lemma CompatibleEverywhere(apps: seq<AppSpec>, operatorKey: string, stat: string -> bool, i: nat, j: nat)
    requires Loadable(apps, operatorKey, stat) && i < |apps| && j < |apps| && i != j
    ensures Compatible(apps[i], apps[j])
  {
    if i < j {
      assert FitsAt(apps, stat, j);
    } else {
      assert FitsAt(apps, stat, i) && Compatible(apps[j], apps[i]);
    }
  }

  // What the file declares.

  ghost predicate DomainsNormal(apps: seq<AppSpec>) {
    forall i :: 0 <= i < |apps| ==> NormalAll(apps[i].domains) == apps[i].domains
  }

  ghost predicate NamesDiffer(apps: seq<AppSpec>) {
    forall i, j :: 0 <= i < |apps| && 0 <= j < |apps| && i != j ==> apps[i].name != apps[j].name
  }

  /** The file declares the running apps, each once, by name, schema and hosts. */
  ghost predicate Declared(f: State) {
    && f.file.Some? && FileMatches(f)
    && DomainsNormal(f.apps) && NamesDiffer(f.apps)
  }

  lemma DeclaredIndex(f: State, name: string)
    requires Declared(f)
    ensures AppIndex(f.file.value, name) == AppIndex(f.apps, name)
  {
    assert forall k :: 0 <= k < |f.apps| ==> SameEntry(f.file.value[k], f.apps[k]);
  }

  /** The entries an operation leaves in the file. */
  ghost function FileThen(f: State, op: Op): seq<AppSpec>
    requires f.file.Some?
  {
    match op
    case AddOp(spec, io) =>
      if Add(f, spec, io).ok then (AddSucceeds(f, spec, io); f.file.value + [Added(f, spec, io)]) else f.file.value
    case EditOp(name, setEnv, unset, io) =>
      if EditAccepted(f, name, setEnv, unset) && EditPersists(f, name, io) then
        var i := AppIndex(f.apps, name);
        FileReplaced(f.file, name, Edited(f, i, NextEnv(f.apps[i].mergedEnv, setEnv, unset))).value
      else f.file.value
    case RemoveOp(name, confirm, ok) =>
      if RemoveAccepted(f, name, confirm, ok) then DropNamed(f.file.value, name) else f.file.value
  }

  /** The env files it leaves. */
  ghost function DiskThen(f: State, op: Op): Disk {
    match op
    case AddOp(spec, io) => AddDisk(f, spec, io)
    case EditOp(name, setEnv, unset, io) =>
      if EditAccepted(f, name, setEnv, unset)
      then WroteEnv(f, name, NextEnv(f.apps[AppIndex(f.apps, name)].mergedEnv, setEnv, unset), io.envWrite) else f.disk
    case RemoveOp(_, _, _) => f.disk
  }

  lemma AddLeaves(f: State, spec: AppSpec, io: AddIo)
    requires f.file.Some?
    ensures var g := Add(f, spec, io).fleet;
            && g.file == Some(FileThen(f, AddOp(spec, io))) && g.disk == AddDisk(f, spec, io)
            && g.place == f.place && g.operatorKey == f.operatorKey
  {
    if Add(f, spec, io).ok {
      AddSucceeds(f, spec, io);
    } else {
      AddFails(f, spec, io);
    }
    AddLeavesDisk(f, spec, io);
  }

  lemma AddLeavesDisk(f: State, spec: AppSpec, io: AddIo)
    ensures Add(f, spec, io).fleet.disk == AddDisk(f, spec, io)
  {
  }

  lemma EditLeaves(f: State, name: string, setEnv: Env, unset: seq<string>, io: EditIo)
    requires f.file.Some?
    ensures var op, g := EditOp(name, setEnv, unset, io), Edit(f, name, setEnv, unset, io).fleet;
            && g.file == Some(FileThen(f, op)) && g.disk == DiskThen(f, op)
            && g.place == f.place && g.operatorKey == f.operatorKey
  {
    if EditAccepted(f, name, setEnv, unset) {
      var i := AppIndex(f.apps, name);
      var next := NextEnv(f.apps[i].mergedEnv, setEnv, unset);
      var h := EditWritten(f, i, next, io);
      assert h.place == f.place && h.operatorKey == f.operatorKey && h.disk == WroteEnv(f, name, next, io.envWrite);
    }
  }

  lemma StepLeaves(f: State, op: Op)
    requires f.file.Some?
    ensures var g := Step(f, op);
            && g.file == Some(FileThen(f, op)) && g.disk == DiskThen(f, op)
            && g.place == f.place && g.operatorKey == f.operatorKey
  {
    match op
    case AddOp(spec, io) => AddLeaves(f, spec, io);
    case EditOp(name, setEnv, unset, io) => EditLeaves(f, name, setEnv, unset, io);
    case RemoveOp(_, _, _) =>
  }

  // Names, schemas and hosts.

  /** A successful add whose own domains repeat a host. */
  ghost predicate AddsRepeatedHost(f: State, op: Op) {
    op.AddOp? && Add(f, op.spec, op.addIo).ok && !Distinct(NormalAll(op.spec.domains))
  }

  /** A removal of the only app. */
  predicate EmptiesFleet(f: State, op: Op) {
    op.RemoveOp? && RemoveAccepted(f, op.name, op.confirm, op.manifestOk) && |f.apps| == 1
  }

  ghost predicate SameShape(a: AppSpec, b: AppSpec) {
    a.name == b.name && a.schema == b.schema && NormalAll(a.domains) == NormalAll(b.domains)
  }

  lemma SameShapes(xs: seq<AppSpec>, ys: seq<AppSpec>, stat: string -> bool)
    requires |xs| == |ys| && forall i :: 0 <= i < |xs| ==> SameShape(xs[i], ys[i])
    ensures Shapes(xs, stat) ==> Shapes(ys, stat)
  {
    if Shapes(xs, stat) {
      forall i | 0 <= i < |ys| ensures ShapeOk(ys[i], stat) {
        assert ShapeOk(xs[i], stat) && SameShape(xs[i], ys[i]);
        assert |ys[i].domains| == |NormalAll(ys[i].domains)|;
      }
      forall i, j | 0 <= i < |ys| && 0 <= j < |ys| && i != j ensures ShapesApart(ys[i], ys[j]) {
        assert ShapesApart(xs[i], xs[j]) && SameShape(xs[i], ys[i]) && SameShape(xs[j], ys[j]);
      }
    }
  }

  lemma ReloadKeepsShape(disk: Disk, base: string, e: AppSpec)
    ensures SameShape(e, Reload(disk, base, e))
  {
    NormalAllIdempotent(e.domains);
  }

  /** The entries of the file and the apps read from them have the same shapes. */
  lemma OnDiskShapes(disk: Disk, base: string, es: seq<AppSpec>, stat: string -> bool)
    ensures Shapes(ReloadAll(disk, base, es), stat) <==> Shapes(es, stat)
  {
    var apps := ReloadAll(disk, base, es);
    forall i | 0 <= i < |es| ensures SameShape(es[i], apps[i]) && SameShape(apps[i], es[i]) {
      ReloadKeepsShape(disk, base, es[i]);
    }
    SameShapes(es, apps, stat);
    SameShapes(apps, es, stat);
  }

  lemma AppendedShapesIff(es: seq<AppSpec>, a: AppSpec, stat: string -> bool)
    requires Shapes(es, stat)
    requires forall i :: 0 <= i < |es| ==> ShapesApart(es[i], a) && ShapesApart(a, es[i])
    ensures Shapes(es + [a], stat) <==> ShapeOk(a, stat)
  {
    var all, n := es + [a], |es|;
    assert all[n] == a;
    if ShapeOk(a, stat) {
      forall i, j | 0 <= i < |all| && 0 <= j < |all| && i != j ensures ShapesApart(all[i], all[j]) {
        if i < n && j < n {
          assert ShapesApart(es[i], es[j]);
        }
      }
    }
  }

  lemma NewShapeApart(f: State, a: AppSpec, i: nat)
    requires Declared(f) && i < |f.apps| && NameFree(f.apps, a.name) && DomainsFree(f.apps, NormalAll(a.domains))
    ensures ShapesApart(f.file.value[i], a) && ShapesApart(a, f.file.value[i])
  {
    assert SameEntry(f.file.value[i], f.apps[i]);
    assert Disjoint(f.apps[i].domains, NormalAll(a.domains));
  }

  lemma AddedShapesIff(f: State, spec: AppSpec, io: AddIo, stat: string -> bool)
    requires Declared(f) && Shapes(f.file.value, stat) && Add(f, spec, io).ok && io.world.stat == stat
    ensures Shapes(FileThen(f, AddOp(spec, io)), stat) <==> Distinct(NormalAll(spec.domains))
  {
    AddSucceeds(f, spec, io);
    NormalAllIdempotent(spec.domains);
    var a := Added(f, spec, io);
    forall i | 0 <= i < |f.apps| ensures ShapesApart(f.file.value[i], a) && ShapesApart(a, f.file.value[i]) {
      NewShapeApart(f, a, i);
    }
    AppendedShapesIff(f.file.value, a, stat);
  }

  lemma RemovedShapesIff(es: seq<AppSpec>, i: nat, stat: string -> bool)
    requires Shapes(es, stat) && i < |es|
    ensures Shapes(Without(es, i), stat) <==> |es| > 1
  {
    var rest := Without(es, i);
    if |es| > 1 {
      forall k | 0 <= k < |rest| ensures ShapeOk(rest[k], stat) {
        WithoutAt(es, i, k);
      }
      forall k, l | 0 <= k < |rest| && 0 <= l < |rest| && k != l ensures ShapesApart(rest[k], rest[l]) {
        WithoutAt(es, i, k);
        WithoutAt(es, i, l);
        assert ShapesApart(es[Was(i, k)], es[Was(i, l)]);
      }
    }
  }

  lemma FileDropsOne(f: State, name: string)
    requires Declared(f) && AppIndex(f.apps, name) >= 0
    ensures DropNamed(f.file.value, name) == Without(f.file.value, AppIndex(f.apps, name))
  {
    var i, es := AppIndex(f.apps, name), f.file.value;
    forall k | 0 <= k < |es| ensures SameEntry(es[k], f.apps[k]) {
    }
    DropNamedOnce(es, i);
  }

  lemma EditedShapes(f: State, name: string, next: Env, stat: string -> bool)
    requires Declared(f) && Shapes(f.file.value, stat) && AppIndex(f.apps, name) >= 0
    ensures var i := AppIndex(f.apps, name);
            && AppIndex(f.file.value, name) == i
            && Shapes(f.file.value[i := Edited(f, i, next)], stat)
  {
    DeclaredIndex(f, name);
    var i, es := AppIndex(f.apps, name), f.file.value;
    var now := es[i := Edited(f, i, next)];
    forall k | 0 <= k < |es| ensures SameShape(es[k], now[k]) {
      assert SameEntry(es[k], f.apps[k]);
    }
    SameShapes(es, now, stat);
  }

  /** Names, schemas and hosts stay loadable except after a repeated host and after the only app. */
  lemma ShapesThenIff(f: State, op: Op, stat: string -> bool)
    requires Declared(f) && Shapes(f.file.value, stat) && (op.AddOp? ==> op.addIo.world.stat == stat)
    ensures Shapes(FileThen(f, op), stat) <==> !AddsRepeatedHost(f, op) && !EmptiesFleet(f, op)
  {
    match op
    case AddOp(spec, io) =>
      if Add(f, spec, io).ok {
        AddedShapesIff(f, spec, io, stat);
      }
    case EditOp(name, setEnv, unset, io) =>
      if EditAccepted(f, name, setEnv, unset) && EditPersists(f, name, io) {
        EditedShapes(f, name, NextEnv(f.apps[AppIndex(f.apps, name)].mergedEnv, setEnv, unset), stat);
      }
    case RemoveOp(name, confirm, ok) =>
      if RemoveAccepted(f, name, confirm, ok) {
        FileDropsOne(f, name);
        RemovedShapesIff(f.file.value, AppIndex(f.apps, name), stat);
      }
  }

  // Credentials.

  /** The content an env file has after a write that was not refused. */
  ghost function Left(place: Place, env: Env, w: EnvWrite): string
    requires !w.Refused?
  {
    if w.Wrote? then EnvFile.TextOf(place.header, env) else w.left
  }

  datatype Written = Written(path: string, text: string)

  /** The env file an operation writes, or leaves torn, and its content. */
  ghost function WrittenFile(f: State, op: Op): Option<Written> {
    match op
    case AddOp(spec, io) =>
      if AddWrites(f, spec, io) && !io.envWrite.Refused?
      then Some(Written(WritesTo(f.place, spec.name), Left(f.place, Planned(spec, io).env, io.envWrite))) else None
    case EditOp(name, setEnv, unset, io) =>
      if EditAccepted(f, name, setEnv, unset) && !io.envWrite.Refused? then
        var next := NextEnv(f.apps[AppIndex(f.apps, name)].mergedEnv, setEnv, unset);
        Some(Written(WritesTo(f.place, name), Left(f.place, next, io.envWrite)))
      else None
    case RemoveOp(_, _, _) => None
  }

  /** The env an entry gets from a file with this content. */
  function EnvFrom(text: string, e: AppSpec): Option<Env> {
    match EnvFile.Parse(text)
    case None => None
    case Some(m) => Some(m + e.env)
  }

  /** The entry takes its env from the file at `path`. */
  predicate Reads(place: Place, e: AppSpec, path: string) {
    e.envFile != "" && At(place.dir, e.envFile) == path
  }

  ghost predicate ReadsWritten(f: State, op: Op, e: AppSpec) {
    WrittenFile(f, op).Some? && Reads(f.place, e, WrittenFile(f, op).value.path)
  }

  /**
   * The env the next start will read for an entry: from the text the operation writes, if the entry
   * reads that file, and from the disk as it is now otherwise; empty when it cannot be read.
   */
  ghost function Reread(f: State, op: Op, e: AppSpec): Env {
    var env := if ReadsWritten(f, op, e) then EnvFrom(WrittenFile(f, op).value.text, e)
        else DiskEnv(f.disk, f.place.dir, e);
    if env.Some? then env.value else map[]
  }

  /** Entry `k` of the new file is the one the operation declared. */
  ghost predicate Declares(f: State, op: Op, k: nat)
    requires f.file.Some?
  {
    match op
    case AddOp(spec, io) => Add(f, spec, io).ok && k == |f.file.value|
    case EditOp(name, setEnv, unset, io) =>
      EditAccepted(f, name, setEnv, unset) && EditPersists(f, name, io) && k == AppIndex(f.apps, name)
    case RemoveOp(_, _, _) => false
  }

  /** The env of entry `k` of the new file can differ from before. */
  ghost predicate Touched(f: State, op: Op, k: nat)
    requires f.file.Some?
  {
    && k < |FileThen(f, op)|
    && (Declares(f, op, k) || ReadsWritten(f, op, FileThen(f, op)[k]))
  }

  /** The apps as the next start will read them, from what the operation declares and writes. */
  ghost function Then(f: State, op: Op): seq<AppSpec>
    requires f.file.Some?
  {
    ReloadAll(DiskThen(f, op), f.place.dir, FileThen(f, op))
  }

  /** Entry `k` will be read without a credential, with the operator key, or with the secret of another entry. */
  ghost predicate Discredited(f: State, op: Op, k: nat)
    requires f.file.Some? && k < |FileThen(f, op)|
  {
    var es := FileThen(f, op);
    var env := Reread(f, op, es[k]);
    || !RequiredPresent(env) || !KeyApart(f.operatorKey, env)
    || exists l :: 0 <= l < |es| && l != k && Get(Reread(f, op, es[l]), JWT_SECRET) == Get(env, JWT_SECRET)
  }

  /** That happens to an entry the operation declared, or that reads the env file it wrote. */
  ghost predicate LosesCredential(f: State, op: Op)
    requires f.file.Some?
  {
    exists k: nat :: Touched(f, op, k) && Discredited(f, op, k)
  }

  /** Such an entry will be read with an env that does not compile. */
  ghost predicate LosesBuild(f: State, op: Op, w: World)
    requires f.file.Some?
  {
    exists k: nat :: Touched(f, op, k) && !Builds(w, FileThen(f, op)[k].schema, Reread(f, op, FileThen(f, op)[k]))
  }

  /** Where entry `k` of the new file stood before. */
  ghost function Stood(f: State, op: Op, k: nat): nat {
    if op.RemoveOp? && RemoveAccepted(f, op.name, op.confirm, op.manifestOk) then Was(AppIndex(f.apps, op.name), k)
        else k
  }

  lemma EntryAfterWrite(disk: Disk, place: Place, e: AppSpec, path: string, text: string)
    ensures DiskEnv(disk[path := text], place.dir, e) ==
            if Reads(place, e, path) then EnvFrom(text, e) else DiskEnv(disk, place.dir, e)
  {
  }

  lemma WroteIsLeft(f: State, name: string, env: Env, w: EnvWrite)
    ensures WroteEnv(f, name, env, w) ==
            if w.Refused? then f.disk else f.disk[WritesTo(f.place, name) := Left(f.place, env, w)]
  {
  }

  /** An operation changes no file but the one it writes. */
  lemma DiskThenIs(f: State, op: Op)
    ensures DiskThen(f, op) ==
            if WrittenFile(f, op).None? then f.disk
            else f.disk[WrittenFile(f, op).value.path := WrittenFile(f, op).value.text]
  {
    match op
    case AddOp(spec, io) =>
      if AddWrites(f, spec, io) {
        WroteIsLeft(f, spec.name, Planned(spec, io).env, io.envWrite);
      }
    case EditOp(name, setEnv, unset, io) =>
      if EditAccepted(f, name, setEnv, unset) {
        WroteIsLeft(f, name, NextEnv(f.apps[AppIndex(f.apps, name)].mergedEnv, setEnv, unset), io.envWrite);
      }
    case RemoveOp(_, _, _) =>
  }

  /** What the next start reads is what the state before the operation foretells. */
  lemma RereadForetells(f: State, op: Op, e: AppSpec)
    ensures Reload(DiskThen(f, op), f.place.dir, e).mergedEnv == Reread(f, op, e)
  {
    DiskThenIs(f, op);
    if WrittenFile(f, op).Some? {
      EntryAfterWrite(f.disk, f.place, e, WrittenFile(f, op).value.path, WrittenFile(f, op).value.text);
    }
  }

  lemma DiscreditedIff(f: State, op: Op, k: nat)
    requires f.file.Some? && k < |FileThen(f, op)|
    ensures Discredited(f, op, k) <==> !Credible(Then(f, op), f.operatorKey, k)
  {
    var es, apps := FileThen(f, op), Then(f, op);
    forall l | 0 <= l < |es| ensures apps[l].mergedEnv == Reread(f, op, es[l]) {
      RereadForetells(f, op, es[l]);
    }
  }

  lemma UndeclaredEntryStood(f: State, op: Op, k: nat)
    requires Declared(f) && k < |FileThen(f, op)| && !Declares(f, op, k)
    ensures Stood(f, op, k) < |f.file.value| && FileThen(f, op)[k] == f.file.value[Stood(f, op, k)]
  {
    match op
    case AddOp(_, _) =>
    case EditOp(name, _, _, _) => DeclaredIndex(f, name);
    case RemoveOp(name, confirm, ok) =>
      if RemoveAccepted(f, name, confirm, ok) {
        FileDropsOne(f, name);
        WithoutAt(f.file.value, AppIndex(f.apps, name), k);
      }
  }

  /** An entry the operation did not touch reads as before. */
  lemma UntouchedReadsAsBefore(f: State, op: Op, k: nat)
    requires Declared(f) && k < |FileThen(f, op)| && !Touched(f, op, k)
    ensures Stood(f, op, k) < |f.file.value| && Then(f, op)[k] == OnDisk(f)[Stood(f, op, k)]
  {
    UndeclaredEntryStood(f, op, k);
    RereadForetells(f, op, FileThen(f, op)[k]);
  }

  lemma StoodApart(f: State, op: Op, k: nat, l: nat)
    requires k != l
    ensures Stood(f, op, k) != Stood(f, op, l)
  {
  }

  lemma UntouchedIsCredible(f: State, op: Op, k: nat)
    requires Declared(f) && Credentials(OnDisk(f), f.operatorKey) && !LosesCredential(f, op)
    requires k < |FileThen(f, op)| && !Touched(f, op, k)
    ensures Credible(Then(f, op), f.operatorKey, k)
  {
    UntouchedReadsAsBefore(f, op, k);
    var was := Stood(f, op, k);
    assert Credible(OnDisk(f), f.operatorKey, was);
    forall l | 0 <= l < |Then(f, op)| && l != k ensures Secret(Then(f, op)[l]) != Secret(Then(f, op)[k]) {
      if Touched(f, op, l) {
        DiscreditedIff(f, op, l);
      } else {
        UntouchedReadsAsBefore(f, op, l);
        StoodApart(f, op, k, l);
      }
    }
  }

  /** Credentials on disk stay sound through exactly the operations that lose none. */
  lemma CredentialsThenIff(f: State, op: Op)
    requires Declared(f) && Credentials(OnDisk(f), f.operatorKey)
    ensures Credentials(Then(f, op), f.operatorKey) <==> !LosesCredential(f, op)
  {
    if !LosesCredential(f, op) {
      forall k | 0 <= k < |Then(f, op)| ensures Credible(Then(f, op), f.operatorKey, k) {
        DiscreditedIff(f, op, k);
        if !Touched(f, op, k) {
          UntouchedIsCredible(f, op, k);
        }
      }
    } else {
      var k: nat :| Touched(f, op, k) && Discredited(f, op, k);
      DiscreditedIff(f, op, k);
      assert k < |Then(f, op)|;
    }
  }

  /** Every app on disk goes on compiling through exactly the operations that lose no build. */
  lemma BuildsThenIff(f: State, op: Op, w: World)
    requires Declared(f) && AllBuild(OnDisk(f), w)
    ensures AllBuild(Then(f, op), w) <==> !LosesBuild(f, op, w)
  {
    var es, apps := FileThen(f, op), Then(f, op);
    forall k | 0 <= k < |es| ensures apps[k].mergedEnv == Reread(f, op, es[k]) && apps[k].schema == es[k].schema {
      RereadForetells(f, op, es[k]);
    }
    if !LosesBuild(f, op, w) {
      forall k | 0 <= k < |apps| ensures Builds(w, apps[k].schema, apps[k].mergedEnv) {
        if !Touched(f, op, k) {
          UntouchedReadsAsBefore(f, op, k);
        }
      }
    } else {
      var k: nat :| Touched(f, op, k) && !Builds(w, es[k].schema, Reread(f, op, es[k]));
      assert !Builds(w, apps[k].schema, apps[k].mergedEnv);
    }
  }

  lemma AppendKeepsDeclared(f: State, g: State, a: AppSpec)
    requires Declared(f) && NameFree(f.apps, a.name) && NormalAll(a.domains) == a.domains
    requires g.apps == f.apps + [a] && g.file == Some(f.file.value + [a])
    ensures Declared(g)
  {
    forall k | 0 <= k < |g.apps| ensures SameEntry(g.file.value[k], g.apps[k]) {
      assert k < |f.apps| ==> SameEntry(f.file.value[k], f.apps[k]);
    }
  }

  /** New envs, in the running apps and in the file or not, change no declaration. */
  lemma EnvChangeKeepsDeclared(f: State, g: State)
    requires Declared(f) && g.file.Some?
    requires |g.apps| == |f.apps| && forall k :: 0 <= k < |f.apps| ==> SameEntry(g.apps[k], f.apps[k])
    requires |g.file.value| == |f.apps| && forall k :: 0 <= k < |f.apps| ==> SameEntry(g.file.value[k], f.apps[k])
    ensures Declared(g)
  {
    forall k | 0 <= k < |f.apps| ensures g.apps[k].name == f.apps[k].name && g.apps[k].domains == f.apps[k].domains {
      assert SameEntry(g.apps[k], f.apps[k]);
    }
    forall k | 0 <= k < |f.apps| ensures SameEntry(g.file.value[k], g.apps[k]) {
      assert SameEntry(g.apps[k], f.apps[k]);
    }
  }

  lemma EditKeepsDeclared(f: State, name: string, setEnv: Env, unset: seq<string>, io: EditIo)
    requires Declared(f) && EditAccepted(f, name, setEnv, unset)
    ensures Declared(Edit(f, name, setEnv, unset, io).fleet)
  {
    var op := EditOp(name, setEnv, unset, io);
    DeclaredIndex(f, name);
    EditChangesOneApp(f, name, setEnv, unset, io);
    StepLeaves(f, op);
    var g := Edit(f, name, setEnv, unset, io).fleet;
    forall k | 0 <= k < |f.apps| ensures SameEntry(g.apps[k], f.apps[k]) {
    }
    forall k | 0 <= k < |f.apps| ensures SameEntry(g.file.value[k], f.apps[k]) {
      assert SameEntry(f.file.value[k], f.apps[k]);
    }
    EnvChangeKeepsDeclared(f, g);
  }

  /** The file keeps declaring the running apps. */
  lemma StepKeepsDeclared(f: State, op: Op)
    requires Declared(f)
    ensures Declared(Step(f, op))
  {
    match op
    case AddOp(spec, io) =>
      if Add(f, spec, io).ok {
        AddSucceeds(f, spec, io);
        NormalAllIdempotent(spec.domains);
        AppendKeepsDeclared(f, Step(f, op), Added(f, spec, io));
      } else {
        AddFails(f, spec, io);
        SameDeclarations(f, Step(f, op));
      }
    case EditOp(name, setEnv, unset, io) =>
      if EditAccepted(f, name, setEnv, unset) {
        EditKeepsDeclared(f, name, setEnv, unset, io);
      }
    case RemoveOp(name, confirm, ok) =>
      if RemoveAccepted(f, name, confirm, ok) {
        RemoveKeepsDeclared(f, AppIndex(f.apps, name), Step(f, op));
      }
  }

  lemma SameDeclarations(f: State, g: State)
    requires Declared(f) && g.apps == f.apps && g.file == f.file
    ensures Declared(g)
  {
  }

  lemma RemoveKeepsDeclared(f: State, i: nat, g: State)
    requires Declared(f) && i < |f.apps| && AppIndex(f.apps, f.apps[i].name) == i
    requires g.apps == Without(f.apps, i) && g.file == Some(DropNamed(f.file.value, f.apps[i].name))
    ensures Declared(g)
  {
    FileDropsOne(f, f.apps[i].name);
    forall k | 0 <= k < |g.apps|
      ensures SameEntry(g.file.value[k], g.apps[k]) && NormalAll(g.apps[k].domains) == g.apps[k].domains
    {
      WithoutAt(f.apps, i, k);
      WithoutAt(f.file.value, i, k);
      assert SameEntry(f.file.value[Was(i, k)], f.apps[Was(i, k)]);
    }
    forall k, l | 0 <= k < |g.apps| && 0 <= l < |g.apps| && k != l ensures g.apps[k].name != g.apps[l].name {
      WithoutAt(f.apps, i, k);
      WithoutAt(f.apps, i, l);
    }
  }

  /**
   * The load of the next start accepts what an operation leaves on disk except exactly when it adds
   * an app that repeats a host, removes the only app, or loses a credential.
   */
  lemma StepReloadsIff(f: State, op: Op, stat: string -> bool)
    requires Declared(f) && Reloads(f, stat) && (op.AddOp? ==> op.addIo.world.stat == stat)
    ensures Reloads(Step(f, op), stat) <==>
              !AddsRepeatedHost(f, op) && !EmptiesFleet(f, op) && !LosesCredential(f, op)
  {
    StepLeaves(f, op);
    LoadableIff(OnDisk(f), f.operatorKey, stat);
    LoadableIff(Then(f, op), f.operatorKey, stat);
    OnDiskShapes(f.disk, f.place.dir, f.file.value, stat);
    OnDiskShapes(DiskThen(f, op), f.place.dir, FileThen(f, op), stat);
    ShapesThenIff(f, op, stat);
    CredentialsThenIff(f, op);
  }

  /** What strands a fleet: no start brings it up again. */
  ghost predicate Strands(f: State, op: Op, w: World)
    requires f.file.Some?
  {
    AddsRepeatedHost(f, op) || EmptiesFleet(f, op) || LosesCredential(f, op) || LosesBuild(f, op, w)
  }

  /**
   * The next start comes up on what an operation leaves on disk except exactly when it adds an app
   * that repeats a host, removes the only app, or declares or overwrites an env that reads back
   * without its credentials or does not compile.
   */
  lemma StepBootsIff(f: State, op: Op, w: World)
    requires Declared(f) && Boots(f, w) && (op.AddOp? ==> op.addIo.world.stat == w.stat)
    ensures Boots(Step(f, op), w) <==> !Strands(f, op, w)
  {
    StepLeaves(f, op);
    StepReloadsIff(f, op, w.stat);
    BuildsThenIff(f, op, w);
  }

  ghost predicate AlwaysBoots(f: State, ops: seq<Op>, w: World)
    decreases |ops|
  {
    Boots(f, w) && (ops == [] || AlwaysBoots(Step(f, ops[0]), ops[1..], w))
  }

  ghost predicate NeverStrands(f: State, ops: seq<Op>, w: World)
    decreases |ops|
  {
    ops == [] || (f.file.Some? && !Strands(f, ops[0], w) && NeverStrands(Step(f, ops[0]), ops[1..], w))
  }

  /** A fleet can be started again throughout a run if and only if no operation of it strands it. */
  lemma {:induction false} BootableThroughoutIff(f: State, ops: seq<Op>, w: World)
    requires Declared(f) && Boots(f, w)
    requires forall i :: 0 <= i < |ops| && ops[i].AddOp? ==> ops[i].addIo.world.stat == w.stat
    ensures AlwaysBoots(f, ops, w) <==> NeverStrands(f, ops, w)
    decreases |ops|
  {
    if ops != [] {
      StepBootsIff(f, ops[0], w);
      StepKeepsDeclared(f, ops[0]);
      if Boots(Step(f, ops[0]), w) {
        BootableThroughoutIff(Step(f, ops[0]), ops[1..], w);
      } else {
        assert !AlwaysBoots(Step(f, ops[0]), ops[1..], w);
      }
    }
  }

  // Secrets on disk.

  /** Every entry of the file has its credentials and a JWT secret of its own. */
  ghost predicate DiskSecretsSound(f: State) {
    f.file.Some? && Credentials(OnDisk(f), f.operatorKey)
  }

  ghost predicate NeverLoses(f: State, ops: seq<Op>)
    decreases |ops|
  {
    ops == [] || (f.file.Some? && !LosesCredential(f, ops[0]) && NeverLoses(Step(f, ops[0]), ops[1..]))
  }

  ghost predicate AlwaysSound(f: State, ops: seq<Op>)
    decreases |ops|
  {
    DiskSecretsSound(f) && (ops == [] || AlwaysSound(Step(f, ops[0]), ops[1..]))
  }

  /** On disk, secrets are present and separate throughout a run if and only if no operation loses one. */
  lemma {:induction false} DiskSecretsThroughoutIff(f: State, ops: seq<Op>)
    requires Declared(f) && DiskSecretsSound(f)
    ensures AlwaysSound(f, ops) <==> NeverLoses(f, ops)
    decreases |ops|
  {
    if ops != [] {
      StepLeaves(f, ops[0]);
      CredentialsThenIff(f, ops[0]);
      StepKeepsDeclared(f, ops[0]);
      if DiskSecretsSound(Step(f, ops[0])) {
        DiskSecretsThroughoutIff(Step(f, ops[0]), ops[1..]);
      } else {
        assert !AlwaysSound(Step(f, ops[0]), ops[1..]);
      }
    }
  }
}
