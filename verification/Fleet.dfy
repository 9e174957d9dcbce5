/** What `fleetLifecycle.AddApp`, `EditApp` and `RemoveApp` (multiapp.go) do to the fleet, as values. */
module Fleet {
  import opened Text
  import opened Hosts
  import opened Manifest
  import opened Registry
  import EnvFile

  /** One row of the panel: the live instance of an app and the env it was compiled with. */
  datatype PanelApp = PanelApp(name: string, domains: seq<string>, instance: nat, env: Env)

  /**
   * The manifest's directory, the process's working directory, the fleet's data directory as the
   * manifest spells it, and the comment that heads a generated env file.
   */
  datatype Place = Place(dir: string, cwd: string, dataDir: string, header: EnvFile.Comment)

  /**
   * The four states a lifecycle operation keeps together: `mf.Apps`, the manifest file (None when
   * the manifest was built in code), the registry table and the panel list; and the env files on
   * disk, from which a fleet start resolves the env of each entry again. `envs` is the env each
   * instance was compiled with.
   */
  datatype State = State(
    apps: seq<AppSpec>,
    file: Option<seq<AppSpec>>,
    table: Table,
    panel: seq<PanelApp>,
    databases: set<string>,
    nextInstance: nat,
    envs: map<nat, Env>,
    operatorKey: string,
    place: Place,
    disk: Disk)

  /** The path a generated env file gets in the manifest. */
  function EnvPath(place: Place, name: string): string {
    place.dataDir + "/" + name + "/" + name + ".env"
  }

  /** Where the process writes it, and where the next start looks for it. */
  function WritesTo(place: Place, name: string): string {
    At(place.cwd, EnvPath(place, name))
  }

  function ReadsFrom(place: Place, name: string): string {
    At(place.dir, EnvPath(place, name))
  }

  /** A write of the env file: done, refused without effect, or broken off with some content left. */
  datatype EnvWrite = Wrote | Refused | Torn(left: string)

  /** The disk after `writeAppEnvFile`. */
  ghost function WroteEnv(f: State, name: string, env: Env, w: EnvWrite): Disk {
    match w
    case Wrote => f.disk[WritesTo(f.place, name) := EnvFile.TextOf(f.place.header, env)]
    case Refused => f.disk
    case Torn(left) => f.disk[WritesTo(f.place, name) := left]
  }

  /** Where a running fleet looks up a relative env file. */
  function Base(f: State): string {
    if f.file.Some? then f.place.dir else f.place.cwd
  }

  function AppIndex(apps: seq<AppSpec>, name: string): (i: int)
    ensures -1 <= i < |apps|
    ensures i >= 0 ==> apps[i].name == name && forall k :: 0 <= k < i ==> apps[k].name != name
    ensures i < 0 ==> NameFree(apps, name)
  {
    if apps == [] then -1
    else
      var i := AppIndex(apps[..|apps| - 1], name);
      if i >= 0 then i
      else if apps[|apps| - 1].name == name then |apps| - 1
      else -1
  }

  function PanelIndex(panel: seq<PanelApp>, name: string): (i: int)
    ensures -1 <= i < |panel|
    ensures i >= 0 ==> panel[i].name == name && forall k :: 0 <= k < i ==> panel[k].name != name
    ensures i < 0 ==> forall k :: 0 <= k < |panel| ==> panel[k].name != name
  {
    if panel == [] then -1
    else
      var i := PanelIndex(panel[..|panel| - 1], name);
      if i >= 0 then i
      else if panel[|panel| - 1].name == name then |panel| - 1
      else -1
  }

  function Without<T>(s: seq<T>, i: nat): seq<T>
    requires i < |s|
  {
    s[..i] + s[i + 1..]
  }

  /** `removeApp` of the panel: the first row of that name goes. */
  function PanelRemove(panel: seq<PanelApp>, name: string): seq<PanelApp> {
    var i := PanelIndex(panel, name);
    if i < 0 then panel else Without(panel, i)
  }

  /** `replaceApp`: same slot, or a new row when there is none. */
  function PanelReplace(panel: seq<PanelApp>, pa: PanelApp): seq<PanelApp> {
    var i := PanelIndex(panel, pa.name);
    if i < 0 then panel + [pa] else panel[i := pa]
  }

  /** `RemoveAppFromManifestFile`: every entry of that name goes. */
  function DropNamed(apps: seq<AppSpec>, name: string): seq<AppSpec> {
    if apps == [] then []
    else DropNamed(apps[..|apps| - 1], name) + (if apps[|apps| - 1].name == name then [] else [apps[|apps| - 1]])
  }

  // Adding an app.

  /** The console's database choice, with the outcomes of the steps that need the server. */
  datatype DbPlan = DbPlan(
    known: bool, dbName: string, nameValid: bool, dsn: Option<string>,
    create: bool, createOk: bool, dropOk: bool)

  /**
   * The outcomes of the outside world during one add: the path of the accepted schema, the
   * database plan, what compiles, whether database and ports were there, the writes.
   */
  datatype AddIo = AddIo(
    schema: Option<string>, db: Option<DbPlan>, world: World,
    reachable: bool, envWrite: EnvWrite, manifestOk: bool)

  /** `dropped` says whether the call issued a drop of a database. */
  datatype AddResult = AddResult(fleet: State, ok: bool, dropped: bool)

  predicate DbRejected(db: DbPlan) {
    !db.known || !db.nameValid || db.dsn.None? || (db.create && !db.createOk)
  }

  /** The database this call would create fresh, if any. */
  predicate CreatesFresh(f: State, io: AddIo) {
    io.db.Some? && !DbRejected(io.db.value) && io.db.value.create && io.db.value.dbName !in f.databases
  }

  /** The spec as it reaches `ValidateNewApp`. */
  function Planned(spec: AppSpec, io: AddIo): AppSpec
    requires io.schema.Some?
  {
    var s := spec.(schema := io.schema.value);
    if io.db.Some? && io.db.value.dsn.Some? then s.(env := s.env[DATABASE_URL := io.db.value.dsn.value]) else s
  }

  /** Refused before the manifest rules: bad name, bad schema, bad database choice. */
  predicate RefusedEarly(spec: AppSpec, io: AddIo) {
    !NameOk(spec.name) || io.schema.None? || (io.db.Some? && DbRejected(io.db.value))
  }

  /** The candidate as validation leaves it: normal domains and the env resolved now. */
  function Candidate(f: State, spec: AppSpec, io: AddIo): AppSpec
    requires io.schema.Some? && FileEnv(f.disk, Base(f), spec.envFile).Some?
  {
    Resolved(Planned(spec, io), FileEnv(f.disk, Base(f), spec.envFile).value)
  }

  /** The manifest rules and the compile succeed. */
  ghost predicate Compiles(
    apps: seq<AppSpec>, operatorKey: string, disk: Disk, base: string, spec: AppSpec, io: AddIo)
  {
    && !RefusedEarly(spec, io)
    && FileEnv(disk, base, spec.envFile).Some?
    && var a := Resolved(Planned(spec, io), FileEnv(disk, base, spec.envFile).value);
    && Admissible(apps, operatorKey, io.world.stat, a)
    && io.reachable && Builds(io.world, a.schema, a.mergedEnv)
  }

  ghost predicate AddCompiles(f: State, spec: AppSpec, io: AddIo) {
    Compiles(f.apps, f.operatorKey, f.disk, Base(f), spec, io)
  }

  /** The add reaches the env file: explicit entries are moved there. */
  ghost predicate AddWrites(f: State, spec: AppSpec, io: AddIo) {
    AddCompiles(f, spec, io) && |Planned(spec, io).env| > 0
  }

  ghost function AddDisk(f: State, spec: AppSpec, io: AddIo): Disk {
    if AddWrites(f, spec, io) then WroteEnv(f, spec.name, Planned(spec, io).env, io.envWrite) else f.disk
  }

  /** Both writes succeed too. */
  ghost predicate AddGoesThrough(f: State, spec: AppSpec, io: AddIo) {
    && AddCompiles(f, spec, io)
    && (AddWrites(f, spec, io) ==> io.envWrite.Wrote?)
    && (f.file.Some? ==> io.manifestOk && NameFree(f.file.value, spec.name))
  }

  /** The spec the manifest keeps: explicit entries moved to the generated file, which replaces any other. */
  function Stored(place: Place, a: AppSpec): AppSpec {
    if |a.env| > 0 then a.(envFile := EnvPath(place, a.name), env := map[]) else a
  }

  /** The spec a successful add puts into the manifest. */
  function Added(f: State, spec: AppSpec, io: AddIo): AppSpec
    requires io.schema.Some? && FileEnv(f.disk, Base(f), spec.envFile).Some?
  {
    Stored(f.place, Candidate(f, spec, io))
  }

  ghost function Add(f: State, spec: AppSpec, io: AddIo): AddResult {
    if RefusedEarly(spec, io) then AddResult(f, false, false)
    else if AddGoesThrough(f, spec, io) then
      AddResult(
        Installed(f, Added(f, spec, io)).(databases := f.databases + Created(io), disk := AddDisk(f, spec, io)),
        true, false)
    else
      var created := CreatesFresh(f, io);
      var dbs := if created && io.db.value.dropOk then f.databases else f.databases + Created(io);
      AddResult(f.(databases := dbs, disk := AddDisk(f, spec, io)), false, created)
  }

  /** The databases a successful create step leaves. */
  function Created(io: AddIo): set<string> {
    if io.db.Some? && !DbRejected(io.db.value) && io.db.value.create then {io.db.value.dbName} else {}
  }

  /** A compiled app gone live: manifest, file, registry and panel. */
  function Installed(f: State, a: AppSpec): State {
    var id := f.nextInstance;
    f.(apps := f.apps + [a],
       file := if f.file.Some? then Some(f.file.value + [a]) else None,
       table := Put(f.table, a.domains, CompiledApp(a.name, id, FirstOf(id))),
       panel := f.panel + [PanelApp(a.name, a.domains, id, a.mergedEnv)],
       nextInstance := id + 1,
       envs := f.envs[id := a.mergedEnv])
  }

  /** A successful add, and what it checked. */
  lemma AddSucceeds(f: State, spec: AppSpec, io: AddIo)
    requires Add(f, spec, io).ok
    ensures io.schema.Some? && FileEnv(f.disk, Base(f), spec.envFile).Some?
    ensures Admissible(f.apps, f.operatorKey, io.world.stat, Added(f, spec, io))
    ensures Builds(io.world, Added(f, spec, io).schema, Added(f, spec, io).mergedEnv)
    ensures var g := Add(f, spec, io).fleet;
            g == Installed(f, Added(f, spec, io)).(databases := g.databases, disk := g.disk)
    ensures Added(f, spec, io).domains == NormalAll(spec.domains) && Added(f, spec, io).name == spec.name
  {
  }

  /**
   * What an app is compiled with: the DSN of the chosen database, else the explicit entries, else
   * those of the env file.
   */
  ghost predicate EnvPlanned(fileEnv: Env, explicit: Env, db: Option<DbPlan>, env: Env) {
    && (db.Some? && db.value.dsn.Some? ==> DATABASE_URL in env && env[DATABASE_URL] == db.value.dsn.value)
    && forall k :: (db.Some? ==> k != DATABASE_URL) ==>
         && (k in env <==> k in explicit || k in fileEnv)
         && (k in env ==> env[k] == if k in explicit then explicit[k] else fileEnv[k])
  }

  lemma PlannedEnvIs(spec: AppSpec, io: AddIo, fileEnv: Env)
    requires io.schema.Some?
    ensures EnvPlanned(fileEnv, spec.env, io.db, fileEnv + Planned(spec, io).env)
    ensures EnvPlanned(map[], spec.env, io.db, Planned(spec, io).env)
  {
  }

  /** The spec a successful add stores. */
  lemma AddedSpecIs(f: State, spec: AppSpec, io: AddIo, fileEnv: Env, a: AppSpec)
    requires io.schema.Some? && FileEnv(f.disk, Base(f), spec.envFile) == Some(fileEnv) && a == Added(f, spec, io)
    ensures a.name == spec.name && a.schema == io.schema.value && a.env == map[]
    ensures |a.domains| == |spec.domains|
    ensures forall i :: 0 <= i < |a.domains| ==> a.domains[i] == Lower(TrimSpace(spec.domains[i]))
    ensures EnvPlanned(fileEnv, spec.env, io.db, a.mergedEnv)
  {
    PlannedEnvIs(spec, io, fileEnv);
  }

  /** The entry a successful add leaves at the end of the manifest, and the env it runs with. */
  lemma AddedAppIs(f: State, spec: AppSpec, io: AddIo)
    requires Add(f, spec, io).ok
    ensures io.schema.Some? && FileEnv(f.disk, Base(f), spec.envFile).Some?
    ensures var g, n := Add(f, spec, io).fleet, |f.apps|;
            && |g.apps| == n + 1 && g.apps[..n] == f.apps
            && var a := g.apps[n];
            && a.name == spec.name && a.schema == io.schema.value && a.env == map[]
            && |a.domains| == |spec.domains|
            && (forall i :: 0 <= i < |a.domains| ==> a.domains[i] == Lower(TrimSpace(spec.domains[i])))
            && EnvPlanned(FileEnv(f.disk, Base(f), spec.envFile).value, spec.env, io.db, a.mergedEnv)
            && g.file == (if f.file.Some? then Some(f.file.value + [a]) else None)
            && g.panel == f.panel + [PanelApp(a.name, a.domains, f.nextInstance, a.mergedEnv)]
            && g.nextInstance == f.nextInstance + 1 && g.envs == f.envs[f.nextInstance := a.mergedEnv]
            && g.databases ==
                f.databases + (if io.db.Some? && io.db.value.create then {io.db.value.dbName} else {})
  {
    AddSucceeds(f, spec, io);
    AddedSpecIs(f, spec, io, FileEnv(f.disk, Base(f), spec.envFile).value, Added(f, spec, io));
    var a := Added(f, spec, io);
    assert (f.apps + [a])[..|f.apps|] == f.apps;
  }

  /** The database choice, when there is one, is sound and a create that was asked for succeeded. */
  predicate Chosen(db: Option<DbPlan>) {
    db.Some? ==>
      db.value.known && db.value.nameValid && db.value.dsn.Some? && (db.value.create ==> db.value.createOk)
  }

  /** A failed add drops a database exactly when it had created it; without a readable env file it fails. */
  lemma AddDropsIff(f: State, spec: AppSpec, io: AddIo)
    ensures var r := Add(f, spec, io);
            && (r.dropped <==>
                  && !r.ok && NameOk(spec.name) && io.schema.Some? && Chosen(io.db)
                  && io.db.Some? && io.db.value.create && io.db.value.dbName !in f.databases)
            && (r.ok ==> io.schema.Some? && FileEnv(f.disk, Base(f), spec.envFile).Some?)
  {
  }

  lemma PlannedEnvIff(spec: AppSpec, io: AddIo, fileEnv: Env, env: Env)
    requires io.schema.Some? && Chosen(io.db)
    ensures EnvPlanned(fileEnv, spec.env, io.db, env) <==> env == fileEnv + Planned(spec, io).env
  {
    PlannedEnvIs(spec, io, fileEnv);
    var all := fileEnv + Planned(spec, io).env;
    if EnvPlanned(fileEnv, spec.env, io.db, env) {
      forall k ensures (k in env <==> k in all) && (k in env ==> env[k] == all[k]) {
        assert k == DATABASE_URL || k != DATABASE_URL;
      }
      assert env == all;
    }
  }

  /**
   * An add succeeds exactly when the name and the database choice are good, the app passes the
   * manifest rules with the env it would get and compiles with it, and the writes succeed.
   */
  lemma AddHappensIff(f: State, spec: AppSpec, io: AddIo, a: AppSpec)
    requires io.schema.Some? && FileEnv(f.disk, Base(f), spec.envFile).Some?
    requires a.name == spec.name && a.schema == io.schema.value && a.domains == NormalAll(spec.domains)
    requires EnvPlanned(FileEnv(f.disk, Base(f), spec.envFile).value, spec.env, io.db, a.mergedEnv)
    ensures Add(f, spec, io).ok <==>
              && NameOk(spec.name) && Chosen(io.db)
              && Admissible(f.apps, f.operatorKey, io.world.stat, a)
              && io.reachable && Builds(io.world, a.schema, a.mergedEnv)
              && (|spec.env| > 0 || io.db.Some? ==> io.envWrite.Wrote?)
              && (f.file.Some? ==> io.manifestOk && NameFree(f.file.value, spec.name))
  {
    if !RefusedEarly(spec, io) {
      PlannedMovesIff(spec, io);
      PlannedEnvIff(spec, io, FileEnv(f.disk, Base(f), spec.envFile).value, a.mergedEnv);
    }
  }

  /** The new instance of `g` runs with the planned env, and its entry shows it. */
  ghost predicate RunsPlanned(f: State, spec: AppSpec, io: AddIo, g: State) {
    && |g.apps| == |f.apps| + 1 && f.nextInstance in g.envs
    && var base := if f.file.Some? then f.place.dir else f.place.cwd;
    && FileEnv(f.disk, base, spec.envFile).Some?
    && EnvPlanned(FileEnv(f.disk, base, spec.envFile).value, spec.env, io.db, g.envs[f.nextInstance])
    && g.apps[|f.apps|].mergedEnv == g.envs[f.nextInstance]
  }

  lemma AddedRunsPlanned(f: State, spec: AppSpec, io: AddIo, g: State)
    requires Add(f, spec, io).ok && g == Add(f, spec, io).fleet
    ensures RunsPlanned(f, spec, io, g)
  {
    AddedAppIs(f, spec, io);
  }

  lemma PlannedMovesIff(spec: AppSpec, io: AddIo)
    requires io.schema.Some? && !RefusedEarly(spec, io)
    ensures |Planned(spec, io).env| > 0 <==> |spec.env| > 0 || io.db.Some?
  {
    var explicit := Planned(spec, io).env;
    if io.db.Some? {
      assert DATABASE_URL in explicit;
    }
  }

  lemma AddedDiskIs(f: State, spec: AppSpec, io: AddIo, explicit: Env)
    requires Add(f, spec, io).ok && io.schema.Some? && explicit == Planned(spec, io).env
    ensures var g := Add(f, spec, io).fleet;
            && |g.apps| > 0
            && g.apps[|g.apps| - 1].envFile == (if |explicit| > 0 then EnvPath(f.place, spec.name) else spec.envFile)
            && g.disk == if |explicit| > 0 then WroteEnv(f, spec.name, explicit, Wrote) else f.disk
  {
    AddSucceeds(f, spec, io);
  }

  /** Explicit entries and the DSN end up in the generated env file, which the entry then names. */
  lemma AddedEnvFileIs(f: State, spec: AppSpec, io: AddIo) returns (explicit: Env)
    requires Add(f, spec, io).ok
    ensures EnvPlanned(map[], spec.env, io.db, explicit)
    ensures var g, moved := Add(f, spec, io).fleet, |spec.env| > 0 || io.db.Some?;
            var path := f.place.dataDir + "/" + spec.name + "/" + spec.name + ".env";
            && |g.apps| > 0
            && g.apps[|g.apps| - 1].envFile == (if moved then path else spec.envFile)
            && g.disk == if moved then f.disk[At(f.place.cwd, path) := EnvFile.TextOf(f.place.header, explicit)]
                else f.disk
  {
    explicit := Planned(spec, io).env;
    PlannedMovesIff(spec, io);
    PlannedEnvIs(spec, io, map[]);
    AddedDiskIs(f, spec, io, explicit);
  }

  /** Apps of different names never share a generated file, wherever the fleet runs. */
  lemma EnvPathsDiffer(place: Place, a: string, b: string)
    requires a != b
    ensures EnvPath(place, a) != EnvPath(place, b)
    ensures WritesTo(place, a) != WritesTo(place, b)
  {
    var p, q, n := EnvPath(place, a), EnvPath(place, b), |place.dataDir| + 1;
    assert p[n..n + |a|] == a && q[n..n + |b|] == b;
    assert |p| == n + 2 * |a| + 5 && |q| == n + 2 * |b| + 5;
    assert p != q;
    assert p[0] == q[0];
    if !IsAbs(p) {
      assert (place.cwd + "/" + p)[|place.cwd| + 1..] == p && (place.cwd + "/" + q)[|place.cwd| + 1..] == q;
    }
  }

  lemma AddFails(f: State, spec: AppSpec, io: AddIo)
    requires !Add(f, spec, io).ok
    ensures var g := Add(f, spec, io).fleet; g == f.(databases := g.databases, disk := g.disk)
  {
  }

  // Editing an app's env.

  datatype EditIo = EditIo(envWrite: EnvWrite, manifestOk: bool, world: World, reachable: bool)

  datatype EditResult = EditResult(fleet: State, ok: bool)

  function NextEnv(current: Env, setEnv: Env, unset: seq<string>): Env {
    (current + setEnv) - (set k | k in unset)
  }

  /** `after` is `before` without the unset keys, with the set ones at their new values, else as it was. */
  ghost predicate EnvEdited(before: Env, setEnv: Env, unset: seq<string>, after: Env) {
    forall k ::
      && (k in after <==> k !in unset && (k in setEnv || k in before))
      && (k in after ==> after[k] == if k in setEnv then setEnv[k] else before[k])
  }

  lemma EnvEditedIff(before: Env, setEnv: Env, unset: seq<string>, after: Env)
    ensures EnvEdited(before, setEnv, unset, after) <==> after == NextEnv(before, setEnv, unset)
  {
  }

  /** The checks an edit passes before it touches anything. */
  ghost predicate EditAccepted(f: State, name: string, setEnv: Env, unset: seq<string>) {
    var i := AppIndex(f.apps, name);
    && i >= 0 && PanelIndex(f.panel, name) >= 0
    && (setEnv != map[] || unset != [])
    && var next := NextEnv(f.apps[i].mergedEnv, setEnv, unset);
    && RequiredPresent(next)
    && (forall k :: 0 <= k < |f.apps| && f.apps[k].name != name ==>
        Get(f.apps[k].mergedEnv, JWT_SECRET) != Get(next, JWT_SECRET))
    && KeyApart(f.operatorKey, next)
  }

  ghost function Edit(f: State, name: string, setEnv: Env, unset: seq<string>, io: EditIo): EditResult {
    if !EditAccepted(f, name, setEnv, unset) then EditResult(f, false)
    else
      var i := AppIndex(f.apps, name);
      var next := NextEnv(f.apps[i].mergedEnv, setEnv, unset);
      var h := EditWritten(f, i, next, io);
      if EditPersists(f, name, io) && EditBuilds(f, i, next, io)
      then EditResult(Replaced(h, Edited(f, i, next)), true) else EditResult(h, false)
  }

  /** The compile of the edited app, which comes after the writes. */
  predicate EditBuilds(f: State, i: nat, next: Env, io: EditIo)
    requires i < |f.apps|
  {
    io.reachable && Builds(io.world, f.apps[i].schema, next)
  }

  /** What the writes of an accepted edit leave, before the compile. */
  ghost function EditWritten(f: State, i: nat, next: Env, io: EditIo): State
    requires i < |f.apps|
  {
    var name := f.apps[i].name;
    var disk := WroteEnv(f, name, next, io.envWrite);
    if !io.envWrite.Wrote? then f.(apps := f.apps[i := f.apps[i].(mergedEnv := next, env := next)], disk := disk)
    else
      var spec := Edited(f, i, next);
      f.(apps := f.apps[i := spec], disk := disk,
         file := if EditPersists(f, name, io) then FileReplaced(f.file, name, spec) else f.file)
  }

  /** The spec an edit declares: everything in the generated env file. */
  function Edited(f: State, i: nat, next: Env): AppSpec
    requires i < |f.apps|
  {
    f.apps[i].(mergedEnv := next, envFile := EnvPath(f.place, f.apps[i].name), env := map[])
  }

  /** Both writes of an accepted edit succeed. */
  ghost predicate EditPersists(f: State, name: string, io: EditIo) {
    io.envWrite.Wrote? && (f.file.Some? ==> io.manifestOk && !NameFree(f.file.value, name))
  }

  /** An accepted edit changes the env of one manifest entry, and on success its panel row. */
  lemma EditChangesOneApp(f: State, name: string, setEnv: Env, unset: seq<string>, io: EditIo)
    requires EditAccepted(f, name, setEnv, unset)
    ensures var r, i := Edit(f, name, setEnv, unset, io), AppIndex(f.apps, name);
            && r.fleet.apps == f.apps[i := r.fleet.apps[i]]
            && r.fleet.apps[i] == f.apps[i].(mergedEnv := NextEnv(f.apps[i].mergedEnv, setEnv, unset),
                                             env := r.fleet.apps[i].env, envFile := r.fleet.apps[i].envFile)
            && r.fleet.panel == (if r.ok
                then PanelReplace(f.panel, PanelApp(name, f.apps[i].domains, f.nextInstance, r.fleet.apps[i].mergedEnv))
                                 else f.panel)
            && r.fleet.nextInstance == f.nextInstance + (if r.ok then 1 else 0)
  {
  }

  /**
   * The env an accepted edit leaves in the manifest, and on success on the panel row and in the
   * fresh instance, key by key; a completed write leaves it in the env file.
   */
  lemma EditedEnvIs(f: State, name: string, setEnv: Env, unset: seq<string>, io: EditIo)
    requires EditAccepted(f, name, setEnv, unset)
    ensures var r, i, p := Edit(f, name, setEnv, unset, io), AppIndex(f.apps, name), PanelIndex(f.panel, name);
            && i >= 0 && p >= 0 && |r.fleet.apps| == |f.apps| && |r.fleet.panel| == |f.panel|
            && EnvEdited(f.apps[i].mergedEnv, setEnv, unset, r.fleet.apps[i].mergedEnv)
            && (io.envWrite.Wrote? ==>
                  && WritesTo(f.place, name) in r.fleet.disk
                  && r.fleet.disk[WritesTo(f.place, name)] ==
                      EnvFile.TextOf(f.place.header, r.fleet.apps[i].mergedEnv))
            && (r.ok ==>
                  && r.fleet.panel[p].instance == f.nextInstance && f.nextInstance in r.fleet.envs
                  && EnvEdited(f.apps[i].mergedEnv, setEnv, unset, r.fleet.panel[p].env)
                  && EnvEdited(f.apps[i].mergedEnv, setEnv, unset, r.fleet.envs[f.nextInstance]))
  {
    var i := AppIndex(f.apps, name);
    EnvEditedIff(f.apps[i].mergedEnv, setEnv, unset, NextEnv(f.apps[i].mergedEnv, setEnv, unset));
  }

  /** An edit is accepted exactly when there is such an app and the env it would get passes the checks. */
  lemma EditAcceptedIff(f: State, name: string, setEnv: Env, unset: seq<string>, next: Env)
    requires AppIndex(f.apps, name) >= 0
    requires EnvEdited(f.apps[AppIndex(f.apps, name)].mergedEnv, setEnv, unset, next)
    ensures EditAccepted(f, name, setEnv, unset) <==>
              && (exists k :: 0 <= k < |f.panel| && f.panel[k].name == name)
              && (setEnv != map[] || unset != [])
              && RequiredPresent(next) && KeyApart(f.operatorKey, next)
              && (forall k :: 0 <= k < |f.apps| && f.apps[k].name != name ==>
                  Get(f.apps[k].mergedEnv, JWT_SECRET) != Get(next, JWT_SECRET))
  {
    EnvEditedIff(f.apps[AppIndex(f.apps, name)].mergedEnv, setEnv, unset, next);
  }

  /** What an edit that does not go live leaves alone. */
  lemma FailedEditLeaves(f: State, name: string, setEnv: Env, unset: seq<string>, io: EditIo)
    requires !Edit(f, name, setEnv, unset, io).ok
    ensures var g := Edit(f, name, setEnv, unset, io).fleet;
            g == f.(apps := g.apps, file := g.file, disk := g.disk)
    ensures !EditAccepted(f, name, setEnv, unset) ==> Edit(f, name, setEnv, unset, io).fleet == f
  {
  }

  /** A write touches one file, and leaves it as it was, with the whole text, or with what it got to. */
  lemma WriteTouchesOneFile(f: State, name: string, env: Env, w: EnvWrite)
    ensures var disk, path := WroteEnv(f, name, env, w), WritesTo(f.place, name);
            && (w.Refused? ==> disk == f.disk)
            && (!w.Refused? ==> path in disk)
            && (w.Wrote? ==> disk[path] == EnvFile.TextOf(f.place.header, env))
            && (w.Torn? ==> disk[path] == w.left)
            && forall p :: p != path ==> (p in disk <==> p in f.disk) && (p in disk ==> disk[p] == f.disk[p])
  {
  }

  /**
   * What an accepted edit declares: with the env file written the entry names it and keeps nothing
   * else, otherwise the env stands in the entry. The manifest file follows exactly when both
   * writes succeed, and the edit goes live exactly when the app then compiles.
   */
  lemma EditedEntryIs(f: State, name: string, setEnv: Env, unset: seq<string>, io: EditIo)
    requires EditAccepted(f, name, setEnv, unset)
    ensures var r, i := Edit(f, name, setEnv, unset, io), AppIndex(f.apps, name);
            && i >= 0 && |r.fleet.apps| == |f.apps|
            && var a, b := f.apps[i], r.fleet.apps[i];
            && b.name == a.name && b.schema == a.schema && b.domains == a.domains
            && (io.envWrite.Wrote? ==> b.env == map[] && b.envFile == EnvPath(f.place, name))
            && (!io.envWrite.Wrote? ==> b.env == b.mergedEnv && b.envFile == a.envFile)
            && var declared := f.file.None? || exists k :: 0 <= k < |f.file.value| && f.file.value[k].name == name;
            var persisted := io.envWrite.Wrote? && declared && (f.file.Some? ==> io.manifestOk);
            && (!persisted || f.file.None? ==> r.fleet.file == f.file)
            && (persisted && f.file.Some? ==>
                  r.fleet.file == Some(f.file.value[AppIndex(f.file.value, name) := b]))
            && (r.ok <==> persisted && io.reachable && Builds(io.world, a.schema, b.mergedEnv))
  {
  }

  /** `EditAppInManifestFile`: the entry of that name becomes `spec`. */
  function FileReplaced(file: Option<seq<AppSpec>>, name: string, spec: AppSpec): Option<seq<AppSpec>> {
    if file.None? then None
    else
      var k := AppIndex(file.value, name);
      if k < 0 then file else Some(file.value[k := spec])
  }

  /** A fresh instance took over the domains of `spec`. */
  function Replaced(f: State, spec: AppSpec): State {
    var id := f.nextInstance;
    f.(table := Put(f.table, spec.domains, CompiledApp(spec.name, id, FirstOf(id))),
       panel := PanelReplace(f.panel, PanelApp(spec.name, spec.domains, id, spec.mergedEnv)),
       nextInstance := id + 1,
       envs := f.envs[id := spec.mergedEnv])
  }

  // Removing an app.

  datatype RemoveResult = RemoveResult(fleet: State, ok: bool, reported: seq<string>)

  predicate RemoveAccepted(f: State, name: string, confirm: string, manifestOk: bool) {
    && confirm == name
    && AppIndex(f.apps, name) >= 0 && PanelIndex(f.panel, name) >= 0
    && (f.file.Some? ==> manifestOk && AppIndex(f.file.value, name) >= 0)
  }

  /**
   * The domains `RemoveApp` unroutes. `AppByName` points into the slice, so once the slice has
   * shifted the pointer shows the next app, if there is one.
   */
  function Unrouted(apps: seq<AppSpec>, i: nat): seq<string>
    requires i < |apps|
  {
    if i + 1 < |apps| then apps[i + 1].domains else apps[i].domains
  }

  /** App `i` taken out of the fleet, with `domains` unrouted. */
  function Removed(f: State, i: nat, domains: seq<string>): State
    requires i < |f.apps|
  {
    var name := f.apps[i].name;
    f.(apps := Without(f.apps, i),
       file := if f.file.Some? then Some(DropNamed(f.file.value, name)) else None,
       table := Drop(f.table, domains),
       panel := PanelRemove(f.panel, name))
  }

  /**
   * A removal happens exactly when the name is repeated to confirm it, the app is in the manifest
   * and on the panel, and the manifest file could be rewritten without it; otherwise nothing does.
   */
  lemma RemoveHappensIff(f: State, name: string, confirm: string, manifestOk: bool)
    ensures var r := Remove(f, name, confirm, manifestOk);
            && (r.ok <==>
                  && confirm == name
                  && (exists k :: 0 <= k < |f.apps| && f.apps[k].name == name)
                  && (exists k :: 0 <= k < |f.panel| && f.panel[k].name == name)
                  && (f.file.Some? ==>
                        manifestOk && exists k :: 0 <= k < |f.file.value| && f.file.value[k].name == name))
            && (!r.ok ==> r.fleet == f && r.reported == [])
            && (r.ok ==> forall d :: d in r.fleet.table <==>
                  d in f.table && forall e :: e in r.reported ==> Lower(e) != d)
            && (r.ok ==> forall d :: d in r.fleet.table ==> r.fleet.table[d] == f.table[d])
  {
    var r := Remove(f, name, confirm, manifestOk);
    if r.ok {
      forall d ensures d in LowerAll(r.reported) <==> exists e :: e in r.reported && Lower(e) == d {
      }
    }
  }

  function Remove(f: State, name: string, confirm: string, manifestOk: bool): RemoveResult {
    if !RemoveAccepted(f, name, confirm, manifestOk) then RemoveResult(f, false, [])
    else
      var i := AppIndex(f.apps, name);
      var domains := Unrouted(f.apps, i);
      RemoveResult(Removed(f, i, domains), true, domains)
  }
}
