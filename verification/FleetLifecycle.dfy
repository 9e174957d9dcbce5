/** The lifecycle operations as multiapp.go and fleetpanel.go run them, step by step on shared state. */
module FleetLifecycle {
  import opened Text
  import opened Hosts
  import opened Manifest
  import opened Registry
  import opened Fleet
  import EnvFile

  /** The console's list of apps (fleetpanel.go). */
  class FleetPanel {
    var apps: seq<PanelApp>

    constructor (apps: seq<PanelApp>)
      ensures this.apps == apps
    {
      this.apps := apps;
    }

    method AddApp(pa: PanelApp)
      modifies this
      ensures apps == old(apps) + [pa]
    {
      apps := apps + [pa];
    }

    method RemoveApp(name: string)
      modifies this
      ensures apps == PanelRemove(old(apps), name)
    {
      for i := 0 to |apps|
        invariant apps == old(apps)
        invariant forall k :: 0 <= k < i ==> apps[k].name != name
      {
        if apps[i].name == name {
          apps := apps[..i] + apps[i + 1..];
          return;
        }
      }
    }

    method ReplaceApp(pa: PanelApp)
      modifies this
      ensures apps == PanelReplace(old(apps), pa)
    {
      for i := 0 to |apps|
        invariant apps == old(apps)
        invariant forall k :: 0 <= k < i ==> apps[k].name != pa.name
      {
        if apps[i].name == pa.name {
          apps := apps[i := pa];
          return;
        }
      }
      apps := apps + [pa];
    }

    method ByName(name: string) returns (pa: Option<PanelApp>)
      ensures pa == var i := PanelIndex(apps, name); if i < 0 then None else Some(apps[i])
    {
      for i := 0 to |apps|
        invariant forall k :: 0 <= k < i ==> apps[k].name != name
      {
        if apps[i].name == name {
          return Some(apps[i]);
        }
      }
      return None;
    }
  }

  /** The two ways an add that passed the first checks ends. */
  lemma AddEnds(f: State, g: State, h: State, spec: AppSpec, io: AddIo, ok: bool)
    requires !RefusedEarly(spec, io)
    requires g == f.(databases := f.databases + Created(io))
    requires ok <==> AddGoesThrough(g, spec, io)
    requires ok ==> h == Installed(g.(disk := AddDisk(g, spec, io)), Added(g, spec, io))
    requires !ok ==>
               && h.databases == (if CreatesFresh(f, io) && io.db.value.dropOk
                                  then g.databases - {io.db.value.dbName} else g.databases)
               && h == g.(disk := AddDisk(g, spec, io), databases := h.databases)
    ensures AddResult(h, ok, !ok && CreatesFresh(f, io)) == Add(f, spec, io)
  {
    AddIgnoresDatabases(f, g, spec, io);
    DiskIgnoresDatabases(f, g, spec, io);
    if CreatesFresh(f, io) {
      assert f.databases + Created(io) - {io.db.value.dbName} == f.databases;
    }
  }

  lemma CompilesIgnoresDatabases(f: State, g: State, spec: AppSpec, io: AddIo)
    requires g == f.(databases := g.databases)
    ensures AddCompiles(f, spec, io) <==> AddCompiles(g, spec, io)
    ensures AddWrites(f, spec, io) <==> AddWrites(g, spec, io)
  {
    assert Base(f) == Base(g);
  }

  lemma DiskIgnoresDatabases(f: State, g: State, spec: AppSpec, io: AddIo)
    requires g == f.(databases := g.databases)
    ensures AddDisk(f, spec, io) == AddDisk(g, spec, io)
  {
    CompilesIgnoresDatabases(f, g, spec, io);
    var w := AddWrites(f, spec, io);
    assert AddWrites(g, spec, io) == w;
    if w {
      WriteIgnoresDatabases(f, g, spec.name, Planned(spec, io).env, io.envWrite);
    }
  }

  lemma WriteIgnoresDatabases(f: State, g: State, name: string, env: Env, w: EnvWrite)
    requires g == f.(databases := g.databases)
    ensures WroteEnv(f, name, env, w) == WroteEnv(g, name, env, w)
  {
  }

  lemma AddIgnoresDatabases(f: State, g: State, spec: AppSpec, io: AddIo)
    requires g == f.(databases := g.databases)
    ensures AddGoesThrough(f, spec, io) <==> AddGoesThrough(g, spec, io)
    ensures io.schema.Some? && FileEnv(f.disk, Base(f), spec.envFile).Some? ==> Added(f, spec, io) == Added(g, spec, io)
  {
    CompilesIgnoresDatabases(f, g, spec, io);
    assert Base(f) == Base(g);
  }

  method DeleteKeys(env: Env, ks: seq<string>) returns (out: Env)
    ensures out == env - (set k | k in ks)
  {
    out := env;
    for i := 0 to |ks|
      invariant out == env - (set k | k in ks[..i])
    {
      out := out - {ks[i]};
      assert ks[..i + 1] == ks[..i] + [ks[i]];
    }
    assert ks[..|ks|] == ks;
  }

  /** The JWT collision loop of `EditApp`, which skips the app itself. */
  method SharesSecret(apps: seq<AppSpec>, name: string, secret: string) returns (shared: bool)
    ensures shared <==>
              exists k :: 0 <= k < |apps| && apps[k].name != name && Get(apps[k].mergedEnv, JWT_SECRET) == secret
  {
    for i := 0 to |apps|
      invariant forall k :: 0 <= k < i && apps[k].name != name ==> Get(apps[k].mergedEnv, JWT_SECRET) != secret
    {
      if apps[i].name == name {
        continue;
      }
      if Get(apps[i].mergedEnv, JWT_SECRET) == secret {
        return true;
      }
    }
    return false;
  }

  /**
   * `slots` is the backing array of the slice `mf.Apps` and `count` its length: a removal shifts
   * the array in place and leaves the old last element behind it.
   */
  class FleetLifecycle {
    var slots: seq<AppSpec>
    var count: nat
    var file: Option<seq<AppSpec>>
    var databases: set<string>
    var nextInstance: nat
    var envs: map<nat, Env>
    var disk: Disk
    const operatorKey: string
    const place: Place
    const reg: Registry
    const panel: FleetPanel

    ghost predicate Valid()
      reads this
    {
      count <= |slots|
    }

    ghost function Fleet(): State
      requires Valid()
      reads this, reg, panel
    {
      State(slots[..count], file, reg.domains, panel.apps, databases, nextInstance, envs, operatorKey, place, disk)
    }

    constructor (apps: seq<AppSpec>, file: Option<seq<AppSpec>>, reg: Registry, panel: FleetPanel,
                 nextInstance: nat, envs: map<nat, Env>, operatorKey: string, place: Place, disk: Disk)
      ensures Valid() && this.reg == reg && this.panel == panel
      ensures Fleet() == State(apps, file, reg.domains, panel.apps, {}, nextInstance, envs, operatorKey, place, disk)
    {
      this.slots, this.count := apps, |apps|;
      this.file := file;
      this.databases := {};
      this.nextInstance, this.envs := nextInstance, envs;
      this.operatorKey, this.place, this.disk := operatorKey, place, disk;
      this.reg, this.panel := reg, panel;
    }

    /** `AppByName`: the position of the entry its pointer denotes, or -1. */
    method AppByName(name: string) returns (i: int)
      requires Valid()
      ensures i == AppIndex(slots[..count], name)
    {
      for k := 0 to count
        invariant forall j :: 0 <= j < k ==> slots[j].name != name
      {
        if slots[k].name == name {
          return k;
        }
      }
      return -1;
    }

    /** The checks and the database step before the manifest rules. */
    method PrepareAdd(spec: AppSpec, io: AddIo) returns (proceed: bool, s: AppSpec, createdDb: bool)
      modifies this`databases
      ensures proceed <==> !RefusedEarly(spec, io)
      ensures proceed ==> s == Planned(spec, io)
      ensures proceed ==>
                createdDb == old(io.db.Some? && io.db.value.create && io.db.value.dbName !in databases)
      ensures databases == if proceed then old(databases) + Created(io) else old(databases)
    {
      s, createdDb := spec, false;
      if !NameOk(spec.name) || io.schema.None? {
        return false, s, false;
      }
      s := spec.(schema := io.schema.value);
      if io.db.Some? {
        var db := io.db.value;
        if !db.known || !db.nameValid || db.dsn.None? {
          return false, s, false;
        }
        s := s.(env := s.env[DATABASE_URL := db.dsn.value]);
        if db.create {
          if !db.createOk {
            return false, s, false;
          }
          createdDb := db.dbName !in databases;
          databases := databases + {db.dbName};
        }
      }
      proceed := true;
    }

    /** `writeAppEnvFile`, with the outcome of the write. */
    method WriteEnvFile(name: string, env: Env, w: EnvWrite) returns (ok: bool)
      requires Valid()
      modifies this`disk
      ensures Fleet() == old(Fleet()).(disk := WroteEnv(old(Fleet()), name, env, w))
      ensures ok <==> w.Wrote?
    {
      match w {
        case Wrote =>
          var text := EnvFile.WriteAppEnvFile(place.header, env);
          disk := disk[WritesTo(place, name) := text];
        case Refused =>
        case Torn(left) => disk := disk[WritesTo(place, name) := left];
      }
      ok := w.Wrote?;
    }

    /** The manifest rules, the compile and the env file; nothing is declared yet. */
    method CompileAdd(spec: AppSpec, s: AppSpec, io: AddIo) returns (ok: bool, a: AppSpec)
      requires Valid() && !RefusedEarly(spec, io) && s == Planned(spec, io)
      modifies this`disk
      ensures Fleet() == old(Fleet()).(disk := AddDisk(old(Fleet()), spec, io))
      ensures ok <==> AddCompiles(old(Fleet()), spec, io) && (AddWrites(old(Fleet()), spec, io) ==> io.envWrite.Wrote?)
      ensures ok ==> a == Added(old(Fleet()), spec, io)
    {
      ghost var f := Fleet();
      var valid;
      var base := if file.Some? then place.dir else place.cwd;
      valid, a := ValidateNewApp(slots[..count], operatorKey, io.world.stat, s, disk, base);
      if !valid || !io.reachable || !Builds(io.world, a.schema, a.mergedEnv) {
        return false, a;
      }
      assert a == Candidate(f, spec, io) && AddCompiles(f, spec, io);
      if |a.env| > 0 {
        ok := WriteEnvFile(a.name, a.env, io.envWrite);
        if !ok {
          return false, a;
        }
        a := a.(envFile := EnvPath(place, a.name), env := map[]);
      }
      ok := true;
    }

    /** Persist, append, route, list: the app goes live. */
    method Install(a: AppSpec)
      requires Valid()
      modifies this, reg, panel
      ensures Valid()
      ensures Fleet() == Installed(old(Fleet()), a)
    {
      if file.Some? {
        file := Some(file.value + [a]);
      }
      Append(a);
      var id := nextInstance;
      nextInstance, envs := nextInstance + 1, envs[id := a.mergedEnv];
      reg.AddApp(a.domains, CompiledApp(a.name, id, FirstOf(id)));
      panel.AddApp(PanelApp(a.name, a.domains, id, a.mergedEnv));
    }

    /** Compile, declare, go live. */
    method TryAdd(spec: AppSpec, s: AppSpec, io: AddIo) returns (ok: bool)
      requires Valid() && !RefusedEarly(spec, io) && s == Planned(spec, io)
      modifies this, reg, panel
      ensures Valid() && databases == old(databases)
      ensures var g := old(Fleet()).(disk := AddDisk(old(Fleet()), spec, io));
              && (ok <==> AddGoesThrough(old(Fleet()), spec, io))
              && Fleet() == if ok then Installed(g, Added(old(Fleet()), spec, io)) else g
    {
      ghost var f := Fleet();
      var a;
      ok, a := CompileAdd(spec, s, io);
      if !ok {
        return;
      }
      assert a.name == spec.name;
      if file.Some? && (!io.manifestOk || AppIndex(file.value, a.name) >= 0) {
        return false;
      }
      Install(a);
    }

    method AddApp(spec: AppSpec, io: AddIo) returns (ok: bool, dropped: bool)
      requires Valid()
      modifies this, reg, panel
      ensures Valid()
      ensures AddResult(Fleet(), ok, dropped) == Add(old(Fleet()), spec, io)
      ensures ok ==> RunsPlanned(old(Fleet()), spec, io, Fleet())
    {
      ghost var f := Fleet();
      var proceed, s, createdDb := PrepareAdd(spec, io);
      if !proceed {
        return false, false;
      }
      ghost var g := Fleet();
      ok := TryAdd(spec, s, io);
      dropped := false;
      if !ok {
        RollbackDb(createdDb, io);
        dropped := createdDb;
      }
      AddEnds(f, g, Fleet(), spec, io, ok);
      if ok {
        AddedRunsPlanned(f, spec, io, Fleet());
      }
    }

    /** `append(mf.Apps, *spec)`: into the free slot behind the slice, or a longer array. */
    method Append(a: AppSpec)
      requires Valid()
      modifies this`slots, this`count
      ensures Valid() && slots[..count] == old(slots[..count]) + [a]
    {
      slots := if count < |slots| then slots[count := a] else slots + [a];
      count := count + 1;
    }

    method RollbackDb(createdDb: bool, io: AddIo)
      requires createdDb ==> io.db.Some?
      modifies this`databases
      ensures databases == if createdDb && io.db.value.dropOk then old(databases) - {io.db.value.dbName}
                else old(databases)
    {
      if createdDb && io.db.value.dropOk {
        databases := databases - {io.db.value.dbName};
      }
    }

    /** The merge and the checks, before anything is written. */
    method CheckEdit(name: string, setEnv: Env, unset: seq<string>) returns (ok: bool, i: int, next: Env)
      requires Valid()
      ensures ok <==> EditAccepted(Fleet(), name, setEnv, unset)
      ensures ok ==> i == AppIndex(slots[..count], name) && next == NextEnv(slots[i].mergedEnv, setEnv, unset)
    {
      next := map[];
      i := AppByName(name);
      var oldRow := panel.ByName(name);
      if i < 0 || oldRow.None? || (setEnv == map[] && unset == []) {
        return false, i, next;
      }
      assert slots[..count][i] == slots[i];
      var merged := Overlay(slots[i].mergedEnv, setEnv);
      next := DeleteKeys(merged, unset);
      var shared := SharesSecret(slots[..count], name, Get(next, JWT_SECRET));
      ok := RequiredPresent(next) && !shared && KeyApart(operatorKey, next);
    }

    /** A write through the pointer `AppByName` returned. */
    method WriteSlot(i: nat, spec: AppSpec)
      requires Valid() && i < count
      modifies this`slots
      ensures Valid() && slots[..count] == old(slots[..count])[i := spec] && slots[i] == spec
    {
      slots := slots[i := spec];
    }

    /** Compile the fresh instance, swap it in, list it. */
    method Replace(i: nat)
      requires Valid() && i < count
      modifies this`nextInstance, this`envs, reg, panel
      ensures Valid()
      ensures Fleet() == Replaced(old(Fleet()), slots[i])
    {
      var id := nextInstance;
      nextInstance, envs := nextInstance + 1, envs[id := slots[i].mergedEnv];
      reg.AddApp(slots[i].domains, CompiledApp(slots[i].name, id, FirstOf(id)));
      panel.ReplaceApp(PanelApp(slots[i].name, slots[i].domains, id, slots[i].mergedEnv));
    }

    /** The writes of an accepted edit: the spec through the pointer, the env file, the manifest file. */
    method WriteEdit(i: nat, name: string, next: Env, io: EditIo) returns (persisted: bool)
      requires Valid() && i < count && slots[i].name == name
      modifies this`slots, this`disk, this`file
      ensures Valid() && count == old(count)
      ensures persisted <==> EditPersists(old(Fleet()), name, io)
      ensures Fleet() == EditWritten(old(Fleet()), i, next, io)
      ensures persisted ==> slots[i] == Edited(old(Fleet()), i, next)
    {
      ghost var f := Fleet();
      WriteSlot(i, slots[i].(mergedEnv := next, env := next));
      ghost var mid := Fleet();
      var wrote := WriteEnvFile(name, next, io.envWrite);
      assert WroteEnv(mid, name, next, io.envWrite) == WroteEnv(f, name, next, io.envWrite);
      if !wrote {
        return false;
      }
      WriteSlot(i, slots[i].(envFile := EnvPath(place, name), env := map[]));
      assert slots[..count] == f.apps[i := Edited(f, i, next)];
      if file.Some? {
        var k := AppIndex(file.value, name);
        if !io.manifestOk || k < 0 {
          return false;
        }
        file := Some(file.value[k := slots[i]]);
      }
      return true;
    }

    method EditApp(name: string, setEnv: Env, unset: seq<string>, io: EditIo) returns (ok: bool)
      requires Valid()
      modifies this, reg, panel
      ensures Valid()
      ensures EditResult(Fleet(), ok) == Edit(old(Fleet()), name, setEnv, unset, io)
      ensures var f := old(Fleet());
              var i, p := AppIndex(f.apps, name), PanelIndex(f.panel, name);
              && (EditAccepted(f, name, setEnv, unset) ==>
                    i < count && EnvEdited(f.apps[i].mergedEnv, setEnv, unset, slots[i].mergedEnv))
              && (ok ==>
                    && p < |panel.apps| && f.nextInstance in envs
                    && EnvEdited(f.apps[i].mergedEnv, setEnv, unset, panel.apps[p].env)
                    && EnvEdited(f.apps[i].mergedEnv, setEnv, unset, envs[f.nextInstance]))
    {
      ghost var f := Fleet();
      if EditAccepted(f, name, setEnv, unset) {
        EditedEnvIs(f, name, setEnv, unset, io);
      }
      var accepted, i, next := CheckEdit(name, setEnv, unset);
      if !accepted {
        return false;
      }
      var persisted := WriteEdit(i, name, next, io);
      if !persisted || !io.reachable || !Builds(io.world, slots[i].schema, next) {
        return false;
      }
      Replace(i);
      return true;
    }

    /** `append(mf.Apps[:i], mf.Apps[i+1:]...)`, then a read through a pointer to slot `i`. */
    method ShiftOut(i: nat) returns (domains: seq<string>)
      requires Valid() && i < count
      modifies this`slots, this`count
      ensures Valid() && slots[..count] == Without(old(slots[..count]), i)
      ensures domains == Unrouted(old(slots[..count]), i)
    {
      ghost var apps := slots[..count];
      slots := slots[..i] + slots[i + 1..count] + slots[count - 1..];
      count := count - 1;
      assert slots[..count] == Without(apps, i);
      domains := slots[i].domains;
    }

    /** The pointer `AppByName` returned is read again after the slice has shifted under it. */
    method RemoveApp(name: string, confirm: string, manifestOk: bool) returns (ok: bool, reported: seq<string>)
      requires Valid()
      modifies this, reg, panel
      ensures Valid()
      ensures RemoveResult(Fleet(), ok, reported) == Remove(old(Fleet()), name, confirm, manifestOk)
    {
      if confirm != name {
        return false, [];
      }
      var i := AppByName(name);
      var row := panel.ByName(name);
      if i < 0 || row.None? {
        return false, [];
      }
      if file.Some? {
        if !manifestOk || AppIndex(file.value, name) < 0 {
          return false, [];
        }
        file := Some(DropNamed(file.value, name));
      }
      var domains := ShiftOut(i);
      reg.RemoveApp(domains);
      panel.RemoveApp(name);
      return true, domains;
    }
  }
}
