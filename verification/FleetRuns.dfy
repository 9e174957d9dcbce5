/** Coherence of manifest, file, registry and panel over every run of lifecycle operations. */
module FleetRuns {
  import opened Text
  import opened Hosts
  import opened Manifest
  import opened Registry
  import opened Fleet

  /** Slot `i` of the manifest is slot `i` of the panel, and its domains route to that instance. */
  ghost predicate SlotOk(f: State, i: nat) {
    && i < |f.apps| && i < |f.panel|
    && var a, p := f.apps[i], f.panel[i];
    && p.name == a.name && p.domains == a.domains && p.instance < f.nextInstance
    && |a.domains| > 0
    && forall d :: d in a.domains ==> Lower(d) == d && RoutesTo(f.table, d, a.name, p.instance)
  }

  ghost predicate RoutesTo(table: Table, d: string, name: string, instance: nat) {
    d in table && table[d].name == name && table[d].instance == instance
  }

  ghost predicate Apart(f: State, i: nat, j: nat) {
    && i < |f.apps| && j < |f.apps| && i < |f.panel| && j < |f.panel|
    && f.apps[i].name != f.apps[j].name
    && Disjoint(f.apps[i].domains, f.apps[j].domains)
    && f.panel[i].instance != f.panel[j].instance
  }

  ghost predicate Owned(f: State, d: string) {
    exists i :: 0 <= i < |f.apps| && d in f.apps[i].domains
  }

  ghost predicate SameEntry(e: AppSpec, a: AppSpec) {
    e.name == a.name && e.schema == a.schema && e.domains == a.domains
  }

  ghost predicate FileMatches(f: State) {
    f.file.Some? ==>
      && |f.file.value| == |f.apps|
      && forall i :: 0 <= i < |f.apps| ==> SameEntry(f.file.value[i], f.apps[i])
  }

  /**
   * Panel rows are the manifest apps, names and domains are unique, the registry holds exactly
   * the domains of the apps, each routed to the instance on its panel row, and the file declares
   * the same apps.
   */
  ghost predicate Coherent(f: State) {
    && |f.panel| == |f.apps|
    && (forall i :: 0 <= i < |f.apps| ==> SlotOk(f, i))
    && (forall i, j :: 0 <= i < |f.apps| && 0 <= j < |f.apps| && i != j ==> Apart(f, i, j))
    && (forall d :: d in f.table ==> Owned(f, d))
    && FileMatches(f)
  }

  // Adding.

  lemma LowercaseAll(ds: seq<string>)
    requires forall d :: d in ds ==> Lower(d) == d
    ensures forall d :: d in LowerAll(ds) <==> d in ds
  {
  }

  lemma NormalDomainsAreLowercase(ds: seq<string>)
    ensures forall d :: d in NormalAll(ds) ==> Lower(d) == d
  {
    forall d | d in NormalAll(ds) ensures Lower(d) == d {
      var i :| 0 <= i < |ds| && d == NormalAll(ds)[i];
      LowerIdempotent(TrimSpace(ds[i]));
    }
  }

  /** Routing new domains of one slot leaves every slot with other domains as it was. */
  lemma PutKeepsOthers(table: Table, ds: seq<string>, app: CompiledApp, es: seq<string>, name: string, instance: nat)
    requires forall d :: d in ds ==> Lower(d) == d
    requires Disjoint(es, ds)
    requires forall d :: d in es ==> RoutesTo(table, d, name, instance)
    ensures forall d :: d in es ==> RoutesTo(Put(table, ds, app), d, name, instance)
    ensures forall d :: d in ds ==> RoutesTo(Put(table, ds, app), d, app.name, app.instance)
  {
    LowercaseAll(ds);
  }

  lemma InstalledSlotOk(f: State, a: AppSpec, i: nat)
    requires Coherent(f) && DomainsFree(f.apps, a.domains) && |a.domains| > 0 && i <= |f.apps|
    requires forall d :: d in a.domains ==> Lower(d) == d
    ensures SlotOk(Installed(f, a), i)
  {
    var g, app := Installed(f, a), CompiledApp(a.name, f.nextInstance, FirstOf(f.nextInstance));
    LowercaseAll(a.domains);
    if i < |f.apps| {
      assert SlotOk(f, i);
      assert g.apps[i] == f.apps[i] && g.panel[i] == f.panel[i];
      PutKeepsOthers(f.table, a.domains, app, f.apps[i].domains, f.apps[i].name, f.panel[i].instance);
    }
  }

  lemma InstalledIsCoherent(f: State, a: AppSpec)
    requires Coherent(f)
    requires NameFree(f.apps, a.name) && DomainsFree(f.apps, a.domains) && |a.domains| > 0
    requires forall d :: d in a.domains ==> Lower(d) == d
    ensures Coherent(Installed(f, a))
  {
    var g, n := Installed(f, a), |f.apps|;
    LowercaseAll(a.domains);
    forall i | 0 <= i < |g.apps| ensures SlotOk(g, i) {
      InstalledSlotOk(f, a, i);
    }
    forall i, j | 0 <= i < |g.apps| && 0 <= j < |g.apps| && i != j ensures Apart(g, i, j) {
      if i < n && j < n {
        assert Apart(f, i, j);
      } else {
        var k := if i < n then i else j;
        assert SlotOk(f, k) && Disjoint(f.apps[k].domains, a.domains);
      }
    }
    forall d | d in g.table ensures Owned(g, d) {
      if d in a.domains {
        assert d in g.apps[n].domains;
      } else {
        assert d in f.table && Owned(f, d);
        var i :| 0 <= i < n && d in f.apps[i].domains;
        assert d in g.apps[i].domains;
      }
    }
  }

  lemma AddKeepsCoherent(f: State, spec: AppSpec, io: AddIo)
    requires Coherent(f)
    ensures Coherent(Add(f, spec, io).fleet)
  {
    var r := Add(f, spec, io);
    if r.ok {
      AddSucceeds(f, spec, io);
      var a := Added(f, spec, io);
      NormalAllIdempotent(spec.domains);
      NormalDomainsAreLowercase(spec.domains);
      InstalledIsCoherent(f, a);
      CoherentIgnoresDisk(Installed(f, a), r.fleet);
    } else {
      AddFails(f, spec, io);
      CoherentIgnoresDisk(f, r.fleet);
    }
  }

  lemma CoherentIgnoresDisk(f: State, g: State)
    requires Coherent(f) && g == f.(databases := g.databases, disk := g.disk)
    ensures Coherent(g)
  {
    forall i | 0 <= i < |g.apps| ensures SlotOk(g, i) {
      assert SlotOk(f, i);
    }
    forall i, j | 0 <= i < |g.apps| && 0 <= j < |g.apps| && i != j ensures Apart(g, i, j) {
      assert Apart(f, i, j);
    }
    forall d | d in g.table ensures Owned(g, d) {
      assert Owned(f, d);
    }
  }

  /** A failed add leaves manifest, file, registry and panel alone, and drops only what it created. */
  lemma FailedAddLeavesNoTrace(f: State, spec: AppSpec, io: AddIo)
    requires !Add(f, spec, io).ok
    ensures var r := Add(f, spec, io);
            && r.fleet == f.(databases := r.fleet.databases, disk := r.fleet.disk)
            && (r.dropped <==> !RefusedEarly(spec, io) && CreatesFresh(f, io))
            && (!r.dropped ==> r.fleet.databases == f.databases)
            && (r.dropped && io.db.value.dropOk ==> r.fleet.databases == f.databases)
  {
    if !RefusedEarly(spec, io) && !CreatesFresh(f, io) && Created(io) != {} {
      assert f.databases + Created(io) == f.databases;
    }
  }

  /** It touches no file but the one generated for its name, and that one only when it has entries for it. */
  lemma FailedAddTouchesOneFile(f: State, spec: AppSpec, io: AddIo)
    requires !Add(f, spec, io).ok
    ensures var disk := Add(f, spec, io).fleet.disk;
            && (!AddWrites(f, spec, io) ==> disk == f.disk)
            && forall p :: p != WritesTo(f.place, spec.name) ==>
                (p in disk <==> p in f.disk) && (p in disk ==> disk[p] == f.disk[p])
  {
    if AddWrites(f, spec, io) {
      WriteTouchesOneFile(f, spec.name, Planned(spec, io).env, io.envWrite);
    }
  }

  // Editing.

  lemma IndicesAgree(f: State, name: string)
    requires Coherent(f)
    ensures AppIndex(f.apps, name) == PanelIndex(f.panel, name)
    ensures f.file.Some? ==> AppIndex(f.file.value, name) == AppIndex(f.apps, name)
  {
    var i, j := AppIndex(f.apps, name), PanelIndex(f.panel, name);
    if i >= 0 {
      assert SlotOk(f, i);
      assert forall k :: 0 <= k < i ==> SlotOk(f, k);
    }
    if j >= 0 {
      assert SlotOk(f, j);
      assert forall k :: 0 <= k < j ==> SlotOk(f, k);
    }
    if f.file.Some? {
      assert forall k :: 0 <= k < |f.apps| ==> SameEntry(f.file.value[k], f.apps[k]);
    }
  }

  /** Changing the env of one app changes nothing coherence speaks of. */
  lemma EnvChangeKeepsCoherent(f: State, i: nat, spec: AppSpec, file: Option<seq<AppSpec>>)
    requires Coherent(f) && i < |f.apps| && SameEntry(spec, f.apps[i])
    requires file.Some? <==> f.file.Some?
    requires file.Some? ==> file.value == f.file.value || file.value == f.file.value[i := spec]
    ensures Coherent(f.(apps := f.apps[i := spec], file := file))
  {
    var g := f.(apps := f.apps[i := spec], file := file);
    forall k | 0 <= k < |g.apps| ensures SlotOk(g, k) {
      assert SlotOk(f, k);
    }
    forall k, l | 0 <= k < |g.apps| && 0 <= l < |g.apps| && k != l ensures Apart(g, k, l) {
      assert Apart(f, k, l);
    }
    forall d | d in g.table ensures Owned(g, d) {
      assert Owned(f, d);
      var k :| 0 <= k < |f.apps| && d in f.apps[k].domains;
      assert d in g.apps[k].domains;
    }
  }

  lemma ReplacedIsCoherent(f: State, i: nat)
    requires Coherent(f) && i < |f.apps|
    ensures PanelIndex(f.panel, f.apps[i].name) == i
    ensures Coherent(Replaced(f, f.apps[i]))
  {
    var a, g := f.apps[i], Replaced(f, f.apps[i]);
    var app := CompiledApp(a.name, f.nextInstance, FirstOf(f.nextInstance));
    assert SlotOk(f, i);
    forall k | 0 <= k < |f.apps| && k != i ensures f.panel[k].name != a.name {
      assert SlotOk(f, k) && Apart(f, k, i);
    }
    assert g.panel == f.panel[i := PanelApp(a.name, a.domains, f.nextInstance, a.mergedEnv)];
    LowercaseAll(a.domains);
    forall k | 0 <= k < |g.apps| ensures SlotOk(g, k) {
      assert SlotOk(f, k);
      if k != i {
        assert Apart(f, k, i);
        PutKeepsOthers(f.table, a.domains, app, f.apps[k].domains, f.apps[k].name, f.panel[k].instance);
      }
    }
    forall k, l | 0 <= k < |g.apps| && 0 <= l < |g.apps| && k != l ensures Apart(g, k, l) {
      assert Apart(f, k, l) && SlotOk(f, k) && SlotOk(f, l);
    }
    forall d | d in g.table ensures Owned(g, d) {
      if d in a.domains {
        assert d in g.apps[i].domains;
      } else {
        assert Owned(f, d);
        var k :| 0 <= k < |f.apps| && d in f.apps[k].domains;
        assert d in g.apps[k].domains;
      }
    }
  }

  lemma EditKeepsCoherent(f: State, name: string, setEnv: Env, unset: seq<string>, io: EditIo)
    requires Coherent(f)
    ensures Coherent(Edit(f, name, setEnv, unset, io).fleet)
  {
    if EditAccepted(f, name, setEnv, unset) {
      var i := AppIndex(f.apps, name);
      var next := NextEnv(f.apps[i].mergedEnv, setEnv, unset);
      IndicesAgree(f, name);
      if !io.envWrite.Wrote? {
        EnvChangeKeepsCoherent(f, i, f.apps[i].(mergedEnv := next, env := next), f.file);
      } else {
        var spec := Edited(f, i, next);
        EnvChangeKeepsCoherent(f, i, spec, f.file);
        var file := FileReplaced(f.file, name, spec);
        EnvChangeKeepsCoherent(f, i, spec, file);
        var h := f.(apps := f.apps[i := spec], file := file, disk := WroteEnv(f, name, next, io.envWrite));
        CoherentIgnoresDisk(f.(apps := f.apps[i := spec], file := file), h);
        assert h.apps[i] == spec;
        ReplacedIsCoherent(h, i);
      }
      EditCases(f, name, setEnv, unset, io);
    }
  }

  /** The three states an accepted edit can end in. */
  lemma EditCases(f: State, name: string, setEnv: Env, unset: seq<string>, io: EditIo)
    requires Coherent(f) && EditAccepted(f, name, setEnv, unset)
    requires var i := AppIndex(f.apps, name);
             var next := NextEnv(f.apps[i].mergedEnv, setEnv, unset);
             if !io.envWrite.Wrote? then
               Coherent(f.(apps := f.apps[i := f.apps[i].(mergedEnv := next, env := next)], file := f.file))
             else
               var spec := Edited(f, i, next);
               var h := f.(apps := f.apps[i := spec], file := FileReplaced(f.file, name, spec),
                          disk := WroteEnv(f, name, next, io.envWrite));
               && Coherent(f.(apps := f.apps[i := spec], file := f.file))
               && Coherent(h) && Coherent(Replaced(h, spec))
    ensures Coherent(Edit(f, name, setEnv, unset, io).fleet)
  {
    var i := AppIndex(f.apps, name);
    var next := NextEnv(f.apps[i].mergedEnv, setEnv, unset);
    var g := Edit(f, name, setEnv, unset, io).fleet;
    if !io.envWrite.Wrote? {
      CoherentIgnoresDisk(f.(apps := f.apps[i := f.apps[i].(mergedEnv := next, env := next)], file := f.file), g);
    } else if !EditPersists(f, name, io) {
      CoherentIgnoresDisk(f.(apps := f.apps[i := Edited(f, i, next)], file := f.file), g);
    }
  }

  /** A failed edit leaves registry and panel alone; refused before the write, it leaves everything alone. */
  lemma FailedEditKeepsLiveState(f: State, name: string, setEnv: Env, unset: seq<string>, io: EditIo)
    requires !Edit(f, name, setEnv, unset, io).ok
    ensures var g := Edit(f, name, setEnv, unset, io).fleet;
            && g.table == f.table && g.panel == f.panel && g.databases == f.databases
            && (EditAccepted(f, name, setEnv, unset) ==>
                  var i := AppIndex(f.apps, name);
                  && g.apps[i].mergedEnv == NextEnv(f.apps[i].mergedEnv, setEnv, unset)
                  && g.apps == f.apps[i := g.apps[i]])
            && (!EditAccepted(f, name, setEnv, unset) ==> g == f)
  {
    FailedEditLeaves(f, name, setEnv, unset, io);
    if EditAccepted(f, name, setEnv, unset) {
      EditChangesOneApp(f, name, setEnv, unset, io);
    }
  }

  // Removing.

  /** A successful removal of an app that is not the last one. */
  predicate Misdirected(f: State, name: string, confirm: string, manifestOk: bool) {
    RemoveAccepted(f, name, confirm, manifestOk) && AppIndex(f.apps, name) + 1 < |f.apps|
  }

  lemma {:induction false} DropNamedOnce(apps: seq<AppSpec>, i: nat)
    requires i < |apps| && forall k :: 0 <= k < |apps| && k != i ==> apps[k].name != apps[i].name
    ensures DropNamed(apps, apps[i].name) == Without(apps, i)
    decreases |apps|
  {
    var n, name := |apps| - 1, apps[i].name;
    if i == n {
      DropNamedNone(apps[..n], name);
      assert Without(apps, i) == apps[..n];
    } else {
      DropNamedOnce(apps[..n], i);
      assert Without(apps, i) == Without(apps[..n], i) + [apps[n]];
    }
  }

  lemma {:induction false} DropNamedNone(apps: seq<AppSpec>, name: string)
    requires NameFree(apps, name)
    ensures DropNamed(apps, name) == apps
    decreases |apps|
  {
    if apps != [] {
      DropNamedNone(apps[..|apps| - 1], name);
      assert apps == apps[..|apps| - 1] + [apps[|apps| - 1]];
    }
  }

  lemma WithoutAt<T>(s: seq<T>, i: nat, k: nat)
    requires i < |s| && k < |s| - 1
    ensures |Without(s, i)| == |s| - 1 && Without(s, i)[k] == s[if k < i then k else k + 1]
  {
  }

  /** Where slot `k` of the fleet without app `i` was before. */
  function Was(i: nat, k: nat): nat {
    if k < i then k else k + 1
  }

  lemma RemovedFileMatches(f: State, i: nat, domains: seq<string>)
    requires Coherent(f) && i < |f.apps|
    ensures FileMatches(Removed(f, i, domains))
  {
    if f.file.Some? {
      var file := f.file.value;
      forall k | 0 <= k < |file| && k != i ensures file[k].name != file[i].name {
        assert SameEntry(file[k], f.apps[k]) && SameEntry(file[i], f.apps[i]) && Apart(f, k, i);
      }
      assert SameEntry(file[i], f.apps[i]);
      DropNamedOnce(file, i);
      forall k | 0 <= k < |f.apps| - 1 ensures SameEntry(Without(file, i)[k], Without(f.apps, i)[k]) {
        WithoutAt(file, i, k);
        WithoutAt(f.apps, i, k);
        assert SameEntry(file[Was(i, k)], f.apps[Was(i, k)]);
      }
    }
  }

  /** The fleet without app `i`, slot by slot. */
  lemma RemovedSlots(f: State, i: nat, k: nat)
    requires Coherent(f) && i < |f.apps| && k < |f.apps| - 1
    ensures var g := Removed(f, i, f.apps[i].domains);
            && |g.apps| == |f.apps| - 1 && |g.panel| == |f.panel| - 1
            && g.apps[k] == f.apps[Was(i, k)] && g.panel[k] == f.panel[Was(i, k)]
  {
    IndicesAgree(f, f.apps[i].name);
    NamesIndex(f, i);
    WithoutAt(f.apps, i, k);
    WithoutAt(f.panel, i, k);
  }

  lemma RemovedSlotOk(f: State, i: nat, k: nat)
    requires Coherent(f) && i < |f.apps| && k < |f.apps| - 1
    ensures SlotOk(Removed(f, i, f.apps[i].domains), k)
  {
    RemovedSlots(f, i, k);
    assert SlotOk(f, i) && SlotOk(f, Was(i, k)) && Apart(f, Was(i, k), i);
    LowercaseAll(f.apps[i].domains);
  }

  lemma RemovedOwned(f: State, i: nat, d: string)
    requires Coherent(f) && i < |f.apps| && d in Removed(f, i, f.apps[i].domains).table
    ensures Owned(Removed(f, i, f.apps[i].domains), d)
  {
    assert SlotOk(f, i);
    LowercaseAll(f.apps[i].domains);
    assert Owned(f, d);
    var j :| 0 <= j < |f.apps| && d in f.apps[j].domains;
    assert j != i;
    var k := if j < i then j else j - 1;
    RemovedSlots(f, i, k);
  }

  /** Removing any app is clean when its own domains are the ones that go. */
  lemma RemovingOwnDomainsIsCoherent(f: State, i: nat)
    requires Coherent(f) && i < |f.apps|
    ensures Coherent(Removed(f, i, f.apps[i].domains))
  {
    var g := Removed(f, i, f.apps[i].domains);
    IndicesAgree(f, f.apps[i].name);
    NamesIndex(f, i);
    RemovedFileMatches(f, i, f.apps[i].domains);
    forall k | 0 <= k < |g.apps| ensures SlotOk(g, k) {
      RemovedSlotOk(f, i, k);
    }
    forall k, l | 0 <= k < |g.apps| && 0 <= l < |g.apps| && k != l ensures Apart(g, k, l) {
      RemovedSlots(f, i, k);
      RemovedSlots(f, i, l);
      assert Apart(f, Was(i, k), Was(i, l));
    }
    forall d | d in g.table ensures Owned(g, d) {
      RemovedOwned(f, i, d);
    }
  }

  lemma NamesIndex(f: State, i: nat)
    requires Coherent(f) && i < |f.apps|
    ensures AppIndex(f.apps, f.apps[i].name) == i
  {
    forall k | 0 <= k < |f.apps| && k != i ensures f.apps[k].name != f.apps[i].name {
      assert Apart(f, k, i);
    }
  }

  /** Had `RemoveApp` copied the domains before it shifts the slice, every removal would be clean. */
  lemma CapturedRemoveKeepsCoherent(f: State, name: string, confirm: string, manifestOk: bool)
    requires Coherent(f) && RemoveAccepted(f, name, confirm, manifestOk)
    ensures var i := AppIndex(f.apps, name); Coherent(Removed(f, i, f.apps[i].domains))
  {
    RemovingOwnDomainsIsCoherent(f, AppIndex(f.apps, name));
  }

  /** Removing the last app, whose pointer still shows it, is clean. */
  lemma RemoveLastIsCoherent(f: State, name: string, confirm: string, manifestOk: bool)
    requires Coherent(f) && RemoveAccepted(f, name, confirm, manifestOk)
    requires AppIndex(f.apps, name) == |f.apps| - 1
    ensures Coherent(Remove(f, name, confirm, manifestOk).fleet)
  {
    RemovingOwnDomainsIsCoherent(f, |f.apps| - 1);
  }

  /**
   * Removing any other app takes the wrong domains away: those of the next app fall to the
   * unmatched handler although it stays in the fleet, and those of the removed app keep routing
   * to its retired instance.
   */
  lemma RemoveUnroutesTheNextApp(f: State, name: string, confirm: string, manifestOk: bool)
    requires Coherent(f) && Misdirected(f, name, confirm, manifestOk)
    ensures var r, i := Remove(f, name, confirm, manifestOk), AppIndex(f.apps, name);
            && r.reported == f.apps[i + 1].domains
            && r.fleet.apps[i] == f.apps[i + 1]
            && (forall d :: d in f.apps[i + 1].domains ==> d !in r.fleet.table)
            && (forall d :: d in f.apps[i].domains ==> RoutesTo(r.fleet.table, d, name, f.panel[i].instance))
            && (forall d :: d in f.apps[i].domains ==> !Owned(r.fleet, d))
  {
    var i := AppIndex(f.apps, name);
    var r := Remove(f, name, confirm, manifestOk);
    assert SlotOk(f, i) && SlotOk(f, i + 1) && Apart(f, i, i + 1);
    LowercaseAll(f.apps[i + 1].domains);
    forall d | d in f.apps[i].domains ensures !Owned(r.fleet, d) {
      forall k | 0 <= k < |r.fleet.apps| ensures d !in r.fleet.apps[k].domains {
        assert k < i ==> r.fleet.apps[k] == f.apps[k] && Apart(f, i, k);
        assert k >= i ==> r.fleet.apps[k] == f.apps[k + 1] && Apart(f, i, k + 1);
      }
    }
  }

  /** A removal keeps the fleet coherent if and only if it does not hit an app before the last. */
  lemma RemoveCoherentIffLast(f: State, name: string, confirm: string, manifestOk: bool)
    requires Coherent(f)
    ensures Coherent(Remove(f, name, confirm, manifestOk).fleet) <==> !Misdirected(f, name, confirm, manifestOk)
  {
    if Misdirected(f, name, confirm, manifestOk) {
      RemoveUnroutesTheNextApp(f, name, confirm, manifestOk);
      var i := AppIndex(f.apps, name);
      var g := Remove(f, name, confirm, manifestOk).fleet;
      assert SlotOk(f, i);
      var d := f.apps[i].domains[0];
      assert d in f.apps[i].domains && RoutesTo(g.table, d, name, f.panel[i].instance);
      assert d in g.table && !Owned(g, d);
    } else if RemoveAccepted(f, name, confirm, manifestOk) {
      RemoveLastIsCoherent(f, name, confirm, manifestOk);
    }
  }

  // Runs.

  datatype Op =
    | AddOp(spec: AppSpec, addIo: AddIo)
    | EditOp(name: string, setEnv: Env, unset: seq<string>, editIo: EditIo)
    | RemoveOp(name: string, confirm: string, manifestOk: bool)

  ghost function Step(f: State, op: Op): State {
    match op
    case AddOp(spec, io) => Add(f, spec, io).fleet
    case EditOp(name, setEnv, unset, io) => Edit(f, name, setEnv, unset, io).fleet
    case RemoveOp(name, confirm, ok) => Remove(f, name, confirm, ok).fleet
  }

  ghost function Run(f: State, ops: seq<Op>): State
    decreases |ops|
  {
    if ops == [] then f else Run(Step(f, ops[0]), ops[1..])
  }

  /** No operation of the run removes an app before the last. */
  ghost predicate RemovesOnlyLast(f: State, ops: seq<Op>)
    decreases |ops|
  {
    ops == [] || (!Misdirects(f, ops[0]) && RemovesOnlyLast(Step(f, ops[0]), ops[1..]))
  }

  ghost predicate Misdirects(f: State, op: Op) {
    op.RemoveOp? && Misdirected(f, op.name, op.confirm, op.manifestOk)
  }

  /** One operation, successful or failed, keeps coherence exactly when it is not a misdirected removal. */
  lemma StepCoherentIff(f: State, op: Op)
    requires Coherent(f)
    ensures Coherent(Step(f, op)) <==> !Misdirects(f, op)
  {
    match op
    case AddOp(spec, io) => AddKeepsCoherent(f, spec, io);
    case EditOp(name, setEnv, unset, io) => EditKeepsCoherent(f, name, setEnv, unset, io);
    case RemoveOp(name, confirm, ok) => RemoveCoherentIffLast(f, name, confirm, ok);
  }

  lemma {:induction false} RunKeepsCoherent(f: State, ops: seq<Op>)
    requires Coherent(f) && RemovesOnlyLast(f, ops)
    ensures Coherent(Run(f, ops))
    decreases |ops|
  {
    if ops != [] {
      StepCoherentIff(f, ops[0]);
      RunKeepsCoherent(Step(f, ops[0]), ops[1..]);
    }
  }

  // The other reading of the removal.

  /** An operation, with the domains of a removal copied before the slice shifts. */
  ghost function StepCaptured(f: State, op: Op): State {
    if op.RemoveOp? && RemoveAccepted(f, op.name, op.confirm, op.manifestOk)
    then var i := AppIndex(f.apps, op.name); Removed(f, i, f.apps[i].domains)
    else Step(f, op)
  }

  ghost function RunCaptured(f: State, ops: seq<Op>): State
    decreases |ops|
  {
    if ops == [] then f else RunCaptured(StepCaptured(f, ops[0]), ops[1..])
  }

  /** Read that way, every run of operations, successful or failed, stays coherent. */
  lemma {:induction false} RunCapturedKeepsCoherent(f: State, ops: seq<Op>)
    requires Coherent(f)
    ensures Coherent(RunCaptured(f, ops))
    decreases |ops|
  {
    if ops != [] {
      var op := ops[0];
      if op.RemoveOp? && RemoveAccepted(f, op.name, op.confirm, op.manifestOk) {
        CapturedRemoveKeepsCoherent(f, op.name, op.confirm, op.manifestOk);
      } else {
        StepCoherentIff(f, op);
      }
      RunCapturedKeepsCoherent(StepCaptured(f, op), ops[1..]);
    }
  }

  /** The two readings agree exactly as long as no app before the last is removed. */
  lemma {:induction false} ReadingsAgree(f: State, ops: seq<Op>)
    requires RemovesOnlyLast(f, ops)
    ensures RunCaptured(f, ops) == Run(f, ops)
    decreases |ops|
  {
    if ops != [] {
      assert StepCaptured(f, ops[0]) == Step(f, ops[0]);
      ReadingsAgree(Step(f, ops[0]), ops[1..]);
    }
  }
}
