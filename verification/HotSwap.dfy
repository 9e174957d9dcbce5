/**
 * Schema hot swaps (`wireHotSwap`, multiapp.go) racing the lifecycle operations.
 *
 * A hot swap holds only its own instance's mutex, so it can straddle any number of lifecycle
 * operations. An operation is one step here: a hot swap touches nothing but the registry table,
 * and each operation publishes to that table once, so every other interleaving leaves the same
 * four states as one of the interleavings below.
 */
module HotSwap {
  import opened Text
  import opened Hosts
  import opened Manifest
  import opened Registry
  import opened Fleet
  import opened FleetRuns

  /** What the hot-swap closure of an instance captured when it was wired. */
  datatype Wiring = Wiring(name: string, domains: seq<string>)

  /**
   * `pending` are the instances between the start of `rebuildRouter` and `SwapApp`, `routers` how
   * many rebuilt routers were published so far.
   */
  datatype Swaps = Swaps(fleet: State, wired: map<nat, Wiring>, pending: set<nat>, routers: nat)

  datatype Event =
    | Life(op: Op)
    | SwapBegin(id: nat)
    | SwapEnd(id: nat, rebuilt: bool)

  /** The closure wired by an operation that compiled an instance. */
  ghost function NewWiring(f: State, op: Op): map<nat, Wiring> {
    match op
    case AddOp(spec, io) =>
      if Add(f, spec, io).ok then
        AddSucceeds(f, spec, io);
        map[f.nextInstance := Wiring(Added(f, spec, io).name, Added(f, spec, io).domains)]
      else map[]
    case EditOp(name, setEnv, unset, io) =>
      if Edit(f, name, setEnv, unset, io).ok then
        map[f.nextInstance := Wiring(name, f.apps[AppIndex(f.apps, name)].domains)]
      else map[]
    case RemoveOp(_, _, _) => map[]
  }

  ghost function After(s: Swaps, e: Event): Swaps {
    match e
    case Life(op) => s.(fleet := Step(s.fleet, op), wired := s.wired + NewWiring(s.fleet, op))
    case SwapBegin(id) => if id in s.wired then s.(pending := s.pending + {id}) else s
    case SwapEnd(id, rebuilt) =>
      if id !in s.pending || id !in s.wired then s
      else if !rebuilt then s.(pending := s.pending - {id})
      else Published(s, id)
  }

  /** `SwapApp` inserts whatever the table holds by now. */
  function Published(s: Swaps, id: nat): Swaps
    requires id in s.wired
  {
    var w := s.wired[id];
    s.(fleet := s.fleet.(table := Put(s.fleet.table, w.domains, CompiledApp(w.name, id, Rebuilt(s.routers)))),
       pending := s.pending - {id},
       routers := s.routers + 1)
  }

  ghost function Final(s: Swaps, es: seq<Event>): Swaps
    decreases |es|
  {
    if es == [] then s else Final(After(s, es[0]), es[1..])
  }

  /** The instance is on the panel. */
  ghost predicate Live(f: State, id: nat) {
    exists i :: 0 <= i < |f.panel| && f.panel[i].instance == id
  }

  ghost predicate Wired(s: Swaps) {
    && (forall i :: 0 <= i < |s.fleet.panel| ==> RowWired(s.wired, s.fleet.panel[i]))
    && (forall id :: id in s.wired ==>
          && id < s.fleet.nextInstance
          && |s.wired[id].domains| > 0
          && forall d :: d in s.wired[id].domains ==> Lower(d) == d)
    && s.pending <= s.wired.Keys
  }

  ghost predicate RowWired(wired: map<nat, Wiring>, row: PanelApp) {
    row.instance in wired && wired[row.instance] == Wiring(row.name, row.domains)
  }

  ghost predicate Inv(s: Swaps) {
    Coherent(s.fleet) && Wired(s)
  }

  // One hot swap.

  /** In a coherent fleet a routed domain belongs to an app of the manifest and to its live instance. */
  lemma RoutedIsLive(f: State, d: string)
    requires Coherent(f) && d in f.table
    ensures Owned(f, d) && Live(f, f.table[d].instance)
  {
    var i :| 0 <= i < |f.apps| && d in f.apps[i].domains;
    assert SlotOk(f, i);
  }

  /** The end of a swap leaves a coherent fleet if and only if its instance is still on the panel. */
  lemma SwapEndCoherentIffLive(s: Swaps, id: nat)
    requires Inv(s) && id in s.pending
    ensures Coherent(Published(s, id).fleet) <==> Live(s.fleet, id)
  {
    var f, g, w := s.fleet, Published(s, id).fleet, s.wired[id];
    LowercaseAll(w.domains);
    if Live(f, id) {
      var i :| 0 <= i < |f.panel| && f.panel[i].instance == id;
      assert RowWired(s.wired, f.panel[i]);
      SwapOfLiveIsCoherent(f, i, Rebuilt(s.routers));
    } else {
      var d := w.domains[0];
      assert d in w.domains;
      assert d in g.table && g.table[d].instance == id;
      if Coherent(g) {
        RoutedIsLive(g, d);
      }
    }
  }

  lemma SwapOfLiveIsCoherent(f: State, i: nat, router: Router)
    requires Coherent(f) && i < |f.panel|
    ensures var p := f.panel[i];
            Coherent(f.(table := Put(f.table, p.domains, CompiledApp(p.name, p.instance, router))))
  {
    var p := f.panel[i];
    var app := CompiledApp(p.name, p.instance, router);
    var g := f.(table := Put(f.table, p.domains, app));
    assert SlotOk(f, i);
    LowercaseAll(p.domains);
    forall k | 0 <= k < |g.apps| ensures SlotOk(g, k) {
      SwapKeepsSlot(f, i, app, k);
    }
    forall k, l | 0 <= k < |g.apps| && 0 <= l < |g.apps| && k != l ensures Apart(g, k, l) {
      assert Apart(f, k, l);
    }
    forall d | d in g.table ensures Owned(g, d) {
      SwapKeepsOwned(f, i, app, d);
    }
  }

  lemma SwapKeepsSlot(f: State, i: nat, app: CompiledApp, k: nat)
    requires Coherent(f) && i < |f.apps| && k < |f.apps|
    requires app.name == f.panel[i].name && app.instance == f.panel[i].instance
    ensures SlotOk(f.(table := Put(f.table, f.panel[i].domains, app)), k)
  {
    assert SlotOk(f, i) && SlotOk(f, k);
    LowercaseAll(f.panel[i].domains);
    if k != i {
      assert Apart(f, k, i);
      PutKeepsOthers(f.table, f.panel[i].domains, app, f.apps[k].domains, f.apps[k].name, f.panel[k].instance);
    }
  }

  lemma SwapKeepsOwned(f: State, i: nat, app: CompiledApp, d: string)
    requires Coherent(f) && i < |f.apps| && d in Put(f.table, f.panel[i].domains, app)
    ensures Owned(f.(table := Put(f.table, f.panel[i].domains, app)), d)
  {
    assert SlotOk(f, i);
    LowercaseAll(f.panel[i].domains);
    if d in f.panel[i].domains {
      assert d in f.apps[i].domains;
    } else {
      assert d in f.table && Owned(f, d);
    }
  }

  // The routers.

  /** A first router serves its own instance, and every rebuilt one was counted. */
  ghost predicate RouterOk(s: Swaps, e: CompiledApp) {
    match e.router
    case FirstOf(i) => i == e.instance < s.fleet.nextInstance
    case Rebuilt(n) => n < s.routers
  }

  ghost predicate RoutersOk(s: Swaps) {
    forall d :: d in s.fleet.table ==> RouterOk(s, s.fleet.table[d])
  }

  /** The entries of `g` are those of `f`, or belong to a fresh instance with the router it was compiled with. */
  ghost predicate EntriesFollow(f: State, g: State) {
    && f.nextInstance <= g.nextInstance
    && forall d :: d in g.table ==>
         || (d in f.table && g.table[d] == f.table[d])
         || (g.table[d].router == FirstOf(f.nextInstance) && g.table[d].instance == f.nextInstance < g.nextInstance)
  }

  lemma AddBuildsFirstRouter(f: State, spec: AppSpec, io: AddIo)
    ensures EntriesFollow(f, Add(f, spec, io).fleet)
  {
    if Add(f, spec, io).ok {
      AddSucceeds(f, spec, io);
      var g := Installed(f, Added(f, spec, io));
      assert EntriesFollow(f, g);
    } else {
      AddFails(f, spec, io);
    }
  }

  lemma EditBuildsFirstRouter(f: State, name: string, setEnv: Env, unset: seq<string>, io: EditIo)
    ensures EntriesFollow(f, Edit(f, name, setEnv, unset, io).fleet)
  {
    if !Edit(f, name, setEnv, unset, io).ok {
      FailedEditLeaves(f, name, setEnv, unset, io);
    }
  }

  lemma LifeBuildsFirstRouters(f: State, op: Op)
    ensures EntriesFollow(f, Step(f, op))
  {
    match op
    case AddOp(spec, io) => AddBuildsFirstRouter(f, spec, io);
    case EditOp(name, setEnv, unset, io) => EditBuildsFirstRouter(f, name, setEnv, unset, io);
    case RemoveOp(_, _, _) =>
  }

  /** No event, breaking or not, reuses a router for another instance or an uncounted one. */
  lemma StepKeepsRouters(s: Swaps, e: Event)
    requires RoutersOk(s)
    ensures RoutersOk(After(s, e)) && s.routers <= After(s, e).routers
  {
    if e.Life? {
      LifeBuildsFirstRouters(s.fleet, e.op);
    }
  }

  lemma {:induction false} RunKeepsRouters(s: Swaps, es: seq<Event>)
    requires RoutersOk(s)
    ensures RoutersOk(Final(s, es)) && s.routers <= Final(s, es).routers
    decreases |es|
  {
    if es != [] {
      StepKeepsRouters(s, es[0]);
      RunKeepsRouters(After(s, es[0]), es[1..]);
    }
  }

  /**
   * The end of a swap: every domain of the instance goes to one rebuilt router, every other domain
   * keeps its entry, and nothing but the table changes. A failed rebuild only ends the swap.
   */
  lemma SwapServesRebuiltRouter(s: Swaps, id: nat)
    requires id in s.pending && id in s.wired
    ensures After(s, SwapEnd(id, false)) == s.(pending := s.pending - {id})
    ensures After(s, SwapEnd(id, true)).pending == s.pending - {id}
    ensures var w, g := s.wired[id], After(s, SwapEnd(id, true)).fleet;
            && g == s.fleet.(table := g.table)
            && (exists n :: forall d :: d in w.domains ==>
                  Lower(d) in g.table && g.table[Lower(d)] == CompiledApp(w.name, id, Rebuilt(n)))
            && (forall d :: (forall e :: e in w.domains ==> Lower(e) != d) ==>
                  (d in g.table <==> d in s.fleet.table) && (d in g.table ==> g.table[d] == s.fleet.table[d]))
  {
    var w, g := s.wired[id], After(s, SwapEnd(id, true)).fleet;
    forall d | d in w.domains
      ensures Lower(d) in g.table && g.table[Lower(d)] == CompiledApp(w.name, id, Rebuilt(s.routers)) {
      PublishedEntry(s, id, d);
    }
  }

  lemma PublishedEntry(t: Swaps, id: nat, d: string)
    requires id in t.pending && id in t.wired && d in t.wired[id].domains
    ensures var g := After(t, SwapEnd(id, true)).fleet;
            Lower(d) in g.table && g.table[Lower(d)] == CompiledApp(t.wired[id].name, id, Rebuilt(t.routers))
  {
    var w := t.wired[id];
    PutTouchesOnlyNamed(t.fleet.table, w.domains, CompiledApp(w.name, id, Rebuilt(t.routers)), Lower(d));
  }

  lemma OldRouterDiffers(u: Swaps, e: string, n: nat)
    requires RoutersOk(u) && e in u.fleet.table && u.routers <= n
    ensures u.fleet.table[e].router != Rebuilt(n)
  {
    assert RouterOk(u, u.fleet.table[e]);
  }

  /**
   * The router a swap publishes served no domain in any state of the run before it, so it is none
   * that a start, an add, an edit or an earlier swap built.
   */
  lemma SwapServesNewRouter(s: Swaps, es: seq<Event>, k: nat, id: nat, d: string, e: string)
    requires RoutersOk(s) && k <= |es|
    requires id in Final(s, es).pending && id in Final(s, es).wired && d in Final(s, es).wired[id].domains
    requires e in Final(s, es[..k]).fleet.table
    ensures var g := After(Final(s, es), SwapEnd(id, true)).fleet;
            Lower(d) in g.table && g.table[Lower(d)].router != Final(s, es[..k]).fleet.table[e].router
  {
    var u, t := Final(s, es[..k]), Final(s, es);
    RunKeepsRouters(s, es[..k]);
    FinalConcat(s, es[..k], es[k..]);
    assert es[..k] + es[k..] == es;
    RunKeepsRouters(u, es[k..]);
    PublishedEntry(t, id, d);
    OldRouterDiffers(u, e, t.routers);
  }

  lemma {:induction false} FinalConcat(s: Swaps, es: seq<Event>, fs: seq<Event>)
    ensures Final(s, es + fs) == Final(Final(s, es), fs)
    decreases |es|
  {
    if es == [] {
      assert es + fs == fs;
    } else {
      assert (es + fs)[1..] == es[1..] + fs;
      FinalConcat(After(s, es[0]), es[1..], fs);
    }
  }

  // One lifecycle operation.

  /** The instance an operation takes off the panel. */
  ghost function Retired(f: State, op: Op): set<nat> {
    match op
    case AddOp(_, _) => {}
    case EditOp(name, setEnv, unset, io) =>
      if Edit(f, name, setEnv, unset, io).ok then {f.panel[PanelIndex(f.panel, name)].instance} else {}
    case RemoveOp(name, confirm, ok) =>
      if Remove(f, name, confirm, ok).ok then {f.panel[PanelIndex(f.panel, name)].instance} else {}
  }

  lemma InstancesDiffer(f: State, i: nat, j: nat)
    requires Coherent(f) && i < |f.panel| && j < |f.panel| && i != j
    ensures f.panel[i].instance != f.panel[j].instance
  {
    assert Apart(f, i, j);
  }

  /** The panel after an operation: rows of old instances it did not retire, and the new one. */
  ghost predicate PanelFollows(f: State, op: Op, g: State) {
    && f.nextInstance <= g.nextInstance
    && (forall p :: p in g.panel ==>
          || (p in f.panel && p.instance !in Retired(f, op))
          || (p.instance == f.nextInstance && NewWiring(f, op) == map[p.instance := Wiring(p.name, p.domains)]))
    && (forall p :: p in f.panel && p.instance !in Retired(f, op) ==> p in g.panel)
  }

  lemma AppendedRowFollows(f: State, op: Op, g: State, row: PanelApp)
    requires g.panel == f.panel + [row] && row.instance == f.nextInstance <= g.nextInstance && Retired(f, op) == {}
    requires NewWiring(f, op) == map[row.instance := Wiring(row.name, row.domains)]
    ensures PanelFollows(f, op, g)
  {
  }

  lemma InstalledFollows(f: State, op: Op, g: State, a: AppSpec)
    requires g == Installed(f, a).(databases := g.databases, disk := g.disk)
    requires Retired(f, op) == {} && NewWiring(f, op) == map[f.nextInstance := Wiring(a.name, a.domains)]
    ensures PanelFollows(f, op, g)
  {
    AppendedRowFollows(f, op, g, PanelApp(a.name, a.domains, f.nextInstance, a.mergedEnv));
  }

  lemma AddedFollows(f: State, spec: AppSpec, io: AddIo)
    requires Add(f, spec, io).ok
    ensures PanelFollows(f, AddOp(spec, io), Add(f, spec, io).fleet)
  {
    AddSucceeds(f, spec, io);
    AddWiring(f, spec, io);
    InstalledFollows(f, AddOp(spec, io), Add(f, spec, io).fleet, Added(f, spec, io));
  }

  lemma AddWiring(f: State, spec: AppSpec, io: AddIo)
    requires Add(f, spec, io).ok && io.schema.Some? && FileEnv(f.disk, Base(f), spec.envFile).Some?
    ensures NewWiring(f, AddOp(spec, io)) ==
              map[f.nextInstance := Wiring(Added(f, spec, io).name, Added(f, spec, io).domains)]
    ensures Retired(f, AddOp(spec, io)) == {}
  {
  }

  lemma PanelAfterAdd(f: State, spec: AppSpec, io: AddIo)
    ensures PanelFollows(f, AddOp(spec, io), Add(f, spec, io).fleet)
  {
    if Add(f, spec, io).ok {
      AddedFollows(f, spec, io);
    } else {
      AddFails(f, spec, io);
      SameRowsFollow(f, AddOp(spec, io), Add(f, spec, io).fleet);
    }
  }

  lemma ReplacedRowFollows(f: State, op: Op, g: State, i: nat, row: PanelApp)
    requires Coherent(f) && i < |f.panel| && g.panel == f.panel[i := row]
    requires row.instance == f.nextInstance <= g.nextInstance
    requires Retired(f, op) == {f.panel[i].instance}
    requires NewWiring(f, op) == map[row.instance := Wiring(row.name, row.domains)]
    ensures PanelFollows(f, op, g)
  {
    RowReplaced(f, i, row);
  }

  lemma SameRowsFollow(f: State, op: Op, g: State)
    requires g.panel == f.panel && f.nextInstance <= g.nextInstance && Retired(f, op) == {}
    ensures PanelFollows(f, op, g)
  {
  }

  lemma EditWiring(f: State, name: string, setEnv: Env, unset: seq<string>, io: EditIo)
    requires Edit(f, name, setEnv, unset, io).ok
    ensures var op := EditOp(name, setEnv, unset, io);
            && NewWiring(f, op) == map[f.nextInstance := Wiring(name, f.apps[AppIndex(f.apps, name)].domains)]
            && Retired(f, op) == {f.panel[PanelIndex(f.panel, name)].instance}
  {
  }

  lemma EditedFollows(f: State, name: string, setEnv: Env, unset: seq<string>, io: EditIo)
    requires Coherent(f) && Edit(f, name, setEnv, unset, io).ok
    ensures PanelFollows(f, EditOp(name, setEnv, unset, io), Edit(f, name, setEnv, unset, io).fleet)
  {
    var op, g := EditOp(name, setEnv, unset, io), Edit(f, name, setEnv, unset, io).fleet;
    EditChangesOneApp(f, name, setEnv, unset, io);
    IndicesAgree(f, name);
    EditWiring(f, name, setEnv, unset, io);
    var i := PanelIndex(f.panel, name);
    ReplacedRowFollows(f, op, g, i, PanelApp(name, f.apps[i].domains, f.nextInstance, g.apps[i].mergedEnv));
  }

  lemma PanelAfterEdit(f: State, name: string, setEnv: Env, unset: seq<string>, io: EditIo)
    requires Coherent(f)
    ensures PanelFollows(f, EditOp(name, setEnv, unset, io), Edit(f, name, setEnv, unset, io).fleet)
  {
    if Edit(f, name, setEnv, unset, io).ok {
      EditedFollows(f, name, setEnv, unset, io);
    } else {
      FailedEditLeaves(f, name, setEnv, unset, io);
      SameRowsFollow(f, EditOp(name, setEnv, unset, io), Edit(f, name, setEnv, unset, io).fleet);
    }
  }

  lemma PanelAfterRemove(f: State, name: string, confirm: string, ok: bool)
    requires Coherent(f)
    ensures PanelFollows(f, RemoveOp(name, confirm, ok), Remove(f, name, confirm, ok).fleet)
  {
    if Remove(f, name, confirm, ok).ok {
      RowRemoved(f, PanelIndex(f.panel, name));
    }
  }

  lemma PanelAfter(f: State, op: Op)
    requires Coherent(f)
    ensures PanelFollows(f, op, Step(f, op))
  {
    match op
    case AddOp(spec, io) => PanelAfterAdd(f, spec, io);
    case EditOp(name, setEnv, unset, io) => PanelAfterEdit(f, name, setEnv, unset, io);
    case RemoveOp(name, confirm, ok) => PanelAfterRemove(f, name, confirm, ok);
  }

  lemma RowReplaced(f: State, i: nat, row: PanelApp)
    requires Coherent(f) && i < |f.panel|
    ensures forall p :: p in f.panel[i := row] ==> p == row || (p in f.panel && p.instance != f.panel[i].instance)
    ensures forall p :: p in f.panel && p.instance != f.panel[i].instance ==> p in f.panel[i := row]
  {
    forall p | p in f.panel[i := row] ensures p == row || (p in f.panel && p.instance != f.panel[i].instance) {
      var k :| 0 <= k < |f.panel| && p == f.panel[i := row][k];
      if k != i {
        InstancesDiffer(f, k, i);
      }
    }
    forall p | p in f.panel && p.instance != f.panel[i].instance ensures p in f.panel[i := row] {
      var k :| 0 <= k < |f.panel| && p == f.panel[k];
      assert f.panel[i := row][k] == p;
    }
  }

  lemma RowRemoved(f: State, i: nat)
    requires Coherent(f) && i < |f.panel|
    ensures forall p :: p in Without(f.panel, i) ==> p in f.panel && p.instance != f.panel[i].instance
    ensures forall p :: p in f.panel && p.instance != f.panel[i].instance ==> p in Without(f.panel, i)
  {
    var rest := Without(f.panel, i);
    forall p | p in rest ensures p in f.panel && p.instance != f.panel[i].instance {
      var k :| 0 <= k < |rest| && p == rest[k];
      InstancesDiffer(f, if k < i then k else k + 1, i);
    }
    forall p | p in f.panel && p.instance != f.panel[i].instance ensures p in rest {
      var k :| 0 <= k < |f.panel| && p == f.panel[k];
      assert rest[if k < i then k else k - 1] == p;
    }
  }

  /** A closure a lifecycle operation wires is that of the next instance, on lowercase domains. */
  ghost predicate SoundWiring(more: map<nat, Wiring>, f: State, g: State) {
    forall id :: id in more ==>
      && id == f.nextInstance < g.nextInstance
      && |more[id].domains| > 0
      && forall d :: d in more[id].domains ==> Lower(d) == d
  }

  lemma OneSoundWiring(w: Wiring, f: State, g: State)
    requires f.nextInstance < g.nextInstance && |w.domains| > 0 && forall d :: d in w.domains ==> Lower(d) == d
    ensures SoundWiring(map[f.nextInstance := w], f, g)
  {
  }

  lemma AddWiringIsSound(f: State, spec: AppSpec, io: AddIo)
    requires Add(f, spec, io).ok
    ensures SoundWiring(NewWiring(f, AddOp(spec, io)), f, Add(f, spec, io).fleet)
  {
    AddSucceeds(f, spec, io);
    NormalDomainsAreLowercase(spec.domains);
    var a := Added(f, spec, io);
    OneSoundWiring(Wiring(a.name, a.domains), f, Add(f, spec, io).fleet);
  }

  lemma EditWiringIsSound(f: State, name: string, setEnv: Env, unset: seq<string>, io: EditIo)
    requires Coherent(f) && Edit(f, name, setEnv, unset, io).ok
    ensures SoundWiring(NewWiring(f, EditOp(name, setEnv, unset, io)), f, Edit(f, name, setEnv, unset, io).fleet)
  {
    var i := AppIndex(f.apps, name);
    assert SlotOk(f, i);
    EditChangesOneApp(f, name, setEnv, unset, io);
    OneSoundWiring(Wiring(name, f.apps[i].domains), f, Edit(f, name, setEnv, unset, io).fleet);
  }

  lemma NewWiringIsSound(f: State, op: Op)
    requires Coherent(f)
    ensures SoundWiring(NewWiring(f, op), f, Step(f, op))
  {
    match op
    case AddOp(spec, io) =>
      if Add(f, spec, io).ok {
        AddWiringIsSound(f, spec, io);
      }
    case EditOp(name, setEnv, unset, io) =>
      if Edit(f, name, setEnv, unset, io).ok {
        EditWiringIsSound(f, name, setEnv, unset, io);
      }
    case RemoveOp(_, _, _) =>
  }

  /** A row that stayed, or the row of the new closure, is wired afterwards. */
  lemma RowStaysWired(wired: map<nat, Wiring>, more: map<nat, Wiring>, p: PanelApp, newest: nat)
    requires forall id :: id in more ==> id == newest
    requires (RowWired(wired, p) && p.instance != newest) || more == map[p.instance := Wiring(p.name, p.domains)]
    ensures RowWired(wired + more, p)
  {
    if more == map[p.instance := Wiring(p.name, p.domains)] {
      assert p.instance in more;
    }
  }

  lemma LifeKeepsWired(s: Swaps, op: Op)
    requires Inv(s)
    ensures Wired(After(s, Life(op)))
  {
    var f, g, more := s.fleet, Step(s.fleet, op), NewWiring(s.fleet, op);
    PanelAfter(f, op);
    NewWiringIsSound(f, op);
    assert f.nextInstance !in s.wired;
    forall i | 0 <= i < |g.panel| ensures RowWired(s.wired + more, g.panel[i]) {
      var p := g.panel[i];
      assert p in g.panel;
      if p in f.panel {
        var k :| 0 <= k < |f.panel| && f.panel[k] == p;
        assert RowWired(s.wired, f.panel[k]);
      }
      RowStaysWired(s.wired, more, p, f.nextInstance);
    }
  }

  lemma LiveByRow(f: State, id: nat)
    ensures Live(f, id) <==> exists p :: p in f.panel && p.instance == id
  {
    if p :| p in f.panel && p.instance == id {
      var i :| 0 <= i < |f.panel| && f.panel[i] == p;
    }
  }

  /** An instance an operation has seen is on the panel afterwards exactly when it was and stays. */
  lemma LiveAfter(f: State, op: Op, id: nat)
    requires Coherent(f) && id < f.nextInstance
    ensures Live(Step(f, op), id) <==> Live(f, id) && id !in Retired(f, op)
  {
    PanelAfter(f, op);
    NewWiringIsSound(f, op);
    LiveByRow(f, id);
    LiveByRow(Step(f, op), id);
    if Live(Step(f, op), id) {
      var p :| p in Step(f, op).panel && p.instance == id;
      assert p in f.panel && p.instance !in Retired(f, op);
      RetiredIsOne(f, op);
    }
  }

  lemma RetiredIsOne(f: State, op: Op)
    requires Coherent(f)
    ensures forall id :: id in Retired(f, op) ==> Live(f, id) && Retired(f, op) == {id}
  {
  }

  // Runs.

  /** A removal that hits the wrong domains, or the end of a swap of a retired instance. */
  ghost predicate Breaks(s: Swaps, e: Event) {
    match e
    case Life(op) => Misdirects(s.fleet, op)
    case SwapBegin(_) => false
    case SwapEnd(id, rebuilt) => rebuilt && id in s.pending && id in s.wired && !Live(s.fleet, id)
  }

  /** One event keeps the fleet coherent exactly when it is not one of the two. */
  lemma StepCoherentIffSound(s: Swaps, e: Event)
    requires Inv(s)
    ensures Inv(After(s, e)) <==> !Breaks(s, e)
    ensures Coherent(After(s, e).fleet) <==> !Breaks(s, e)
  {
    match e
    case Life(op) =>
      StepCoherentIff(s.fleet, op);
      LifeKeepsWired(s, op);
    case SwapBegin(_) =>
    case SwapEnd(id, rebuilt) =>
      if rebuilt && id in s.pending {
        SwapEndCoherentIffLive(s, id);
      }
  }

  ghost predicate AlwaysCoherent(s: Swaps, es: seq<Event>)
    decreases |es|
  {
    Coherent(s.fleet) && (es == [] || AlwaysCoherent(After(s, es[0]), es[1..]))
  }

  ghost predicate NeverBreaks(s: Swaps, es: seq<Event>)
    decreases |es|
  {
    es == [] || (!Breaks(s, es[0]) && NeverBreaks(After(s, es[0]), es[1..]))
  }

  /** The fleet is coherent throughout a run if and only if no event of it breaks coherence. */
  lemma {:induction false} CoherentThroughoutIff(s: Swaps, es: seq<Event>)
    requires Inv(s)
    ensures AlwaysCoherent(s, es) <==> NeverBreaks(s, es)
    decreases |es|
  {
    if es != [] {
      StepCoherentIffSound(s, es[0]);
      if !Breaks(s, es[0]) {
        CoherentThroughoutIff(After(s, es[0]), es[1..]);
      } else {
        assert !Coherent(After(s, es[0]).fleet);
      }
    }
  }

  /**
   * What an operator must respect: no app is removed or edited while one of its hot swaps is
   * pending, none is started on a retired instance, and only the last app is removed.
   */
  ghost predicate Orderly(s: Swaps, e: Event) {
    match e
    case Life(op) => !Misdirects(s.fleet, op) && Retired(s.fleet, op) !! s.pending
    case SwapBegin(id) => id in s.wired ==> Live(s.fleet, id)
    case SwapEnd(_, _) => true
  }

  ghost predicate OrderlyRun(s: Swaps, es: seq<Event>)
    decreases |es|
  {
    es == [] || (Orderly(s, es[0]) && OrderlyRun(After(s, es[0]), es[1..]))
  }

  ghost predicate PendingLive(s: Swaps) {
    forall id :: id in s.pending ==> Live(s.fleet, id)
  }

  lemma OrderlyStep(s: Swaps, e: Event)
    requires Inv(s) && PendingLive(s) && Orderly(s, e)
    ensures Inv(After(s, e)) && PendingLive(After(s, e))
  {
    StepCoherentIffSound(s, e);
    var t := After(s, e);
    forall id | id in t.pending ensures Live(t.fleet, id) {
      match e
      case Life(op) => LiveAfter(s.fleet, op, id);
      case SwapBegin(_) =>
      case SwapEnd(_, _) =>
        assert Live(s.fleet, id) && t.fleet.panel == s.fleet.panel;
    }
  }

  /** Orderly runs keep coherence, whatever hot swaps straddle the other apps' operations. */
  lemma {:induction false} OrderlyRunKeepsCoherent(s: Swaps, es: seq<Event>)
    requires Inv(s) && PendingLive(s) && OrderlyRun(s, es)
    ensures Inv(Final(s, es)) && PendingLive(Final(s, es)) && NeverBreaks(s, es)
    decreases |es|
  {
    if es != [] {
      OrderlyStep(s, es[0]);
      StepCoherentIffSound(s, es[0]);
      OrderlyRunKeepsCoherent(After(s, es[0]), es[1..]);
    }
  }

  /** A wired instance that is off the panel stays off it. */
  lemma {:induction false} RetiredStaysRetired(s: Swaps, es: seq<Event>, id: nat)
    requires Inv(s) && NeverBreaks(s, es) && id in s.wired && !Live(s.fleet, id)
    ensures Inv(Final(s, es)) && !Live(Final(s, es).fleet, id)
    decreases |es|
  {
    if es != [] {
      var t := After(s, es[0]);
      StepCoherentIffSound(s, es[0]);
      if es[0].Life? {
        LiveAfter(s.fleet, es[0].op, id);
      } else {
        assert t.fleet.panel == s.fleet.panel;
      }
      RetiredStaysRetired(t, es[1..], id);
    }
  }

  /**
   * After an orderly run no domain routes to an instance that was retired before it, and a domain
   * routes at all exactly when an app of the manifest owns it.
   */
  lemma RetiredNeverRoutesAgain(s: Swaps, es: seq<Event>, id: nat)
    requires Inv(s) && PendingLive(s) && OrderlyRun(s, es)
    requires id in s.wired && !Live(s.fleet, id)
    ensures var g := Final(s, es).fleet;
            && (forall d :: d in g.table ==> g.table[d].instance != id)
            && (forall d :: d in g.table <==> Owned(g, d))
  {
    OrderlyRunKeepsCoherent(s, es);
    RetiredStaysRetired(s, es, id);
    var g := Final(s, es).fleet;
    forall d | d in g.table ensures g.table[d].instance != id && Owned(g, d) {
      RoutedIsLive(g, d);
    }
    forall d | Owned(g, d) ensures d in g.table {
      var i :| 0 <= i < |g.apps| && d in g.apps[i].domains;
      assert SlotOk(g, i);
    }
  }

  // The straddling swap.

  ghost function Straddled(s: Swaps, op: Op, id: nat): Swaps {
    After(After(After(s, SwapBegin(id)), Life(op)), SwapEnd(id, true))
  }

  /** The state between the operation and the end of the swap. */
  lemma BeforeSwapEnd(s: Swaps, op: Op, id: nat)
    requires Inv(s) && id in Retired(s.fleet, op) && !Misdirects(s.fleet, op)
    ensures id in s.wired
    ensures var v := After(After(s, SwapBegin(id)), Life(op));
            && Inv(v) && id in v.pending && id in v.wired && v.wired[id] == s.wired[id]
            && v.fleet == Step(s.fleet, op) && !Live(v.fleet, id)
  {
    RetiredIsOne(s.fleet, op);
    var i :| 0 <= i < |s.fleet.panel| && s.fleet.panel[i].instance == id;
    assert RowWired(s.wired, s.fleet.panel[i]);
    var u := After(s, SwapBegin(id));
    StepCoherentIffSound(s, SwapBegin(id));
    StepCoherentIffSound(u, Life(op));
    LiveAfter(s.fleet, op, id);
    NewWiringIsSound(s.fleet, op);
  }

  /**
   * A swap that began before its app was edited or removed, and ends after it, gives every domain
   * of that app back to the retired instance.
   */
  lemma StraddlingSwapRevivesRetired(s: Swaps, op: Op, id: nat)
    requires Inv(s) && id in Retired(s.fleet, op) && !Misdirects(s.fleet, op)
    ensures id in s.wired
    ensures var t := Straddled(s, op, id);
            && !Live(t.fleet, id) && !Coherent(t.fleet)
            && forall d :: d in s.wired[id].domains ==> RoutesTo(t.fleet.table, d, s.wired[id].name, id)
  {
    BeforeSwapEnd(s, op, id);
    SwapEndRoutes(After(After(s, SwapBegin(id)), Life(op)), id);
  }

  lemma SwapEndRoutes(v: Swaps, id: nat)
    requires Inv(v) && id in v.pending && !Live(v.fleet, id)
    ensures var t := After(v, SwapEnd(id, true));
            && !Live(t.fleet, id) && !Coherent(t.fleet) && t.fleet.apps == v.fleet.apps
            && forall d :: d in v.wired[id].domains ==> RoutesTo(t.fleet.table, d, v.wired[id].name, id)
  {
    SwapEndCoherentIffLive(v, id);
    LowercaseAll(v.wired[id].domains);
  }

  /** For a removal: the removed app's domains, owned by nobody, stopped answering and answer again. */
  lemma StraddlingSwapReroutesRemoved(s: Swaps, op: Op, id: nat)
    requires Inv(s) && id in Retired(s.fleet, op) && op.RemoveOp? && !Misdirects(s.fleet, op)
    ensures id in s.wired
    ensures var t := Straddled(s, op, id);
            forall d :: d in s.wired[id].domains ==>
              d !in Step(s.fleet, op).table && d in t.fleet.table && !Owned(t.fleet, d)
  {
    BeforeSwapEnd(s, op, id);
    SwapEndRoutes(After(After(s, SwapBegin(id)), Life(op)), id);
    RemovedIsUnowned(s, op, id);
    var g, t := Step(s.fleet, op), Straddled(s, op, id);
    forall d | d in s.wired[id].domains ensures d !in g.table && d in t.fleet.table && !Owned(t.fleet, d) {
      assert RoutesTo(t.fleet.table, d, s.wired[id].name, id);
      assert !Owned(g, d) && t.fleet.apps == g.apps;
    }
  }

  lemma RemovedIsUnowned(s: Swaps, op: Op, id: nat)
    requires Inv(s) && id in Retired(s.fleet, op) && op.RemoveOp? && !Misdirects(s.fleet, op) && id in s.wired
    ensures forall d :: d in s.wired[id].domains ==> !Owned(Step(s.fleet, op), d) && d !in Step(s.fleet, op).table
  {
    var f, n := s.fleet, |s.fleet.apps| - 1;
    IndicesAgree(f, op.name);
    assert f.panel[n].instance == id && RowWired(s.wired, f.panel[n]) && SlotOk(f, n);
    LowercaseAll(f.apps[n].domains);
    var g := Step(f, op);
    assert g.apps == f.apps[..n];
    forall d | d in s.wired[id].domains ensures !Owned(g, d) {
      forall k | 0 <= k < n ensures d !in g.apps[k].domains {
        assert Apart(f, k, n);
      }
    }
  }

  /** The same as a run. */
  lemma StraddleIsARun(s: Swaps, op: Op, id: nat)
    ensures Final(s, [SwapBegin(id), Life(op), SwapEnd(id, true)]) == Straddled(s, op, id)
  {
    var u := After(s, SwapBegin(id));
    var v := After(u, Life(op));
    assert Final(v, [SwapEnd(id, true)]) == After(v, SwapEnd(id, true)) by {
      assert Final(After(v, SwapEnd(id, true)), []) == After(v, SwapEnd(id, true));
    }
    assert [Life(op), SwapEnd(id, true)][1..] == [SwapEnd(id, true)];
    assert [SwapBegin(id), Life(op), SwapEnd(id, true)][1..] == [Life(op), SwapEnd(id, true)];
    assert Final(u, [Life(op), SwapEnd(id, true)]) == Final(v, [SwapEnd(id, true)]);
  }

  // The start.

  /** The closures a boot wires: one for every row of the panel. */
  function BootWiring(panel: seq<PanelApp>): map<nat, Wiring> {
    if panel == [] then map[]
    else
      var p := panel[|panel| - 1];
      BootWiring(panel[..|panel| - 1])[p.instance := Wiring(p.name, p.domains)]
  }

  lemma {:induction false} BootWires(panel: seq<PanelApp>)
    requires forall i, j :: 0 <= i < j < |panel| ==> panel[i].instance != panel[j].instance
    ensures forall i :: 0 <= i < |panel| ==> RowWired(BootWiring(panel), panel[i])
    ensures forall id :: id in BootWiring(panel) ==> exists i :: 0 <= i < |panel| && panel[i].instance == id
    decreases |panel|
  {
    if panel != [] {
      var n := |panel| - 1;
      var front := panel[..n];
      BootWires(front);
      forall i | 0 <= i < |panel| ensures RowWired(BootWiring(panel), panel[i]) {
        if i < n {
          assert RowWired(BootWiring(front), front[i]) && panel[i].instance != panel[n].instance;
        }
      }
      forall id | id in BootWiring(panel) ensures exists i :: 0 <= i < |panel| && panel[i].instance == id {
        if id != panel[n].instance {
          var i :| 0 <= i < |front| && front[i].instance == id;
          assert panel[i].instance == id;
        }
      }
    }
  }

  /** A coherent fleet, such as every start leaves, satisfies the invariant with the closures its boot wired. */
  lemma BootEstablishesInv(f: State)
    requires Coherent(f)
    ensures var s := Swaps(f, BootWiring(f.panel), {}, 0); Inv(s) && PendingLive(s)
  {
    var wired := BootWiring(f.panel);
    forall i, j | 0 <= i < j < |f.panel| ensures f.panel[i].instance != f.panel[j].instance {
      InstancesDiffer(f, i, j);
    }
    BootWires(f.panel);
    forall id | id in wired
      ensures id < f.nextInstance && |wired[id].domains| > 0 && forall d :: d in wired[id].domains ==> Lower(d) == d
    {
      var i :| 0 <= i < |f.panel| && f.panel[i].instance == id;
      assert RowWired(wired, f.panel[i]) && SlotOk(f, i);
    }
  }
}
