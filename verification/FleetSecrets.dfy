/** Secret separation in the running manifest and among live instances, over every run of operations. */
module FleetSecrets {
  import opened Text
  import opened Hosts
  import opened Manifest
  import opened Registry
  import opened Fleet
  import opened FleetRuns

  ghost predicate Separate(a: AppSpec, b: AppSpec) {
    a.name != b.name && Get(a.mergedEnv, JWT_SECRET) != Get(b.mergedEnv, JWT_SECRET)
  }

  /** Every app has its credentials, and no two share a JWT secret. */
  ghost predicate SecretsSound(apps: seq<AppSpec>) {
    && (forall i :: 0 <= i < |apps| ==> RequiredPresent(apps[i].mergedEnv))
    && forall i, j :: 0 <= i < |apps| && 0 <= j < |apps| && i != j ==> Separate(apps[i], apps[j])
  }

  lemma NewAppKeepsSecrets(apps: seq<AppSpec>, a: AppSpec)
    requires SecretsSound(apps) && RequiredPresent(a.mergedEnv)
    requires NameFree(apps, a.name) && SecretFree(apps, Get(a.mergedEnv, JWT_SECRET))
    ensures SecretsSound(apps + [a])
  {
    var all := apps + [a];
    forall i, j | 0 <= i < |all| && 0 <= j < |all| && i != j ensures Separate(all[i], all[j]) {
      if i < |apps| && j < |apps| {
        assert Separate(apps[i], apps[j]);
      }
    }
  }

  lemma AddKeepsSecrets(f: State, spec: AppSpec, io: AddIo)
    requires SecretsSound(f.apps)
    ensures SecretsSound(Add(f, spec, io).fleet.apps)
  {
    if Add(f, spec, io).ok {
      AddSucceeds(f, spec, io);
      NewAppKeepsSecrets(f.apps, Added(f, spec, io));
    }
  }

  lemma EditKeepsSecrets(f: State, name: string, setEnv: Env, unset: seq<string>, io: EditIo)
    requires SecretsSound(f.apps)
    ensures SecretsSound(Edit(f, name, setEnv, unset, io).fleet.apps)
  {
    if EditAccepted(f, name, setEnv, unset) {
      var i := AppIndex(f.apps, name);
      var g := Edit(f, name, setEnv, unset, io).fleet;
      var next := NextEnv(f.apps[i].mergedEnv, setEnv, unset);
      EditChangesOneApp(f, name, setEnv, unset, io);
      forall k | 0 <= k < |f.apps| && k != i ensures Separate(g.apps[k], g.apps[i]) && Separate(g.apps[i], g.apps[k]) {
        assert Separate(f.apps[k], f.apps[i]) && g.apps[k] == f.apps[k];
      }
    }
  }

  lemma RemoveKeepsSecrets(f: State, name: string, confirm: string, manifestOk: bool)
    requires SecretsSound(f.apps)
    ensures SecretsSound(Remove(f, name, confirm, manifestOk).fleet.apps)
  {
    if RemoveAccepted(f, name, confirm, manifestOk) {
      var i := AppIndex(f.apps, name);
      var rest := Without(f.apps, i);
      forall k, l | 0 <= k < |rest| && 0 <= l < |rest| && k != l ensures Separate(rest[k], rest[l]) {
        var k', l' := if k < i then k else k + 1, if l < i then l else l + 1;
        assert rest[k] == f.apps[k'] && rest[l] == f.apps[l'] && Separate(f.apps[k'], f.apps[l']);
      }
    }
  }

  lemma StepKeepsSecrets(f: State, op: Op)
    requires SecretsSound(f.apps)
    ensures SecretsSound(Step(f, op).apps)
  {
    match op
    case AddOp(spec, io) => AddKeepsSecrets(f, spec, io);
    case EditOp(name, setEnv, unset, io) => EditKeepsSecrets(f, name, setEnv, unset, io);
    case RemoveOp(name, confirm, ok) => RemoveKeepsSecrets(f, name, confirm, ok);
  }

  /** In the running manifest `mf.Apps` the secrets stay separate over every run, failed operations included. */
  lemma {:induction false} RunKeepsSecrets(f: State, ops: seq<Op>)
    requires SecretsSound(f.apps)
    ensures SecretsSound(Run(f, ops).apps)
    decreases |ops|
  {
    if ops != [] {
      StepKeepsSecrets(f, ops[0]);
      RunKeepsSecrets(Step(f, ops[0]), ops[1..]);
    }
  }

  // The live side.

  /** No two live instances validate each other's tokens. */
  ghost predicate LiveSecretsApart(f: State) {
    forall i, j :: 0 <= i < |f.panel| && 0 <= j < |f.panel| && i != j ==>
      Get(f.panel[i].env, JWT_SECRET) != Get(f.panel[j].env, JWT_SECRET)
  }

  /** Every live instance runs with the env the manifest shows. */
  ghost predicate InSync(f: State) {
    && |f.panel| == |f.apps|
    && forall i :: 0 <= i < |f.apps| ==> f.panel[i].name == f.apps[i].name && f.panel[i].env == f.apps[i].mergedEnv
  }

  lemma InSyncSeparates(f: State)
    requires InSync(f) && SecretsSound(f.apps)
    ensures LiveSecretsApart(f)
  {
    forall i, j | 0 <= i < |f.panel| && 0 <= j < |f.panel| && i != j
      ensures Get(f.panel[i].env, JWT_SECRET) != Get(f.panel[j].env, JWT_SECRET)
    {
      assert Separate(f.apps[i], f.apps[j]);
    }
  }

  /** An edit that changes the manifest's env and then fails, so the live instance keeps the old one. */
  ghost predicate HalfEdit(f: State, op: Op) {
    && op.EditOp?
    && EditAccepted(f, op.name, op.setEnv, op.unset)
    && var i := AppIndex(f.apps, op.name);
    && var next := NextEnv(f.apps[i].mergedEnv, op.setEnv, op.unset);
    && !(EditPersists(f, op.name, op.editIo) && EditBuilds(f, i, next, op.editIo))
    && next != f.apps[i].mergedEnv
  }

  lemma NamesAlign(f: State, name: string)
    requires InSync(f)
    ensures PanelIndex(f.panel, name) == AppIndex(f.apps, name)
  {
    assert forall k :: 0 <= k < |f.apps| ==> f.panel[k].name == f.apps[k].name;
  }

  lemma EditInSyncIff(f: State, name: string, setEnv: Env, unset: seq<string>, io: EditIo)
    requires InSync(f) && EditAccepted(f, name, setEnv, unset)
    ensures var i, r := AppIndex(f.apps, name), Edit(f, name, setEnv, unset, io);
            InSync(r.fleet) <==> r.ok || NextEnv(f.apps[i].mergedEnv, setEnv, unset) == f.apps[i].mergedEnv
  {
    NamesAlign(f, name);
    EditChangesOneApp(f, name, setEnv, unset, io);
    var i, r := AppIndex(f.apps, name), Edit(f, name, setEnv, unset, io);
    if r.ok {
      OneSlotInSync(f, r.fleet, i, r.fleet.apps[i], r.fleet.panel[i]);
    } else {
      OneSlotInSync(f, r.fleet, i, r.fleet.apps[i], f.panel[i]);
    }
  }

  /** Changing slot `i` of manifest and panel is a question of slot `i` alone. */
  lemma OneSlotInSync(f: State, g: State, i: nat, a: AppSpec, p: PanelApp)
    requires InSync(f) && i < |f.apps|
    requires g.apps == f.apps[i := a] && g.panel == f.panel[i := p]
    ensures InSync(g) <==> p.name == a.name && p.env == a.mergedEnv
  {
    assert g.apps[i] == a && g.panel[i] == p;
  }

  lemma RemoveInSync(f: State, i: nat, g: State)
    requires InSync(f) && i < |f.apps| && g.apps == Without(f.apps, i) && g.panel == Without(f.panel, i)
    ensures InSync(g)
  {
    forall k | 0 <= k < |g.apps| ensures g.panel[k].name == g.apps[k].name && g.panel[k].env == g.apps[k].mergedEnv {
      var k' := if k < i then k else k + 1;
      assert g.apps[k] == f.apps[k'] && g.panel[k] == f.panel[k'];
    }
  }

  lemma AddInSync(f: State, spec: AppSpec, io: AddIo)
    requires InSync(f)
    ensures InSync(Add(f, spec, io).fleet)
  {
    if Add(f, spec, io).ok {
      AddSucceeds(f, spec, io);
      InstalledInSync(f, Added(f, spec, io), Add(f, spec, io).fleet);
    } else {
      AddFails(f, spec, io);
    }
  }

  lemma InstalledInSync(f: State, a: AppSpec, g: State)
    requires InSync(f) && g.apps == f.apps + [a]
    requires g.panel == f.panel + [PanelApp(a.name, a.domains, f.nextInstance, a.mergedEnv)]
    ensures InSync(g)
  {
  }

  /** Live and manifest envs stay the same exactly through the operations that are not half edits. */
  lemma StepInSyncIff(f: State, op: Op)
    requires InSync(f)
    ensures InSync(Step(f, op)) <==> !HalfEdit(f, op)
  {
    match op
    case AddOp(spec, io) => AddInSync(f, spec, io);
    case EditOp(name, setEnv, unset, io) =>
      if EditAccepted(f, name, setEnv, unset) {
        EditInSyncIff(f, name, setEnv, unset, io);
      }
    case RemoveOp(name, confirm, ok) =>
      if RemoveAccepted(f, name, confirm, ok) {
        NamesAlign(f, name);
        RemoveInSync(f, AppIndex(f.apps, name), Step(f, op));
      }
  }

  // Exactly when live secrets part or meet.

  /** Some row of the panel but row `but` runs with this secret. */
  ghost predicate LiveElsewhere(panel: seq<PanelApp>, secret: string, but: int) {
    exists k :: 0 <= k < |panel| && k != but && Get(panel[k].env, JWT_SECRET) == secret
  }

  /** The operation goes live with a JWT secret that another live instance uses. */
  ghost predicate TakesLiveSecret(f: State, op: Op) {
    match op
    case AddOp(spec, io) =>
      && Add(f, spec, io).ok
      && (AddSucceeds(f, spec, io);
          LiveElsewhere(f.panel, Get(Added(f, spec, io).mergedEnv, JWT_SECRET), -1))
    case EditOp(name, setEnv, unset, io) =>
      && EditAccepted(f, name, setEnv, unset) && EditPersists(f, name, io)
      && var i := AppIndex(f.apps, name);
      && var next := NextEnv(f.apps[i].mergedEnv, setEnv, unset);
      && EditBuilds(f, i, next, io)
      && LiveElsewhere(f.panel, Get(next, JWT_SECRET), PanelIndex(f.panel, name))
    case RemoveOp(_, _, _) => false
  }

  lemma AppendedRowApartIff(f: State, g: State, row: PanelApp)
    requires LiveSecretsApart(f) && g.panel == f.panel + [row]
    ensures LiveSecretsApart(g) <==> !LiveElsewhere(f.panel, Get(row.env, JWT_SECRET), -1)
  {
    var n := |f.panel|;
    assert g.panel[n] == row && forall k :: 0 <= k < n ==> g.panel[k] == f.panel[k];
    if k :| 0 <= k < n && Get(f.panel[k].env, JWT_SECRET) == Get(row.env, JWT_SECRET) {
      assert Get(g.panel[k].env, JWT_SECRET) == Get(g.panel[n].env, JWT_SECRET);
    }
  }

  lemma ReplacedRowApartIff(f: State, g: State, i: nat, row: PanelApp)
    requires LiveSecretsApart(f) && i < |f.panel| && g.panel == f.panel[i := row]
    ensures LiveSecretsApart(g) <==> !LiveElsewhere(f.panel, Get(row.env, JWT_SECRET), i)
  {
    assert g.panel[i] == row && forall k :: 0 <= k < |f.panel| && k != i ==> g.panel[k] == f.panel[k];
    if k :| 0 <= k < |f.panel| && k != i && Get(f.panel[k].env, JWT_SECRET) == Get(row.env, JWT_SECRET) {
      assert Get(g.panel[k].env, JWT_SECRET) == Get(g.panel[i].env, JWT_SECRET);
    }
  }

  lemma RemovedRowApart(f: State, g: State, i: nat)
    requires LiveSecretsApart(f) && i < |f.panel| && g.panel == Without(f.panel, i)
    ensures LiveSecretsApart(g)
  {
    forall k, l | 0 <= k < |g.panel| && 0 <= l < |g.panel| && k != l
      ensures Get(g.panel[k].env, JWT_SECRET) != Get(g.panel[l].env, JWT_SECRET)
    {
      WithoutAt(f.panel, i, k);
      WithoutAt(f.panel, i, l);
    }
  }

  /** Live secrets stay pairwise distinct through exactly the operations that take no live secret. */
  lemma StepApartIff(f: State, op: Op)
    requires LiveSecretsApart(f)
    ensures LiveSecretsApart(Step(f, op)) <==> !TakesLiveSecret(f, op)
  {
    match op
    case AddOp(spec, io) =>
      if Add(f, spec, io).ok {
        AddSucceeds(f, spec, io);
        var a := Added(f, spec, io);
        AppendedRowApartIff(f, Step(f, op), PanelApp(a.name, a.domains, f.nextInstance, a.mergedEnv));
      } else {
        AddFails(f, spec, io);
      }
    case EditOp(name, setEnv, unset, io) => EditApartIff(f, name, setEnv, unset, io);
    case RemoveOp(name, confirm, ok) =>
      if RemoveAccepted(f, name, confirm, ok) {
        RemovedRowApart(f, Step(f, op), PanelIndex(f.panel, name));
      }
  }

  lemma EditApartIff(f: State, name: string, setEnv: Env, unset: seq<string>, io: EditIo)
    requires LiveSecretsApart(f)
    ensures LiveSecretsApart(Edit(f, name, setEnv, unset, io).fleet) <==>
              !TakesLiveSecret(f, EditOp(name, setEnv, unset, io))
  {
    var r := Edit(f, name, setEnv, unset, io);
    if r.ok {
      EditChangesOneApp(f, name, setEnv, unset, io);
      var i, p := AppIndex(f.apps, name), PanelIndex(f.panel, name);
      ReplacedRowApartIff(f, r.fleet, p, PanelApp(name, f.apps[i].domains, f.nextInstance, r.fleet.apps[i].mergedEnv));
    } else {
      FailedEditLeaves(f, name, setEnv, unset, io);
    }
  }

  ghost predicate AlwaysApart(f: State, ops: seq<Op>)
    decreases |ops|
  {
    LiveSecretsApart(f) && (ops == [] || AlwaysApart(Step(f, ops[0]), ops[1..]))
  }

  ghost predicate NeverTakes(f: State, ops: seq<Op>)
    decreases |ops|
  {
    ops == [] || (!TakesLiveSecret(f, ops[0]) && NeverTakes(Step(f, ops[0]), ops[1..]))
  }

  /** Over a run live secrets are distinct throughout if and only if no operation takes a live one. */
  lemma {:induction false} ApartThroughoutIff(f: State, ops: seq<Op>)
    requires LiveSecretsApart(f)
    ensures AlwaysApart(f, ops) <==> NeverTakes(f, ops)
    decreases |ops|
  {
    if ops != [] {
      StepApartIff(f, ops[0]);
      if !TakesLiveSecret(f, ops[0]) {
        ApartThroughoutIff(Step(f, ops[0]), ops[1..]);
      }
    }
  }

  // Among the instances the table routes to.

  /** The secret of the instance a domain is routed to. */
  function RoutedSecret(f: State, d: string): string
    requires d in f.table
  {
    var id := f.table[d].instance;
    if id in f.envs then Get(f.envs[id], JWT_SECRET) else ""
  }

  /** The table routes to instances compiled so far. */
  ghost predicate Compiled(f: State) {
    forall d :: d in f.table ==> f.table[d].instance < f.nextInstance
  }

  /** No two instances that answer requests, on the panel or not, share a secret. */
  ghost predicate RoutedApart(f: State) {
    forall c, d :: c in f.table && d in f.table && f.table[c].instance != f.table[d].instance ==>
      RoutedSecret(f, c) != RoutedSecret(f, d)
  }

  /** A domain that keeps its instance when `ds` are taken over is routed to one with this secret. */
  ghost predicate RoutedElsewhere(f: State, secret: string, ds: seq<string>) {
    ds != [] && exists d :: d in f.table && d !in LowerAll(ds) && RoutedSecret(f, d) == secret
  }

  ghost predicate TakesRoutedSecret(f: State, op: Op) {
    match op
    case AddOp(spec, io) =>
      && Add(f, spec, io).ok
      && (AddSucceeds(f, spec, io);
          var a := Added(f, spec, io);
          RoutedElsewhere(f, Get(a.mergedEnv, JWT_SECRET), a.domains))
    case EditOp(name, setEnv, unset, io) =>
      && EditAccepted(f, name, setEnv, unset) && EditPersists(f, name, io)
      && var i := AppIndex(f.apps, name);
      && var next := NextEnv(f.apps[i].mergedEnv, setEnv, unset);
      && EditBuilds(f, i, next, io)
      && RoutedElsewhere(f, Get(next, JWT_SECRET), f.apps[i].domains)
    case RemoveOp(_, _, _) => false
  }

  /** A new instance on `ds`. */
  lemma NewInstanceApartIff(f: State, g: State, name: string, ds: seq<string>, env: Env)
    requires Compiled(f) && RoutedApart(f)
    requires g.table == Put(f.table, ds, CompiledApp(name, f.nextInstance, FirstOf(f.nextInstance)))
    requires g.envs == f.envs[f.nextInstance := env] && g.nextInstance == f.nextInstance + 1
    ensures Compiled(g)
    ensures RoutedApart(g) <==> !RoutedElsewhere(f, Get(env, JWT_SECRET), ds)
  {
    forall d | d in g.table
      ensures if d in LowerAll(ds) then g.table[d].instance == f.nextInstance
                && RoutedSecret(g, d) == Get(env, JWT_SECRET)
              else d in f.table && g.table[d] == f.table[d] && RoutedSecret(g, d) == RoutedSecret(f, d)
    {
    }
    if RoutedElsewhere(f, Get(env, JWT_SECRET), ds) {
      var d :| d in f.table && d !in LowerAll(ds) && RoutedSecret(f, d) == Get(env, JWT_SECRET);
      var c := Lower(ds[0]);
      assert ds[0] in ds && c in g.table && d in g.table;
    }
  }

  lemma FewerRoutesApart(f: State, g: State)
    requires Compiled(f) && RoutedApart(f) && g.envs == f.envs && f.nextInstance <= g.nextInstance
    requires forall d :: d in g.table ==> d in f.table && g.table[d] == f.table[d]
    ensures Compiled(g) && RoutedApart(g)
  {
    forall d | d in g.table ensures RoutedSecret(g, d) == RoutedSecret(f, d) {
    }
  }

  lemma EditRoutedApartIff(f: State, name: string, setEnv: Env, unset: seq<string>, io: EditIo)
    requires Compiled(f) && RoutedApart(f)
    ensures var g := Edit(f, name, setEnv, unset, io).fleet;
            Compiled(g) && (RoutedApart(g) <==> !TakesRoutedSecret(f, EditOp(name, setEnv, unset, io)))
  {
    var r := Edit(f, name, setEnv, unset, io);
    if r.ok {
      var i := AppIndex(f.apps, name);
      var next := NextEnv(f.apps[i].mergedEnv, setEnv, unset);
      NewInstanceApartIff(f, r.fleet, name, f.apps[i].domains, next);
    } else {
      FailedEditLeaves(f, name, setEnv, unset, io);
      FewerRoutesApart(f, r.fleet);
    }
  }

  lemma AddRoutedApartIff(f: State, spec: AppSpec, io: AddIo)
    requires Compiled(f) && RoutedApart(f)
    ensures var g := Add(f, spec, io).fleet;
            Compiled(g) && (RoutedApart(g) <==> !TakesRoutedSecret(f, AddOp(spec, io)))
  {
    var r := Add(f, spec, io);
    if r.ok {
      AddSucceeds(f, spec, io);
      var a := Added(f, spec, io);
      NewInstanceApartIff(f, r.fleet, a.name, a.domains, a.mergedEnv);
    } else {
      AddFails(f, spec, io);
      FewerRoutesApart(f, r.fleet);
    }
  }

  /**
   * The instances that answer requests keep pairwise distinct secrets through exactly the operations
   * that go live with a secret no other routed instance keeps, also after a removal that left the
   * removed app routed.
   */
  lemma StepRoutedApartIff(f: State, op: Op)
    requires Compiled(f) && RoutedApart(f)
    ensures Compiled(Step(f, op))
    ensures RoutedApart(Step(f, op)) <==> !TakesRoutedSecret(f, op)
  {
    match op
    case AddOp(spec, io) => AddRoutedApartIff(f, spec, io);
    case EditOp(name, setEnv, unset, io) => EditRoutedApartIff(f, name, setEnv, unset, io);
    case RemoveOp(_, _, _) => FewerRoutesApart(f, Step(f, op));
  }

  ghost predicate AlwaysRoutedApart(f: State, ops: seq<Op>)
    decreases |ops|
  {
    RoutedApart(f) && (ops == [] || AlwaysRoutedApart(Step(f, ops[0]), ops[1..]))
  }

  ghost predicate NeverTakesRouted(f: State, ops: seq<Op>)
    decreases |ops|
  {
    ops == [] || (!TakesRoutedSecret(f, ops[0]) && NeverTakesRouted(Step(f, ops[0]), ops[1..]))
  }

  lemma {:induction false} RoutedApartThroughoutIff(f: State, ops: seq<Op>)
    requires Compiled(f) && RoutedApart(f)
    ensures AlwaysRoutedApart(f, ops) <==> NeverTakesRouted(f, ops)
    decreases |ops|
  {
    if ops != [] {
      StepRoutedApartIff(f, ops[0]);
      if RoutedApart(Step(f, ops[0])) {
        RoutedApartThroughoutIff(Step(f, ops[0]), ops[1..]);
      } else {
        assert !AlwaysRoutedApart(Step(f, ops[0]), ops[1..]);
      }
    }
  }

  /** The panel shows each instance with the env it was compiled with. */
  ghost predicate RowsCompiled(f: State) {
    forall i :: 0 <= i < |f.panel| ==> f.panel[i].instance in f.envs && f.envs[f.panel[i].instance] == f.panel[i].env
  }

  /** In a coherent fleet the routed instances are those of the panel, and the two notions agree. */
  lemma CoherentApartAgree(f: State)
    requires Coherent(f) && RowsCompiled(f)
    ensures RoutedApart(f) <==> LiveSecretsApart(f)
  {
    forall i | 0 <= i < |f.panel|
      ensures |f.apps[i].domains| > 0
      ensures forall d :: d in f.apps[i].domains ==>
                d in f.table && f.table[d].instance == f.panel[i].instance
                && RoutedSecret(f, d) == Get(f.panel[i].env, JWT_SECRET)
    {
      assert SlotOk(f, i);
    }
    if LiveSecretsApart(f) {
      forall c, d | c in f.table && d in f.table && f.table[c].instance != f.table[d].instance
        ensures RoutedSecret(f, c) != RoutedSecret(f, d)
      {
        assert Owned(f, c) && Owned(f, d);
        var i :| 0 <= i < |f.apps| && c in f.apps[i].domains;
        var j :| 0 <= j < |f.apps| && d in f.apps[j].domains;
      }
    }
    if RoutedApart(f) {
      forall i, j | 0 <= i < |f.panel| && 0 <= j < |f.panel| && i != j
        ensures Get(f.panel[i].env, JWT_SECRET) != Get(f.panel[j].env, JWT_SECRET)
      {
        assert Apart(f, i, j);
        var c, d := f.apps[i].domains[0], f.apps[j].domains[0];
        assert c in f.apps[i].domains && d in f.apps[j].domains;
      }
    }
  }

  /**
   * After a removal that hits the wrong domains the removed instance still answers and its secret is
   * free for the taking: an app added with it, on other domains, shares it with a routed instance
   * that no panel shows.
   */
  lemma MisdirectedRemovalLetsASecretBeShared(f: State, name: string, confirm: string, ok: bool, spec: AppSpec,
      io: AddIo)
    requires Coherent(f) && RowsCompiled(f) && Misdirected(f, name, confirm, ok)
    requires var g, i := Remove(f, name, confirm, ok).fleet, AppIndex(f.apps, name);
             && Add(g, spec, io).ok && io.schema.Some? && FileEnv(g.disk, Base(g), spec.envFile).Some?
             && var a := Added(g, spec, io);
             && a.domains != [] && i < |f.panel|
             && Get(a.mergedEnv, JWT_SECRET) == Get(f.panel[i].env, JWT_SECRET)
             && exists d :: d in f.apps[i].domains && d !in LowerAll(a.domains)
    ensures !RoutedApart(Add(Remove(f, name, confirm, ok).fleet, spec, io).fleet)
  {
    var g, i := Remove(f, name, confirm, ok).fleet, AppIndex(f.apps, name);
    RemoveUnroutesTheNextApp(f, name, confirm, ok);
    var a := Added(g, spec, io);
    var d :| d in f.apps[i].domains && d !in LowerAll(a.domains);
    assert SlotOk(f, i);
    assert RoutesTo(g.table, d, name, f.panel[i].instance);
    AddSucceeds(g, spec, io);
    SharedRoute(g, Add(g, spec, io).fleet, a, d);
  }

  lemma SharedRoute(g: State, h: State, a: AppSpec, d: string)
    requires h == Installed(g, a).(databases := h.databases, disk := h.disk) && a.domains != []
    requires d in g.table && d !in LowerAll(a.domains) && g.table[d].instance < g.nextInstance
    requires RoutedSecret(g, d) == Get(a.mergedEnv, JWT_SECRET)
    ensures !RoutedApart(h)
  {
    var c := Lower(a.domains[0]);
    assert a.domains[0] in a.domains && c in LowerAll(a.domains);
    assert h.table[c].instance == g.nextInstance && h.table[d] == g.table[d];
    assert RoutedSecret(h, c) == RoutedSecret(h, d);
  }

  // Without half edits.

  ghost predicate NoHalfEdits(f: State, ops: seq<Op>)
    decreases |ops|
  {
    ops == [] || (!HalfEdit(f, ops[0]) && NoHalfEdits(Step(f, ops[0]), ops[1..]))
  }

  /** Without half edits no operation can: the check against the running manifest is one against the live instances. */
  lemma {:induction false} RunSeparatesLiveSecrets(f: State, ops: seq<Op>)
    requires InSync(f) && SecretsSound(f.apps) && NoHalfEdits(f, ops)
    ensures InSync(Run(f, ops)) && LiveSecretsApart(f) && NeverTakes(f, ops)
    decreases |ops|
  {
    InSyncSeparates(f);
    if ops != [] {
      StepInSyncIff(f, ops[0]);
      StepKeepsSecrets(f, ops[0]);
      StepApartIff(f, ops[0]);
      RunSeparatesLiveSecrets(Step(f, ops[0]), ops[1..]);
    }
  }

  lemma RunOfTwo(f: State, a: Op, b: Op)
    ensures Run(f, [a, b]) == Step(Step(f, a), b)
  {
    assert [a, b][1..] == [b] && [b][1..] == [];
    assert Run(f, [a, b]) == Run(Step(f, a), [b]) == Run(Step(Step(f, a), b), []);
  }

  /**
   * A half edit frees its old secret for the taking: in every fleet, an app added with it goes
   * live beside the instance that still uses it.
   */
  lemma HalfEditLetsASecretBeShared(f: State, edit: Op, spec: AppSpec, io: AddIo)
    requires InSync(f) && edit.EditOp? && HalfEdit(f, edit)
    requires var g := Step(f, edit);
             && Add(g, spec, io).ok && io.schema.Some? && FileEnv(g.disk, Base(g), spec.envFile).Some?
             && Get(Added(g, spec, io).mergedEnv, JWT_SECRET) ==
                 Get(f.apps[AppIndex(f.apps, edit.name)].mergedEnv, JWT_SECRET)
    ensures !LiveSecretsApart(Run(f, [edit, AddOp(spec, io)]))
  {
    var i, g := AppIndex(f.apps, edit.name), Step(f, edit);
    RunOfTwo(f, edit, AddOp(spec, io));
    EditChangesOneApp(f, edit.name, edit.setEnv, edit.unset, edit.editIo);
    AddSucceeds(g, spec, io);
    SharedPair(Add(g, spec, io).fleet, i, |f.panel|);
  }

  lemma SharedPair(f: State, i: nat, j: nat)
    requires i < j < |f.panel| && Get(f.panel[i].env, JWT_SECRET) == Get(f.panel[j].env, JWT_SECRET)
    ensures !LiveSecretsApart(f)
  {
  }
}
