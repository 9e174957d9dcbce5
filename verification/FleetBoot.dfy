/** The start of an in-process fleet: `LoadManifest`, then `ServeFleet` up to the listener. */
module FleetBoot {
  import opened Text
  import opened Hosts
  import opened Manifest
  import opened Registry
  import opened Fleet
  import opened FleetRuns
  import opened FleetSecrets
  import opened FleetRestart
  import opened FleetMirror
  import HotSwap

  function AsSet(ds: seq<string>): set<string> {
    set d | d in ds
  }

  lemma NormalAppIsLowercase(ds: seq<string>)
    requires NormalAll(ds) == ds
    ensures forall d :: d in ds ==> Lower(d) == d
    ensures LowerAll(ds) == AsSet(ds)
  {
    NormalDomainsAreLowercase(ds);
    LowercaseAll(ds);
  }

  /** The domain loop of one app. */
  method RouteApp(table: Table, ds: seq<string>, entry: CompiledApp) returns (out: Table)
    ensures out == table + Assign(AsSet(ds), entry)
  {
    out := table;
    for j := 0 to |ds|
      invariant out == table + Assign(AsSet(ds[..j]), entry)
    {
      assert ds[..j + 1] == ds[..j] + [ds[j]];
      out := out[ds[j] := entry];
    }
    assert ds[..|ds|] == ds;
  }

  /** The table of the first `n` apps: a domain declared twice goes to the later app. */
  function Routed(apps: seq<AppSpec>, n: nat): Table
    requires n <= |apps|
  {
    if n == 0 then map[]
    else Routed(apps, n - 1) + Assign(AsSet(apps[n - 1].domains), CompiledApp(apps[n - 1].name, n - 1, FirstOf(n - 1)))
  }

  function Rows(apps: seq<AppSpec>): seq<PanelApp> {
    seq(|apps|, i requires 0 <= i < |apps| => PanelApp(apps[i].name, apps[i].domains, i, apps[i].mergedEnv))
  }

  /** The env each instance is compiled with. */
  function Envs(apps: seq<AppSpec>): map<nat, Env> {
    map i: nat | 0 <= i < |apps| :: apps[i].mergedEnv
  }

  /**
   * `ServeFleet`, for any manifest, loaded from a file or built in code: every app is compiled
   * before anything serves, and one broken app fails the boot. `built` says which compiles succeed.
   */
  method ServeFleet(apps: seq<AppSpec>, operatorKey: string, file: Option<seq<AppSpec>>, place: Place, disk: Disk,
      built: seq<bool>)
    returns (r: Option<State>)
    requires |built| == |apps|
    ensures r.Some? <==> forall i :: 0 <= i < |apps| ==> built[i]
    ensures r.Some? ==> r.value == State(apps, file, Routed(apps, |apps|), Rows(apps), {}, |apps|, Envs(apps),
              operatorKey, place, disk)
  {
    var table: Table := map[];
    var panel: seq<PanelApp> := [];
    for i := 0 to |apps|
      invariant table == Routed(apps, i) && panel == Rows(apps[..i])
      invariant forall k :: 0 <= k < i ==> built[k]
    {
      if !built[i] {
        return None;
      }
      table := RouteApp(table, apps[i].domains, CompiledApp(apps[i].name, i, FirstOf(i)));
      panel := panel + [PanelApp(apps[i].name, apps[i].domains, i, apps[i].mergedEnv)];
      assert apps[..i + 1] == apps[..i] + [apps[i]];
    }
    assert apps[..|apps|] == apps;
    return Some(State(apps, file, table, panel, {}, |apps|, Envs(apps), operatorKey, place, disk));
  }

  // A loaded manifest starts in order.

  /** The state after the first `n` apps. */
  ghost function Partial(f: State, n: nat): State
    requires n <= |f.apps|
  {
    f.(apps := f.apps[..n], file := None, table := Routed(f.apps, n), panel := Rows(f.apps[..n]),
       nextInstance := n, envs := Envs(f.apps[..n]))
  }

  lemma RowsGrow(apps: seq<AppSpec>, n: nat)
    requires 0 < n <= |apps|
    ensures apps[..n] == apps[..n - 1] + [apps[n - 1]]
    ensures var a := apps[n - 1];
            Rows(apps[..n]) == Rows(apps[..n - 1]) + [PanelApp(a.name, a.domains, n - 1, a.mergedEnv)]
  {
  }

  lemma RoutedGrows(apps: seq<AppSpec>, n: nat)
    requires 0 < n <= |apps| && NormalAll(apps[n - 1].domains) == apps[n - 1].domains
    ensures Routed(apps, n) == Put(Routed(apps, n - 1), apps[n - 1].domains,
              CompiledApp(apps[n - 1].name, n - 1, FirstOf(n - 1)))
  {
    NormalAppIsLowercase(apps[n - 1].domains);
  }

  lemma PartialGrows(f: State, n: nat)
    requires 0 < n <= |f.apps| && NormalAll(f.apps[n - 1].domains) == f.apps[n - 1].domains
    ensures Partial(f, n) == Installed(Partial(f, n - 1), f.apps[n - 1])
  {
    RowsGrow(f.apps, n);
    RoutedGrows(f.apps, n);
    EnvsGrow(f.apps, n);
  }

  lemma EnvsGrow(apps: seq<AppSpec>, n: nat)
    requires 0 < n <= |apps|
    ensures Envs(apps[..n]) == Envs(apps[..n - 1])[n - 1 := apps[n - 1].mergedEnv]
  {
  }

  lemma NextPartialIsCoherent(f: State, stat: string -> bool, n: nat)
    requires Loadable(f.apps, f.operatorKey, stat) && DomainsNormal(f.apps) && n < |f.apps| && Coherent(Partial(f, n))
    ensures Coherent(Installed(Partial(f, n), f.apps[n]))
  {
    NormalAppIsLowercase(f.apps[n].domains);
    BootSlotFits(f.apps, f.operatorKey, stat, n);
    InstalledIsCoherent(Partial(f, n), f.apps[n]);
  }

  lemma {:induction false} PartialIsCoherent(f: State, stat: string -> bool, n: nat)
    requires Loadable(f.apps, f.operatorKey, stat) && DomainsNormal(f.apps) && n <= |f.apps|
    ensures Coherent(Partial(f, n))
    decreases n
  {
    if n > 0 {
      PartialIsCoherent(f, stat, n - 1);
      NextPartialIsCoherent(f, stat, n - 1);
      PartialGrows(f, n);
    }
  }

  lemma BootSlotFits(apps: seq<AppSpec>, operatorKey: string, stat: string -> bool, i: nat)
    requires Loadable(apps, operatorKey, stat) && DomainsNormal(apps) && i < |apps|
    ensures NameFree(apps[..i], apps[i].name) && DomainsFree(apps[..i], apps[i].domains) && |apps[i].domains| > 0
  {
    assert FitsAt(apps, stat, i);
    forall k | 0 <= k < i ensures apps[..i][k].name != apps[i].name && Disjoint(apps[..i][k].domains, apps[i].domains) {
      assert Compatible(apps[k], apps[i]);
    }
  }

  /** The state `ServeFleet` starts from a loaded manifest. */
  function Started(apps: seq<AppSpec>, operatorKey: string, place: Place, disk: Disk): State {
    State(apps, Some(apps), Routed(apps, |apps|), Rows(apps), {}, |apps|, Envs(apps), operatorKey, place, disk)
  }

  lemma StartedIsCoherent(apps: seq<AppSpec>, operatorKey: string, place: Place, disk: Disk, stat: string -> bool)
    requires Loadable(apps, operatorKey, stat) && DomainsNormal(apps)
    ensures Coherent(Started(apps, operatorKey, place, disk))
  {
    var f := Started(apps, operatorKey, place, disk);
    PartialIsCoherent(f, stat, |apps|);
    assert apps[..|apps|] == apps;
    FileOfApps(Partial(f, |apps|), f);
  }

  lemma RoutedStep(apps: seq<AppSpec>, n: nat, d: string)
    requires 0 < n <= |apps|
    ensures var a, before, after := apps[n - 1], Routed(apps, n - 1), Routed(apps, n);
            && (d in after <==> d in before || d in a.domains)
            && (d in a.domains ==> after[d] == CompiledApp(a.name, n - 1, FirstOf(n - 1)))
            && (d in before && d !in a.domains ==> after[d] == before[d])
  {
  }

  /** Of the apps that declare a domain the last one gets it. */
  lemma {:induction false} RoutedToLast(apps: seq<AppSpec>, n: nat, d: string, i: nat)
    requires i < n <= |apps| && d in apps[i].domains && forall j :: i < j < n ==> d !in apps[j].domains
    ensures d in Routed(apps, n) && Routed(apps, n)[d] == CompiledApp(apps[i].name, i, FirstOf(i))
    decreases n
  {
    RoutedStep(apps, n, d);
    if i < n - 1 {
      RoutedToLast(apps, n - 1, d, i);
    }
  }

  /** And no other domain routes. */
  lemma {:induction false} RoutedIsDeclared(apps: seq<AppSpec>, n: nat, d: string)
    requires n <= |apps| && forall i :: 0 <= i < n ==> d !in apps[i].domains
    ensures d !in Routed(apps, n)
    decreases n
  {
    if n > 0 {
      RoutedStep(apps, n, d);
      RoutedIsDeclared(apps, n - 1, d);
    }
  }

  /** Every entry of a started fleet serves the router its instance was compiled with. */
  lemma {:induction false} RoutedServesFirst(apps: seq<AppSpec>, n: nat)
    requires n <= |apps|
    ensures forall d :: d in Routed(apps, n) ==>
              var e := Routed(apps, n)[d];
              e.instance < n && e.router == FirstOf(e.instance) && e.name == apps[e.instance].name
    decreases n
  {
    if n > 0 {
      RoutedServesFirst(apps, n - 1);
    }
  }

  lemma StartedInstances(f: State)
    requires f.table == Routed(f.apps, |f.apps|) && f.panel == Rows(f.apps)
    requires f.nextInstance == |f.apps| && f.envs == Envs(f.apps)
    ensures Compiled(f) && RowsCompiled(f)
    ensures HotSwap.RoutersOk(HotSwap.Swaps(f, HotSwap.BootWiring(f.panel), {}, 0))
  {
    RoutedServesFirst(f.apps, |f.apps|);
  }

  lemma FileOfApps(f: State, g: State)
    requires Coherent(f) && g == f.(file := Some(f.apps))
    ensures Coherent(g)
  {
    forall i | 0 <= i < |g.apps| ensures SlotOk(g, i) {
      assert SlotOk(f, i);
    }
    forall i, j | 0 <= i < |g.apps| && 0 <= j < |g.apps| && i != j ensures Apart(g, i, j) {
      assert Apart(f, i, j);
    }
    forall d | d in g.table ensures Owned(g, d) {
      assert Owned(f, d);
    }
  }

  lemma LoadableSeparates(apps: seq<AppSpec>, operatorKey: string, stat: string -> bool)
    requires Loadable(apps, operatorKey, stat)
    ensures SecretsSound(apps) && NamesDiffer(apps)
  {
    forall i | 0 <= i < |apps| ensures RequiredPresent(apps[i].mergedEnv) {
      assert FitsAt(apps, stat, i);
    }
    forall i, j | 0 <= i < |apps| && 0 <= j < |apps| && i != j ensures Separate(apps[i], apps[j]) {
      CompatibleEverywhere(apps, operatorKey, stat, i, j);
    }
    forall i, j | 0 <= i < |apps| && 0 <= j < |apps| && i != j ensures apps[i].name != apps[j].name {
      assert Separate(apps[i], apps[j]);
    }
  }

  /** The disk mirrors a fleet that was just read from it. */
  lemma StartedMirrors(entries: seq<AppSpec>, operatorKey: string, place: Place, disk: Disk, stat: string -> bool)
    requires Loadable(ReloadAll(disk, place.dir, entries), operatorKey, stat)
    ensures Mirrors(Started(ReloadAll(disk, place.dir, entries), operatorKey, place, disk))
  {
    var apps := ReloadAll(disk, place.dir, entries);
    var f := Started(apps, operatorKey, place, disk);
    LoadableSeparates(apps, operatorKey, stat);
    forall i | 0 <= i < |apps| ensures NormalAll(apps[i].domains) == apps[i].domains && EntryMirrors(f, i) {
      NormalAllIdempotent(entries[i].domains);
      assert FitsAt(apps, stat, i);
    }
  }

  /** Which apps compile. */
  method CompileAll(apps: seq<AppSpec>, w: World, reachable: bool) returns (built: seq<bool>)
    ensures |built| == |apps|
    ensures (forall i :: 0 <= i < |apps| ==> built[i]) <==> |apps| == 0 || (reachable && AllBuild(apps, w))
  {
    built := [];
    for i := 0 to |apps|
      invariant |built| == i
      invariant forall k :: 0 <= k < i ==> built[k] == (reachable && Builds(w, apps[k].schema, apps[k].mergedEnv))
    {
      built := built + [reachable && Builds(w, apps[i].schema, apps[i].mergedEnv)];
    }
    if |apps| > 0 && forall i :: 0 <= i < |apps| ==> built[i] {
      assert built[0];
    }
  }

  /**
   * A fleet start comes up if and only if the manifest loads, databases and ports are there and
   * every app compiles. Then the four states are coherent, the disk mirrors them, live secrets are
   * separate, and the fleet starts again.
   */
  method StartFleet(
    entries: seq<AppSpec>, operatorKey: string, place: Place, disk: Disk, w: World, reachable: bool)
    returns (r: Option<State>)
    ensures r.Some? <==>
              && reachable
              && Loadable(ReloadAll(disk, place.dir, entries), operatorKey, w.stat)
              && AllBuild(ReloadAll(disk, place.dir, entries), w)
    ensures r.Some? ==> Coherent(r.value) && Mirrors(r.value) && Boots(r.value, w)
    ensures r.Some? ==> InSync(r.value) && SecretsSound(r.value.apps) && LiveSecretsApart(r.value)
    ensures r.Some? ==> Compiled(r.value) && RowsCompiled(r.value) && RoutedApart(r.value)
    ensures r.Some? ==>
              var s := HotSwap.Swaps(r.value, HotSwap.BootWiring(r.value.panel), {}, 0);
              HotSwap.Inv(s) && HotSwap.PendingLive(s) && HotSwap.RoutersOk(s)
    ensures r.Some? ==> r.value == Started(ReloadAll(disk, place.dir, entries), operatorKey, place, disk)
  {
    var ok, apps := LoadManifest(entries, disk, place.dir, operatorKey, w.stat);
    if !ok {
      return None;
    }
    var built := CompileAll(apps, w, reachable);
    r := ServeFleet(apps, operatorKey, Some(apps), place, disk, built);
    if r.Some? {
      StartedIsInOrder(entries, operatorKey, place, disk, w);
      StartedInstances(r.value);
      CoherentApartAgree(r.value);
      HotSwap.BootEstablishesInv(r.value);
    }
  }

  lemma StartedIsInOrder(entries: seq<AppSpec>, operatorKey: string, place: Place, disk: Disk, w: World)
    requires Loadable(ReloadAll(disk, place.dir, entries), operatorKey, w.stat)
    requires AllBuild(ReloadAll(disk, place.dir, entries), w)
    ensures var f := Started(ReloadAll(disk, place.dir, entries), operatorKey, place, disk);
            && Coherent(f) && Mirrors(f) && Boots(f, w)
            && InSync(f) && SecretsSound(f.apps) && LiveSecretsApart(f)
  {
    var apps := ReloadAll(disk, place.dir, entries);
    var f := Started(apps, operatorKey, place, disk);
    StartedMirrors(entries, operatorKey, place, disk, w.stat);
    StartedIsCoherent(apps, operatorKey, place, disk, w.stat);
    LoadableSeparates(apps, operatorKey, w.stat);
    assert InSync(f);
    InSyncSeparates(f);
    MirroredReloadsIffLoadable(f, w.stat);
    MirroredBuilds(f, w);
  }
}
