/** The Host registry of registry.go: a copy-on-write domain table. */
module Registry {
  import opened Text
  import opened Hosts

  /** The router an instance was compiled with, or one that `rebuildRouter` returned later. */
  datatype Router = FirstOf(instance: nat) | Rebuilt(serial: nat)

  /** One servable app: its name, the *App instance behind it and the router that serves it. */
  datatype CompiledApp = CompiledApp(name: string, instance: nat, router: Router)

  type Table = map<string, CompiledApp>

  function LowerAll(ds: seq<string>): (s: set<string>)
    ensures forall d :: d in ds ==> Lower(d) in s
  {
    set d | d in ds :: Lower(d)
  }

  function Assign(ks: set<string>, app: CompiledApp): Table {
    map d | d in ks :: app
  }

  /** The table after `app` took over `ds`. */
  function Put(m: Table, ds: seq<string>, app: CompiledApp): Table {
    m + Assign(LowerAll(ds), app)
  }

  /** The table after `ds` were unregistered. */
  function Drop(m: Table, ds: seq<string>): Table {
    m - LowerAll(ds)
  }

  /** What one registration means for each host name: the named ones move, every other keeps its entry. */
  lemma PutTouchesOnlyNamed(m: Table, ds: seq<string>, app: CompiledApp, d: string)
    ensures d in LowerAll(ds) ==> d in Put(m, ds, app) && Put(m, ds, app)[d] == app
    ensures d !in LowerAll(ds) ==> (d in Put(m, ds, app) <==> d in m)
    ensures d !in LowerAll(ds) && d in m ==> Put(m, ds, app)[d] == m[d]
    ensures d !in LowerAll(ds) ==> (d in Drop(m, ds) <==> d in m)
    ensures d !in LowerAll(ds) && d in m ==> Drop(m, ds)[d] == m[d]
    ensures d in LowerAll(ds) ==> d !in Drop(m, ds)
  {
  }

  lemma LowerAllExtend(ds: seq<string>, i: nat)
    requires i < |ds|
    ensures LowerAll(ds[..i + 1]) == LowerAll(ds[..i]) + {Lower(ds[i])}
  {
    assert ds[..i + 1] == ds[..i] + [ds[i]];
    forall x | x in LowerAll(ds[..i + 1]) ensures x in LowerAll(ds[..i]) + {Lower(ds[i])} {
      var d :| d in ds[..i + 1] && x == Lower(d);
    }
    forall x | x in LowerAll(ds[..i]) ensures x in LowerAll(ds[..i + 1]) {
      var d :| d in ds[..i] && x == Lower(d);
      assert d in ds[..i + 1];
    }
    assert ds[i] in ds[..i + 1];
  }

  /** One more domain of the list inserted, or deleted. */
  lemma PutExtend(m: Table, ds: seq<string>, i: nat, app: CompiledApp)
    requires i < |ds|
    ensures Put(m, ds[..i + 1], app) == Put(m, ds[..i], app)[Lower(ds[i]) := app]
    ensures Drop(m, ds[..i + 1]) == Drop(m, ds[..i]) - {Lower(ds[i])}
  {
    LowerAllExtend(ds, i);
    assert Assign(LowerAll(ds[..i + 1]), app) == Assign(LowerAll(ds[..i]), app)[Lower(ds[i]) := app];
  }

  class Registry {
    var domains: Table
    var def: CompiledApp

    constructor (def: CompiledApp, domains: Table)
      ensures this.def == def && this.domains == domains
    {
      this.def := def;
      this.domains := domains;
    }

    /** The app owning `host`: two passes of the label walk over the one table loaded here. */
    method Resolve(host: string) returns (app: CompiledApp)
      ensures app == ResolveIn(domains, def, host)
      ensures forall h :: Names(host, h) ==> AnswersFor(domains, def, h, app)
    {
      var m := domains;
      forall h | Names(host, h) ensures AnswersFor(domains, def, h, ResolveIn(domains, def, host)) {
        ResolveIsLongestSuffix(domains, def, host, h);
      }
      if |m| != 0 {
        var h := TrimHostPort(host);
        ghost var h0 := h;
        var retried := false;
        while true
          invariant m == domains && h0 == TrimHostPort(host)
          invariant !retried ==> h == h0
          invariant retried ==> h == Lower(h0) && Walk(m, h0).None?
          decreases !retried
        {
          var s := h;
          while true
            invariant Walk(m, h) == Walk(m, s)
            decreases |s|
          {
            if s in m {
              return m[s];
            }
            var i := IndexOf(s, '.');
            if i < 0 {
              break;
            }
            s := s[i + 1..];
          }
          LowerIdempotent(h0);
          if retried || h == Lower(h) {
            break;
          }
          h := Lower(h);
          retried := true;
        }
      } else {
        var h := TrimHostPort(host);
        EmptyTableMatchesNothing(m, h);
        EmptyTableMatchesNothing(m, Lower(h));
      }
      return def;
    }

    /** `swapDomains` with the insertion of `SwapApp`: clone, mutate the clone, publish it. */
    method SwapApp(names: seq<string>, app: CompiledApp)
      modifies this`domains
      ensures domains == Put(old(domains), names, app)
    {
      var next := Clone(domains);
      for i := 0 to |names|
        invariant next == Put(domains, names[..i], app)
        invariant domains == old(domains)
      {
        PutExtend(domains, names, i, app);
        next := next[Lower(names[i]) := app];
      }
      assert names[..|names|] == names;
      domains := next;
    }

    method AddApp(names: seq<string>, app: CompiledApp)
      modifies this`domains
      ensures domains == Put(old(domains), names, app)
    {
      SwapApp(names, app);
    }

    /** `swapDomains` with the deletion of `RemoveApp`. */
    method RemoveApp(names: seq<string>)
      modifies this`domains
      ensures domains == Drop(old(domains), names)
    {
      var next := Clone(domains);
      for i := 0 to |names|
        invariant next == Drop(domains, names[..i])
        invariant domains == old(domains)
      {
        PutExtend(domains, names, i, def);
        next := next - {Lower(names[i])};
      }
      assert names[..|names|] == names;
      domains := next;
    }

    /** The console's inventory: domain to app name. */
    method Snapshot() returns (out: map<string, string>)
      ensures out.Keys == domains.Keys
      ensures forall d :: d in domains ==> out[d] == domains[d].name
    {
      var m := domains;
      out := map[];
      var left := m.Keys;
      while left != {}
        invariant left <= m.Keys && out.Keys == m.Keys - left
        invariant forall d :: d in out ==> out[d] == m[d].name
        decreases left
      {
        var d :| d in left;
        out := out[d := m[d].name];
        left := left - {d};
      }
    }
  }

  /** The entry-by-entry copy of `swapDomains`, in whatever order the map yields its keys. */
  method Clone(cur: Table) returns (next: Table)
    ensures next == cur
  {
    next := map[];
    var left := cur.Keys;
    while left != {}
      invariant left <= cur.Keys && next.Keys == cur.Keys - left
      invariant forall d :: d in next ==> next[d] == cur[d]
      decreases left
    {
      var d :| d in left;
      next := next[d := cur[d]];
      left := left - {d};
    }
  }

  lemma EmptyTableMatchesNothing<A>(m: map<string, A>, s: string)
    requires m == map[]
    ensures Walk(m, s).None?
    decreases |s|
  {
  }

  /**
   * `app` answers for the bare host name `h`: the longest registered label suffix of the name as
   * written, else of its lowercase, else the default app.
   */
  ghost predicate AnswersFor(m: Table, def: CompiledApp, h: string, app: CompiledApp) {
    if !Unmatched(m, h) then exists k :: LongestAt(m, h, k) && app == m[h[k..]]
    else if !Unmatched(m, Lower(h)) then exists k :: LongestAt(m, Lower(h), k) && app == m[Lower(h)[k..]]
    else app == def
  }

  /** What `Resolve` answers, without the walk: the app of the name the header asks for. */
  lemma ResolveIsLongestSuffix(m: Table, def: CompiledApp, host: string, h: string)
    requires Names(host, h)
    ensures AnswersFor(m, def, h, ResolveIn(m, def, host))
  {
    NamesIff(host, h);
    WalkFindsLongest(m, h);
    WalkFindsLongest(m, Lower(h));
  }

  /** A plain host is matched as it stands, and a port behind it changes nothing. */
  lemma PortIsIgnored(m: Table, def: CompiledApp, h: string, port: string)
    requires ':' !in h && !("[" <= h)
    ensures AnswersFor(m, def, h, ResolveIn(m, def, h))
    ensures ResolveIn(m, def, h + ":" + port) == ResolveIn(m, def, h)
  {
    var host := h + ":" + port;
    assert h + ":" == host[..|h| + 1];
    assert h == host[..|h|];
    NamesIff(host, h);
    NamesIff(h, h);
    ResolveIsLongestSuffix(m, def, h, h);
  }

  /** A bracketed address is matched without its brackets, whatever follows them. */
  lemma BracketsAreStripped(m: Table, def: CompiledApp, h: string, tail: string)
    requires ']' !in h
    ensures AnswersFor(m, def, h, ResolveIn(m, def, "[" + h + "]" + tail))
  {
    var host := "[" + h + "]" + tail;
    assert "[" + h + "]" == host[..|h| + 2];
    ResolveIsLongestSuffix(m, def, host, h);
  }
}
