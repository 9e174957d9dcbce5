/** Fleet manifests: the rules of `LoadManifest` and of `ValidateNewApp` (pkg/fleet). */
module Manifest {
  import opened Text
  import opened Hosts
  import EnvFile

  type Env = map<string, string>

  const DATABASE_URL := "DATABASE_URL"
  const JWT_SECRET := "JWT_SECRET"
  const ADMIN_KEY := "ADMIN_KEY"

  datatype AppSpec = AppSpec(
    name: string,
    schema: string,
    domains: seq<string>,
    envFile: string,
    env: Env,
    mergedEnv: Env)

  /** A Go map read: the empty string for a missing key. */
  function Get(env: Env, k: string): string {
    if k in env then env[k] else ""
  }

  /** `^[a-z][a-z0-9_-]*$` */
  predicate NameOk(name: string) {
    && name != ""
    && 'a' <= name[0] <= 'z'
    && forall i :: 0 < i < |name| ==> 'a' <= name[i] <= 'z' || '0' <= name[i] <= '9' || name[i] == '_' || name[i] == '-'
  }

  function Normal(d: string): string {
    Lower(TrimSpace(d))
  }

  function NormalAll(ds: seq<string>): (ns: seq<string>)
    ensures |ns| == |ds| && forall i :: 0 <= i < |ds| ==> ns[i] == Normal(ds[i])
  {
    seq(|ds|, i requires 0 <= i < |ds| => Normal(ds[i]))
  }

  predicate HostnameOk(d: string) {
    d != "" && '/' !in d && ':' !in d
  }

  predicate RequiredPresent(env: Env) {
    Get(env, DATABASE_URL) != "" && Get(env, JWT_SECRET) != "" && Get(env, ADMIN_KEY) != ""
  }

  /** The fleet key must not coincide with an app credential. */
  predicate KeyApart(operatorKey: string, env: Env) {
    operatorKey != "" ==> operatorKey != Get(env, ADMIN_KEY) && operatorKey != Get(env, JWT_SECRET)
  }

  ghost predicate Distinct<T>(s: seq<T>) {
    forall i, j :: 0 <= i < j < |s| ==> s[i] != s[j]
  }

  ghost predicate Disjoint(ds: seq<string>, es: seq<string>) {
    forall d :: d in ds ==> d !in es
  }

  /** The rules on one app, except that its own domains be distinct. */
  ghost predicate AppOk(a: AppSpec, stat: string -> bool) {
    && NameOk(a.name)
    && a.schema != "" && stat(a.schema)
    && |a.domains| > 0
    && (forall d :: d in NormalAll(a.domains) ==> HostnameOk(d))
    && RequiredPresent(a.mergedEnv)
  }

  /** The rules on two apps of one fleet. */
  ghost predicate Compatible(a: AppSpec, b: AppSpec) {
    && a.name != b.name
    && Disjoint(NormalAll(a.domains), NormalAll(b.domains))
    && Get(a.mergedEnv, JWT_SECRET) != Get(b.mergedEnv, JWT_SECRET)
  }

  /** App `i` fits with the apps declared before it. */
  ghost predicate FitsAt(apps: seq<AppSpec>, stat: string -> bool, i: nat) {
    && i < |apps|
    && AppOk(apps[i], stat)
    && Distinct(NormalAll(apps[i].domains))
    && forall k :: 0 <= k < i ==> Compatible(apps[k], apps[i])
  }

  /** What a fleet start accepts. */
  ghost predicate Loadable(apps: seq<AppSpec>, operatorKey: string, stat: string -> bool) {
    && |apps| > 0
    && (forall i :: 0 <= i < |apps| ==> FitsAt(apps, stat, i))
    && (forall i :: 0 <= i < |apps| ==> KeyApart(operatorKey, apps[i].mergedEnv))
  }

  ghost predicate NameFree(apps: seq<AppSpec>, name: string) {
    forall i :: 0 <= i < |apps| ==> apps[i].name != name
  }

  ghost predicate DomainsFree(apps: seq<AppSpec>, ns: seq<string>) {
    forall i :: 0 <= i < |apps| ==> Disjoint(apps[i].domains, ns)
  }

  ghost predicate SecretFree(apps: seq<AppSpec>, secret: string) {
    forall i :: 0 <= i < |apps| ==> Get(apps[i].mergedEnv, JWT_SECRET) != secret
  }

  /** What a hot add accepts: the app as `ValidateNewApp` leaves it, with normal domains and merged env. */
  ghost predicate Admissible(apps: seq<AppSpec>, operatorKey: string, stat: string -> bool, a: AppSpec) {
    && AppOk(a, stat)
    && KeyApart(operatorKey, a.mergedEnv)
    && NameFree(apps, a.name)
    && DomainsFree(apps, NormalAll(a.domains))
    && SecretFree(apps, Get(a.mergedEnv, JWT_SECRET))
  }

  // Env files.

  /** Absolute path to file content. */
  type Disk = map<string, string>

  predicate IsAbs(p: string) {
    p != "" && p[0] == '/'
  }

  /** A path taken relative to a directory. */
  function At(base: string, p: string): string {
    if IsAbs(p) then p else base + "/" + p
  }

  /** What an `env_file` declaration contributes: nothing when empty, None when it cannot be read. */
  function FileEnv(disk: Disk, base: string, envFile: string): Option<Env> {
    if envFile == "" then Some(map[])
    else if At(base, envFile) in disk then EnvFile.Parse(disk[At(base, envFile)])
    else None
  }

  /** The env of an entry as a fleet start resolves it: the file first, explicit entries win. */
  function DiskEnv(disk: Disk, base: string, e: AppSpec): Option<Env> {
    match FileEnv(disk, base, e.envFile)
    case None => None
    case Some(m) => Some(m + e.env)
  }

  /** An entry as `LoadManifest` leaves it; an env that cannot be read counts as empty, which no rule lets pass. */
  function Reload(disk: Disk, base: string, e: AppSpec): AppSpec {
    var env := DiskEnv(disk, base, e);
    e.(domains := NormalAll(e.domains), mergedEnv := if env.Some? then env.value else map[])
  }

  function ReloadAll(disk: Disk, base: string, es: seq<AppSpec>): (apps: seq<AppSpec>)
    ensures |apps| == |es| && forall i :: 0 <= i < |es| ==> apps[i] == Reload(disk, base, es[i])
  {
    seq(|es|, i requires 0 <= i < |es| => Reload(disk, base, es[i]))
  }

  // Compiling an app.

  /**
   * What a fleet start finds outside the manifest: which schema paths exist, and which schemas the
   * engine takes with which env once the secret is long enough.
   */
  datatype World = World(stat: string -> bool, accepts: (string, Env) -> bool)

  /** The floor `New` sets for the signing secret, in bytes. */
  const MinJwtSecretLen: nat := 32

  /** The compile of an app when its database and ports are there. */
  predicate Builds(w: World, schema: string, env: Env) {
    ByteLen(Get(env, JWT_SECRET)) >= MinJwtSecretLen && w.accepts(schema, env)
  }

  /** Nothing compiles with a signing secret under 32 bytes, a missing one included. */
  lemma BuildsOnLongSecret(w: World, schema: string, env: Env)
    ensures Builds(w, schema, env) <==>
              "JWT_SECRET" in env && ByteLen(env["JWT_SECRET"]) >= 32 && w.accepts(schema, env)
  {
  }

  /** The candidate after validation; `fileEnv` is what its env file holds. */
  function Resolved(a: AppSpec, fileEnv: Env): AppSpec {
    a.(domains := NormalAll(a.domains), mergedEnv := fileEnv + a.env)
  }

  lemma NormalIdempotent(d: string)
    ensures Normal(Normal(d)) == Normal(d)
  {
    var t := TrimSpace(d);
    var lo, hi := TrimSplits(d);
    assert Trimmed(t);
    forall i | 0 <= i < |t| ensures IsSpace(Lower(t)[i]) <==> IsSpace(t[i]) {
    }
    TrimSpaceFixpoint(Lower(t));
    LowerIdempotent(t);
  }

  lemma NormalAllIdempotent(ds: seq<string>)
    ensures NormalAll(NormalAll(ds)) == NormalAll(ds)
  {
    forall i | 0 <= i < |ds| ensures NormalAll(NormalAll(ds))[i] == NormalAll(ds)[i] {
      NormalIdempotent(ds[i]);
    }
  }

  /** `claimed` holds the domains of the first `n` apps. */
  ghost predicate ClaimedBy(claimed: set<string>, apps: seq<AppSpec>, n: nat) {
    n <= |apps| && forall d :: d in claimed <==> exists i :: 0 <= i < n && d in apps[i].domains
  }

  /** Explicit entries win over those of the file. */
  ghost predicate Overlaid(file: Env, explicit: Env, merged: Env) {
    forall k ::
      && (k in merged <==> k in explicit || k in file)
      && (k in merged ==> merged[k] == if k in explicit then explicit[k] else file[k])
  }

  /** The env block of both loaders: parse the file, overlay the explicit entries. */
  method ResolveEnv(disk: Disk, base: string, a: AppSpec) returns (merged: Option<Env>)
    ensures merged == DiskEnv(disk, base, a)
    ensures a.envFile == "" ==> merged.Some? && Overlaid(map[], a.env, merged.value)
    ensures a.envFile != "" ==>
              var path := At(base, a.envFile);
              && (merged.Some? <==> path in disk && EnvFile.Parse(disk[path]).Some?)
              && (merged.Some? ==> Overlaid(EnvFile.Parse(disk[path]).value, a.env, merged.value))
  {
    var fileEnv: Option<Env> := Some(map[]);
    if a.envFile != "" {
      if At(base, a.envFile) !in disk {
        return None;
      }
      fileEnv := EnvFile.ParseEnvFile(disk[At(base, a.envFile)]);
      if fileEnv.None? {
        return None;
      }
    }
    var all := Overlay(fileEnv.value, a.env);
    return Some(all);
  }

  /** `ValidateNewApp`: `base` is where a relative env file is looked up. */
  method ValidateNewApp(apps: seq<AppSpec>, operatorKey: string, stat: string -> bool, a: AppSpec, disk: Disk,
      base: string)
    returns (ok: bool, resolved: AppSpec)
    ensures ok <==>
              && FileEnv(disk, base, a.envFile).Some?
              && Admissible(apps, operatorKey, stat, Resolved(a, FileEnv(disk, base, a.envFile).value))
    ensures ok ==> resolved == Resolved(a, FileEnv(disk, base, a.envFile).value)
  {
    resolved := a;
    NormalAllIdempotent(a.domains);
    var free := CheckName(apps, a.name);
    if !NameOk(a.name) || !free || a.schema == "" || !stat(a.schema) || |a.domains| == 0 {
      return false, resolved;
    }
    var ns := NormalAll(a.domains);
    var hosts := CheckDomains(apps, ns);
    if !hosts {
      return false, resolved;
    }
    var env := ResolveEnv(disk, base, a);
    if env.None? {
      return false, resolved;
    }
    var merged := env.value;
    resolved := a.(domains := ns, mergedEnv := merged);
    var unused := CheckSecret(apps, Get(merged, JWT_SECRET));
    ok := RequiredPresent(merged) && unused && KeyApart(operatorKey, merged);
  }

  method CheckName(apps: seq<AppSpec>, name: string) returns (ok: bool)
    ensures ok <==> NameFree(apps, name)
  {
    for i := 0 to |apps|
      invariant forall k :: 0 <= k < i ==> apps[k].name != name
    {
      if apps[i].name == name {
        return false;
      }
    }
    ok := true;
  }

  method CheckSecret(apps: seq<AppSpec>, secret: string) returns (ok: bool)
    ensures ok <==> SecretFree(apps, secret)
  {
    for i := 0 to |apps|
      invariant forall k :: 0 <= k < i ==> Get(apps[k].mergedEnv, JWT_SECRET) != secret
    {
      if Get(apps[i].mergedEnv, JWT_SECRET) == secret {
        return false;
      }
    }
    ok := true;
  }

  /** The new domains against the `claimed` map; among themselves they are not compared. */
  method CheckDomains(apps: seq<AppSpec>, ns: seq<string>) returns (ok: bool)
    ensures ok <==> (forall d :: d in ns ==> HostnameOk(d)) && DomainsFree(apps, ns)
  {
    var claimed := ClaimedDomains(apps);
    for j := 0 to |ns|
      invariant forall k :: 0 <= k < j ==> HostnameOk(ns[k]) && ns[k] !in claimed
    {
      if !HostnameOk(ns[j]) || ns[j] in claimed {
        return false;
      }
    }
    forall i | 0 <= i < |apps| ensures Disjoint(apps[i].domains, ns) {
      assert forall d :: d in apps[i].domains ==> d in claimed;
    }
    ok := true;
  }

  method ClaimedDomains(apps: seq<AppSpec>) returns (claimed: set<string>)
    ensures ClaimedBy(claimed, apps, |apps|)
  {
    claimed := {};
    for i := 0 to |apps|
      invariant ClaimedBy(claimed, apps, i)
    {
      ghost var before := claimed;
      for j := 0 to |apps[i].domains|
        invariant forall d :: d in claimed <==> d in before || d in apps[i].domains[..j]
      {
        claimed := claimed + {apps[i].domains[j]};
      }
      assert apps[i].domains[..|apps[i].domains|] == apps[i].domains;
    }
  }

  /**
   * A new app that passed `ValidateNewApp` and keeps its env fits into a loadable fleet exactly
   * when no two of its domains are the same host.
   */
  lemma NewAppFitsIffDistinct(apps: seq<AppSpec>, operatorKey: string, stat: string -> bool, a: AppSpec)
    requires Loadable(apps, operatorKey, stat) && forall i :: 0 <= i < |apps| ==>
              NormalAll(apps[i].domains) == apps[i].domains
    requires Admissible(apps, operatorKey, stat, a)
    ensures Loadable(apps + [a], operatorKey, stat) <==> Distinct(NormalAll(a.domains))
  {
    var all := apps + [a];
    assert all[|apps|] == a;
    forall i | 0 <= i < |apps| ensures FitsAt(all, stat, i) && Compatible(apps[i], a) {
      assert FitsAt(apps, stat, i);
      assert all[i] == apps[i];
      forall k | 0 <= k < i ensures Compatible(all[k], all[i]) {
        assert all[k] == apps[k];
      }
      assert Disjoint(apps[i].domains, NormalAll(a.domains));
    }
    forall k | 0 <= k < |apps| ensures Compatible(all[k], all[|apps|]) {
      assert all[k] == apps[k];
    }
    assert FitsAt(all, stat, |apps|) <==> Distinct(NormalAll(a.domains));
  }

  /** The maps `LoadManifest` keeps while it walks the apps. */
  datatype Seen = Seen(names: set<string>, domains: set<string>, secrets: set<string>)

  ghost predicate SeenUpTo(seen: Seen, apps: seq<AppSpec>, n: nat) {
    && n <= |apps|
    && (forall x :: x in seen.names <==> exists k :: 0 <= k < n && apps[k].name == x)
    && (forall x :: x in seen.domains <==> exists k :: 0 <= k < n && x in NormalAll(apps[k].domains))
    && (forall x :: x in seen.secrets <==> exists k :: 0 <= k < n && Get(apps[k].mergedEnv, JWT_SECRET) == x)
  }

  /**
   * `LoadManifest`: one pass over the entries of the file with the names, domains and secrets seen
   * so far, each env resolved from the disk on the way, then the operator key.
   */
  method LoadManifest(entries: seq<AppSpec>, disk: Disk, dir: string, operatorKey: string, stat: string -> bool)
    returns (ok: bool, apps: seq<AppSpec>)
    ensures ok <==> Loadable(ReloadAll(disk, dir, entries), operatorKey, stat)
    ensures ok ==> apps == ReloadAll(disk, dir, entries)
    ensures ok ==> forall i :: 0 <= i < |entries| ==> LoadedFrom(disk, dir, entries[i], apps[i])
  {
    LoadedEntries(entries, disk, dir, operatorKey, stat);
    ok, apps := LoadEntries(entries, disk, dir, stat);
    FirstFitIff(ReloadAll(disk, dir, entries), stat, |entries|);
    if !ok || |entries| == 0 {
      return false, apps;
    }
    ok := KeysApart(apps, operatorKey);
  }

  /** What a loaded entry holds: the declared fields, hosts trimmed and lowercased, the env of file and entry. */
  ghost predicate LoadedFrom(disk: Disk, base: string, e: AppSpec, a: AppSpec) {
    && a == e.(domains := a.domains, mergedEnv := a.mergedEnv)
    && |a.domains| == |e.domains|
    && (forall j :: 0 <= j < |e.domains| ==> a.domains[j] == Lower(TrimSpace(e.domains[j])))
    && if e.envFile == "" then Overlaid(map[], e.env, a.mergedEnv)
       else
         && At(base, e.envFile) in disk && EnvFile.Parse(disk[At(base, e.envFile)]).Some?
         && Overlaid(EnvFile.Parse(disk[At(base, e.envFile)]).value, e.env, a.mergedEnv)
  }

  lemma LoadedEntries(entries: seq<AppSpec>, disk: Disk, dir: string, operatorKey: string, stat: string -> bool)
    ensures var apps := ReloadAll(disk, dir, entries);
            Loadable(apps, operatorKey, stat) ==>
              forall i :: 0 <= i < |entries| ==> LoadedFrom(disk, dir, entries[i], apps[i])
  {
    var apps := ReloadAll(disk, dir, entries);
    if Loadable(apps, operatorKey, stat) {
      forall i | 0 <= i < |entries| ensures LoadedFrom(disk, dir, entries[i], apps[i]) {
        assert FitsAt(apps, stat, i);
      }
    }
  }

  /** In a loadable fleet no host name is declared twice, in one app or in two. */
  lemma LoadableHostsDiffer(
    apps: seq<AppSpec>, operatorKey: string, stat: string -> bool, i: nat, p: nat, j: nat, q: nat)
    requires Loadable(apps, operatorKey, stat) && i < |apps| && j < |apps|
    requires p < |apps[i].domains| && q < |apps[j].domains| && (i != j || p != q)
    ensures Lower(TrimSpace(apps[i].domains[p])) != Lower(TrimSpace(apps[j].domains[q]))
  {
    assert FitsAt(apps, stat, i) && FitsAt(apps, stat, j);
    var ds, es := NormalAll(apps[i].domains), NormalAll(apps[j].domains);
    assert ds[p] in ds && es[q] in es;
    if i != j {
      var k, l := if i < j then i else j, if i < j then j else i;
      assert Compatible(apps[k], apps[l]);
    }
  }

  /** What every app of a loadable fleet brings with it. */
  lemma LoadableAppsAreComplete(
    apps: seq<AppSpec>, operatorKey: string, stat: string -> bool, i: nat, p: nat)
    requires Loadable(apps, operatorKey, stat) && i < |apps| && p < |apps[i].domains|
    ensures var a := apps[i];
            && a.name != "" && 'a' <= a.name[0] <= 'z' && stat(a.schema)
            && (forall c :: c in a.name ==> 'a' <= c <= 'z' || '0' <= c <= '9' || c == '_' || c == '-')
            && (forall k :: k in ["DATABASE_URL", "JWT_SECRET", "ADMIN_KEY"] ==>
                  k in a.mergedEnv && a.mergedEnv[k] != "" &&
                  (k != "DATABASE_URL" && operatorKey != "" ==> a.mergedEnv[k] != operatorKey))
            && var d := Lower(TrimSpace(a.domains[p]));
            && d != "" && (forall c :: c in d ==> c != '/' && c != ':')
  {
    assert FitsAt(apps, stat, i);
    assert NormalAll(apps[i].domains)[p] in NormalAll(apps[i].domains);
  }

  method KeysApart(apps: seq<AppSpec>, operatorKey: string) returns (ok: bool)
    ensures ok <==> forall i :: 0 <= i < |apps| ==> KeyApart(operatorKey, apps[i].mergedEnv)
  {
    for i := 0 to |apps|
      invariant forall k :: 0 <= k < i ==> KeyApart(operatorKey, apps[k].mergedEnv)
    {
      if !KeyApart(operatorKey, apps[i].mergedEnv) {
        return false;
      }
    }
    ok := true;
  }

  /** The first `n` apps fit. */
  ghost predicate FirstFit(apps: seq<AppSpec>, stat: string -> bool, n: nat)
    requires n <= |apps|
  {
    n == 0 || (FirstFit(apps, stat, n - 1) && FitsAt(apps, stat, n - 1))
  }

  lemma {:induction false} FirstFitIff(apps: seq<AppSpec>, stat: string -> bool, n: nat)
    requires n <= |apps|
    ensures FirstFit(apps, stat, n) <==> forall i :: 0 <= i < n ==> FitsAt(apps, stat, i)
    decreases n
  {
    if n > 0 {
      FirstFitIff(apps, stat, n - 1);
    }
  }

  lemma {:induction false} MisfitStays(apps: seq<AppSpec>, stat: string -> bool, n: nat, k: nat)
    requires n <= k <= |apps| && !FirstFit(apps, stat, n)
    ensures !FirstFit(apps, stat, k)
    decreases k
  {
    if n < k {
      MisfitStays(apps, stat, n, k - 1);
    }
  }

  /** The loop over the apps. */
  method LoadEntries(entries: seq<AppSpec>, disk: Disk, dir: string, stat: string -> bool)
      returns (ok: bool, apps: seq<AppSpec>)
    ensures var all := ReloadAll(disk, dir, entries);
            && (ok <==> FirstFit(all, stat, |all|))
            && (ok ==> apps == all)
  {
    apps := [];
    ghost var all := ReloadAll(disk, dir, entries);
    var seen := Seen({}, {}, {});
    for i := 0 to |entries|
      invariant apps == all[..i]
      invariant FirstFit(all, stat, i)
      invariant seen == SeenOf(all, i)
    {
      var a;
      ok, a, seen := LoadEntry(entries[i], disk, dir, all, stat, i, seen);
      if !ok {
        MisfitStays(all, stat, i + 1, |all|);
        return false, apps;
      }
      apps := apps + [a];
    }
    ok := true;
  }

  /** The body of the loop: resolve the env, check the rules. */
  method LoadEntry(e: AppSpec, disk: Disk, dir: string, ghost apps: seq<AppSpec>, stat: string -> bool, ghost i: nat,
      seen: Seen)
    returns (ok: bool, a: AppSpec, next: Seen)
    requires i < |apps| && apps[i] == Reload(disk, dir, e) && seen == SeenOf(apps, i) && FirstFit(apps, stat, i)
    ensures ok <==> FirstFit(apps, stat, i + 1)
    ensures ok ==> a == apps[i] && next == SeenOf(apps, i + 1)
  {
    a, next := e, seen;
    var env := ResolveEnv(disk, dir, e);
    if env.None? {
      assert !RequiredPresent(apps[i].mergedEnv);
      return false, a, next;
    }
    a := e.(domains := NormalAll(e.domains), mergedEnv := env.value);
    ok, next := LoadApp(a, apps, stat, i, seen);
  }

  /** The rules on one app of the loop. */
  method LoadApp(a: AppSpec, ghost apps: seq<AppSpec>, stat: string -> bool, ghost i: nat, seen: Seen)
    returns (ok: bool, next: Seen)
    requires i < |apps| && a == apps[i] && seen == SeenOf(apps, i)
    ensures ok <==> FitsAt(apps, stat, i)
    ensures ok ==> next == SeenOf(apps, i + 1)
  {
    next := seen;
    var fits, claimed := ClaimOwn(NormalAll(a.domains), HostnameOk, seen.domains);
    SeenOfIs(apps, i);
    UnseenIsCompatible(apps, i, seen);
    ok := && NameOk(a.name) && a.name !in seen.names
          && a.schema != "" && stat(a.schema)
          && |a.domains| > 0 && fits
          && RequiredPresent(a.mergedEnv) && Get(a.mergedEnv, JWT_SECRET) !in seen.secrets;
    if ok {
      next := Seen(seen.names + {a.name}, claimed, seen.secrets + {Get(a.mergedEnv, JWT_SECRET)});
      assert claimed == seen.domains + (set d | d in NormalAll(a.domains));
    }
  }

  /** What the first `n` apps put into the maps. */
  ghost function SeenOf(apps: seq<AppSpec>, n: nat): Seen
    requires n <= |apps|
  {
    if n == 0 then Seen({}, {}, {})
    else
      var p, a := SeenOf(apps, n - 1), apps[n - 1];
      Seen(p.names + {a.name}, p.domains + (set d | d in NormalAll(a.domains)),
          p.secrets + {Get(a.mergedEnv, JWT_SECRET)})
  }

  lemma SeenStep(apps: seq<AppSpec>, n: nat, x: string)
    requires 0 < n <= |apps|
    ensures var p, q, a := SeenOf(apps, n - 1), SeenOf(apps, n), apps[n - 1];
            && (x in q.names <==> x in p.names || x == a.name)
            && (x in q.domains <==> x in p.domains || x in NormalAll(a.domains))
            && (x in q.secrets <==> x in p.secrets || x == Get(a.mergedEnv, JWT_SECRET))
  {
  }

  lemma {:induction false} NamesSeen(apps: seq<AppSpec>, n: nat, x: string)
    requires n <= |apps|
    ensures x in SeenOf(apps, n).names <==> exists k :: 0 <= k < n && apps[k].name == x
    decreases n
  {
    if n > 0 {
      SeenStep(apps, n, x);
      NamesSeen(apps, n - 1, x);
    }
  }

  lemma {:induction false} DomainsSeen(apps: seq<AppSpec>, n: nat, x: string)
    requires n <= |apps|
    ensures x in SeenOf(apps, n).domains <==> exists k :: 0 <= k < n && x in NormalAll(apps[k].domains)
    decreases n
  {
    if n > 0 {
      SeenStep(apps, n, x);
      DomainsSeen(apps, n - 1, x);
    }
  }

  lemma {:induction false} SecretsSeen(apps: seq<AppSpec>, n: nat, x: string)
    requires n <= |apps|
    ensures x in SeenOf(apps, n).secrets <==> exists k :: 0 <= k < n && Get(apps[k].mergedEnv, JWT_SECRET) == x
    decreases n
  {
    if n > 0 {
      SeenStep(apps, n, x);
      SecretsSeen(apps, n - 1, x);
    }
  }

  lemma SeenOfIs(apps: seq<AppSpec>, n: nat)
    requires n <= |apps|
    ensures SeenUpTo(SeenOf(apps, n), apps, n)
  {
    var seen := SeenOf(apps, n);
    forall x ensures x in seen.names <==> exists k :: 0 <= k < n && apps[k].name == x {
      NamesSeen(apps, n, x);
    }
    forall x ensures x in seen.domains <==> exists k :: 0 <= k < n && x in NormalAll(apps[k].domains) {
      DomainsSeen(apps, n, x);
    }
    forall x ensures x in seen.secrets <==> exists k :: 0 <= k < n && Get(apps[k].mergedEnv, JWT_SECRET) == x {
      SecretsSeen(apps, n, x);
    }
  }

  /** Nothing of app `i` has been seen exactly when it is compatible with every earlier app. */
  lemma UnseenIsCompatible(apps: seq<AppSpec>, i: nat, seen: Seen)
    requires i < |apps| && SeenUpTo(seen, apps, i)
    ensures (&& apps[i].name !in seen.names
             && (forall d :: d in NormalAll(apps[i].domains) ==> d !in seen.domains)
             && Get(apps[i].mergedEnv, JWT_SECRET) !in seen.secrets)
            <==> forall k :: 0 <= k < i ==> Compatible(apps[k], apps[i])
  {
    var a := apps[i];
    if a.name !in seen.names && (forall d :: d in NormalAll(a.domains) ==> d !in seen.domains)
       && Get(a.mergedEnv, JWT_SECRET) !in seen.secrets {
      forall k | 0 <= k < i ensures Compatible(apps[k], a) {
        assert forall d :: d in NormalAll(apps[k].domains) ==> d in seen.domains;
      }
    }
  }

  /** The loop over one app's domains: each well-formed, none seen before, in other apps or in this one. */
  method ClaimOwn<T(==)>(ns: seq<T>, good: T -> bool, seen: set<T>) returns (ok: bool, claimed: set<T>)
    ensures ok <==> (forall d :: d in ns ==> good(d) && d !in seen) && Distinct(ns)
    ensures ok ==> forall d :: d in claimed <==> d in seen || d in ns
  {
    claimed := seen;
    for j := 0 to |ns|
      invariant forall k :: 0 <= k < j ==> good(ns[k]) && ns[k] !in seen
      invariant forall k, l :: 0 <= k < l < j ==> ns[k] != ns[l]
      invariant forall d :: d in claimed <==> d in seen || exists k :: 0 <= k < j && ns[k] == d
    {
      if !good(ns[j]) || ns[j] in claimed {
        return false, claimed;
      }
      claimed := claimed + {ns[j]};
    }
    ok := true;
  }
}
