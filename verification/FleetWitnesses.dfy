/** Concrete fleets on which the promises of the lifecycle fail, and small fleets on which they hold. */
module FleetWitnesses {
  import opened Text
  import opened Hosts
  import opened Manifest
  import opened Registry
  import opened Fleet
  import opened FleetRuns
  import opened FleetSecrets
  import opened FleetRestart
  import opened FleetMirror
  import EnvFile
  import HotSwap

  function Present(p: string): bool {
    true
  }

  function Accepts(schema: string, env: Env): bool {
    true
  }

  /** A world where only the length of the secret can stop a compile. */
  const Anything := World(Present, Accepts)

  /** Secrets of the length the engine asks for. */
  function Long(c: char): (s: string)
    ensures |s| == MinJwtSecretLen && forall i :: 0 <= i < |s| ==> s[i] == c
  {
    seq(MinJwtSecretLen, i => c)
  }

  const X: string := Long('x')
  const Y: string := Long('y')

  function SmallEnv(secret: string): (e: Env)
    ensures Get(e, DATABASE_URL) == "d" && Get(e, JWT_SECRET) == secret && Get(e, ADMIN_KEY) == "k"
  {
    map[DATABASE_URL := "d", JWT_SECRET := secret, ADMIN_KEY := "k"]
  }

  function FirstApp(secret: string): AppSpec {
    AppSpec("a", "s", ["a"], "", SmallEnv(secret), SmallEnv(secret))
  }

  /** Data under `/v`, or under a relative `v` while the process stands in another directory. */
  const Rooted := Place("/d", "/c", "/v", "#")
  const Relative := Place("/d", "/c", "v", "#")

  /** A fleet of one app, `a`, declared with its env inline. */
  function SmallFleet(secret: string, place: Place, disk: Disk): State {
    State([FirstApp(secret)], Some([FirstApp(secret)]), map["a" := CompiledApp("a", 0, FirstOf(0))],
          [PanelApp("a", ["a"], 0, SmallEnv(secret))], {}, 1, map[0 := SmallEnv(secret)], "", place, disk)
  }

  // The string facts, once.

  lemma ShortHosts()
    ensures NameOk("a") && NameOk("b")
    ensures NormalAll(["a"]) == ["a"] && NormalAll(["b"]) == ["b"]
    ensures HostnameOk("a") && HostnameOk("b") && Lower("a") == "a" && Lower("b") == "b"
  {
    assert TrimsTo("a", 0, 1) && TrimsTo("b", 0, 1);
    TrimIs("a", 0, 1);
    TrimIs("b", 0, 1);
    assert Normal("a") == "a" && Normal("b") == "b";
  }

  lemma CredentialNamesAreSafe()
    ensures EnvFile.SafeKey(DATABASE_URL) && EnvFile.SafeKey(JWT_SECRET) && EnvFile.SafeKey(ADMIN_KEY)
  {
    assert DATABASE_URL[0] != EnvFile.EXPORT[0] && JWT_SECRET[0] != EnvFile.EXPORT[0]
        && ADMIN_KEY[0] != EnvFile.EXPORT[0];
    assert forall c :: c in DATABASE_URL || c in JWT_SECRET || c in ADMIN_KEY ==> c != '=' && c != '\n';
  }

  lemma LettersAreSafe()
    ensures forall v :: v in {"d", "k", X, Y} ==> EnvFile.SafeValue(v)
  {
    LongSecrets();
  }

  lemma LongSecrets()
    ensures X != Y && X != "" && Y != "" && EnvFile.SafeValue(X) && EnvFile.SafeValue(Y)
    ensures ByteLen(X) == MinJwtSecretLen && ByteLen(Y) == MinJwtSecretLen
  {
    assert |X| == |Y| == MinJwtSecretLen && X[0] == 'x' && Y[0] == 'y';
    AsciiByteLen(X);
    AsciiByteLen(Y);
  }

  /** The small fleet is in order in every respect. */
  lemma OneAppIsCoherent(f: State)
    requires |f.apps| == 1 && |f.panel| == 1 && SlotOk(f, 0) && FileMatches(f)
    requires forall d :: d in f.table ==> d in f.apps[0].domains
    ensures Coherent(f)
  {
  }

  lemma SmallFleetIsCoherent(secret: string, place: Place, disk: Disk)
    ensures Coherent(SmallFleet(secret, place, disk))
  {
    ShortHosts();
    var f := SmallFleet(secret, place, disk);
    assert f.apps[0].domains[0] == "a" && forall d :: d in f.apps[0].domains ==> d == "a";
    OneAppIsCoherent(f);
  }

  lemma SmallFleetMirrors(secret: string, place: Place, disk: Disk)
    ensures Mirrors(SmallFleet(secret, place, disk))
  {
    ShortHosts();
    var f := SmallFleet(secret, place, disk);
    assert map[] + f.apps[0].env == f.apps[0].mergedEnv;
    assert EntryMirrors(f, 0);
  }

  lemma SmallFleetBoots(secret: string, place: Place, disk: Disk)
    requires ByteLen(secret) >= MinJwtSecretLen
    ensures Boots(SmallFleet(secret, place, disk), Anything)
  {
    var f := SmallFleet(secret, place, disk);
    SmallFleetMirrors(secret, place, disk);
    ShortHosts();
    assert FitsAt(f.apps, Present, 0);
    MirroredReloadsIffLoadable(f, Present);
    MirroredBuilds(f, Anything);
  }

  // An add, and what the next start reads for it.

  const AllWell := AddIo(Some("s"), None, Anything, true, Wrote, true)

  /** The app meets every rule beside the apps of `f`, with `merged` as its env. */
  ghost predicate Welcome(f: State, spec: AppSpec, merged: Env) {
    && NameOk(spec.name) && NameFree(f.apps, spec.name) && f.file.Some? && NameFree(f.file.value, spec.name)
    && spec.schema == "s" && |spec.domains| > 0 && f.operatorKey == ""
    && (forall d :: d in NormalAll(spec.domains) ==> HostnameOk(d)) && DomainsFree(f.apps, NormalAll(spec.domains))
    && RequiredPresent(merged) && SecretFree(f.apps, Get(merged, JWT_SECRET))
    && Builds(Anything, "s", merged)
    && FileEnv(f.disk, f.place.dir, spec.envFile).Some?
    && merged == FileEnv(f.disk, f.place.dir, spec.envFile).value + spec.env
  }

  lemma WelcomeGoesThrough(f: State, spec: AppSpec, merged: Env)
    requires Welcome(f, spec, merged)
    ensures Add(f, spec, AllWell).ok && Planned(spec, AllWell).env == spec.env
    ensures FileEnv(f.disk, Base(f), spec.envFile).Some? && Added(f, spec, AllWell).mergedEnv == merged
  {
    assert Planned(spec, AllWell) == spec;
    var a := Candidate(f, spec, AllWell);
    NormalAllIdempotent(spec.domains);
    assert a.mergedEnv == merged && NormalAll(a.domains) == NormalAll(spec.domains);
    assert AppOk(a, Present);
    assert AddCompiles(f, spec, AllWell);
  }

  /** The env the next start reads for an added app from the generated file. */
  ghost function ReadFor(f: State, spec: AppSpec): Option<Env> {
    if SamePlace(f.place, spec.name) then EnvFile.Parse(EnvFile.TextOf(f.place.header, spec.env))
    else FileEnv(f.disk, f.place.dir, EnvPath(f.place, spec.name))
  }

  /** `g` is `f` after an add that moved the entries of `spec` to the generated file. */
  ghost predicate Moved(f: State, g: State, spec: AppSpec) {
    && f.file.Some? && g.file.Some? && |g.file.value| == |f.file.value| + 1
    && (forall k :: 0 <= k < |f.file.value| ==> g.file.value[k] == f.file.value[k])
    && g.file.value[|f.file.value|].envFile == EnvPath(f.place, spec.name) && g.file.value[|f.file.value|].env == map[]
    && g.disk == f.disk[WritesTo(f.place, spec.name) := EnvFile.TextOf(f.place.header, spec.env)]
    && g.place == f.place && g.operatorKey == f.operatorKey
  }

  lemma WelcomeIsMoved(f: State, spec: AppSpec, merged: Env)
    requires Welcome(f, spec, merged) && |spec.env| > 0
    ensures Moved(f, Step(f, AddOp(spec, AllWell)), spec)
  {
    WelcomeGoesThrough(f, spec, merged);
    AddSucceeds(f, spec, AllWell);
    StepLeaves(f, AddOp(spec, AllWell));
    var a := Added(f, spec, AllWell);
    assert FileThen(f, AddOp(spec, AllWell)) == f.file.value + [a];
    assert a.envFile == EnvPath(f.place, spec.name) && a.env == map[];
    assert AddWrites(f, spec, AllWell);
  }

  lemma MovedReads(f: State, g: State, spec: AppSpec)
    requires Moved(f, g, spec)
    ensures OnDisk(g)[|f.file.value|].mergedEnv == if ReadFor(f, spec).Some? then ReadFor(f, spec).value else map[]
  {
    var a, text := g.file.value[|f.file.value|], EnvFile.TextOf(f.place.header, spec.env);
    EntryAfterWrite(f.disk, f.place, a, WritesTo(f.place, spec.name), text);
    NothingInline(EnvFile.Parse(text), a);
    NothingInline(FileEnv(f.disk, f.place.dir, a.envFile), a);
  }

  /** An added app that reads back without a credential strands the fleet. */
  lemma LostCredentialStrands(f: State, g: State, spec: AppSpec)
    requires Moved(f, g, spec)
    requires ReadFor(f, spec).None? || !RequiredPresent(ReadFor(f, spec).value)
    ensures !Boots(g, Anything)
  {
    MovedReads(f, g, spec);
    assert !FitsAt(OnDisk(g), Present, |f.file.value|);
  }

  /** So does one that reads back with the secret another entry has on disk. */
  lemma SharedSecretStrands(f: State, g: State, spec: AppSpec, k: nat)
    requires Moved(f, g, spec) && SamePlace(f.place, spec.name) && EnvFile.SafeEnv(spec.env)
    requires k < |f.file.value| && f.file.value[k].envFile == ""
    requires Get(f.file.value[k].env, JWT_SECRET) == Get(spec.env, JWT_SECRET)
    ensures !Boots(g, Anything) && !DiskSecretsSound(g)
  {
    var n := |f.file.value|;
    MovedReads(f, g, spec);
    EnvFile.TextReadsBackIffSafe(f.place.header, spec.env);
    InlineReads(g, k);
    SamePairStrands(g, k, n);
  }

  lemma InlineReads(g: State, k: nat)
    requires g.file.Some? && k < |g.file.value| && g.file.value[k].envFile == ""
    ensures OnDisk(g)[k].mergedEnv == g.file.value[k].env
  {
    var m: Env := map[];
    assert m + g.file.value[k].env == g.file.value[k].env;
  }

  lemma SamePairStrands(g: State, k: nat, n: nat)
    requires g.file.Some? && k < n < |g.file.value| && Secret(OnDisk(g)[k]) == Secret(OnDisk(g)[n])
    ensures !Boots(g, Anything) && !DiskSecretsSound(g)
  {
    assert !Compatible(OnDisk(g)[k], OnDisk(g)[n]);
    assert !FitsAt(OnDisk(g), Present, n);
    assert !Credible(OnDisk(g), g.operatorKey, n);
  }

  // The second app.

  function SecondApp(envFile: string, env: Env): AppSpec {
    AppSpec("b", "s", ["b"], envFile, env, map[])
  }

  /** Running app `a` and its entry leave the name and the host `b` free. */
  ghost predicate OnlyA(f: State) {
    && |f.apps| == 1 && f.apps[0].name == "a" && f.apps[0].domains == ["a"]
    && f.file.Some? && |f.file.value| == 1 && f.file.value[0].name == "a" && f.operatorKey == ""
  }

  /** Names and hosts of a second app beside `a`. */
  lemma SecondIsFree(apps: seq<AppSpec>, ns: seq<string>)
    requires |apps| == 1 && apps[0].name == "a" && (forall d :: d in ns ==> d == "b")
    ensures NameFree(apps, "b")
    ensures apps[0].domains == ["a"] ==> DomainsFree(apps, ns)
  {
    assert "a"[0] != "b"[0];
  }

  lemma SecondAppIsWelcome(f: State, spec: AppSpec, merged: Env)
    requires OnlyA(f) && spec.name == "b" && spec.schema == "s"
    requires |spec.domains| > 0 && (forall d :: d in NormalAll(spec.domains) ==> d == "b")
    requires RequiredPresent(merged) && Get(merged, JWT_SECRET) != Get(f.apps[0].mergedEnv, JWT_SECRET)
    requires ByteLen(Get(merged, JWT_SECRET)) >= MinJwtSecretLen
    requires FileEnv(f.disk, f.place.dir, spec.envFile).Some?
    requires merged == FileEnv(f.disk, f.place.dir, spec.envFile).value + spec.env
    ensures Welcome(f, spec, merged)
  {
    ShortHosts();
    SecondIsFree(f.apps, NormalAll(spec.domains));
    SecondIsFree(f.file.value, NormalAll(spec.domains));
  }

  lemma SmallFleetIsOnlyA(secret: string, place: Place, disk: Disk)
    ensures OnlyA(SmallFleet(secret, place, disk))
  {
  }

  /** The small fleet and a second app beside it: everything is in order before the add. */
  lemma BesideSmallFleet(place: Place, disk: Disk, spec: AppSpec, merged: Env)
    requires spec.name == "b" && spec.schema == "s" && spec.domains == ["b"]
    requires RequiredPresent(merged) && Get(merged, JWT_SECRET) != X
    requires ByteLen(Get(merged, JWT_SECRET)) >= MinJwtSecretLen
    requires FileEnv(disk, place.dir, spec.envFile).Some?
    requires merged == FileEnv(disk, place.dir, spec.envFile).value + spec.env
    ensures var f := SmallFleet(X, place, disk);
            && Mirrors(f) && Boots(f, Anything) && Welcome(f, spec, merged) && Add(f, spec, AllWell).ok
            && Distinct(NormalAll(spec.domains))
  {
    var f := SmallFleet(X, place, disk);
    LongSecrets();
    SmallFleetMirrors(X, place, disk);
    SmallFleetBoots(X, place, disk);
    SmallFleetIsOnlyA(X, place, disk);
    ShortHosts();
    SecondAppIsWelcome(f, spec, merged);
    WelcomeGoesThrough(f, spec, merged);
  }

  lemma RootedIsSamePlace(name: string)
    ensures SamePlace(Rooted, name)
  {
    SamePlaceIff(Rooted, name);
  }

  // Two sources of env.

  function OtherEnv(): Env {
    map[DATABASE_URL := "d", JWT_SECRET := Y]
  }

  function KeyOnly(): Env {
    map[ADMIN_KEY := "k"]
  }

  lemma OtherEnvIsSafe()
    ensures EnvFile.SafeEnv(OtherEnv()) && EnvFile.SafeEnv(KeyOnly())
    ensures OtherEnv() + KeyOnly() == SmallEnv(Y) && !RequiredPresent(KeyOnly())
  {
    CredentialNamesAreSafe();
    LettersAreSafe();
    assert forall k :: k in OtherEnv() ==> k == DATABASE_URL || k == JWT_SECRET;
    assert forall k :: k in KeyOnly() ==> k == ADMIN_KEY;
    assert DATABASE_URL[0] != ADMIN_KEY[0];
  }

  /**
   * The second app names an env file with two of its credentials and gives the third explicitly. It
   * is admitted and goes live; the generated file holds the third only and replaces the other, so
   * the next start refuses the fleet.
   */
  lemma TwoEnvSourcesStrand()
    ensures var f := SmallFleet(X, Rooted, map["/o" := EnvFile.TextOf("#", OtherEnv())]);
            var spec := SecondApp("/o", KeyOnly());
            && Mirrors(f) && Boots(f, Anything)
            && Add(f, spec, AllWell).ok && Distinct(NormalAll(spec.domains))
            && !Boots(Step(f, AddOp(spec, AllWell)), Anything)
  {
    var disk := map["/o" := EnvFile.TextOf("#", OtherEnv())];
    var spec := SecondApp("/o", KeyOnly());
    OtherEnvIsSafe();
    EnvFile.TextReadsBackIffSafe("#", OtherEnv());
    EnvFile.TextReadsBackIffSafe("#", KeyOnly());
    assert FileEnv(disk, Rooted.dir, "/o") == Some(OtherEnv());
    LongSecrets();
    BesideSmallFleet(Rooted, disk, spec, SmallEnv(Y));
    RootedIsSamePlace("b");
    var f := SmallFleet(X, Rooted, disk);
    WelcomeIsMoved(f, spec, SmallEnv(Y));
    LostCredentialStrands(f, Step(f, AddOp(spec, AllWell)), spec);
  }

  // A credential that does not survive the file.

  function BlankEnv(): Env {
    map[DATABASE_URL := "d", JWT_SECRET := Y, ADMIN_KEY := " "]
  }

  lemma BlankEnvIsPlain()
    ensures forall k :: k in BlankEnv() ==> EnvFile.SafeKey(k) && '\n' !in BlankEnv()[k]
  {
    CredentialNamesAreSafe();
    forall k | k in BlankEnv() ensures EnvFile.SafeKey(k) && '\n' !in BlankEnv()[k] {
      assert k == DATABASE_URL || k == JWT_SECRET || k == ADMIN_KEY;
    }
  }

  lemma BlankTrims()
    ensures EnvFile.Unquote(TrimSpace(" ")) == ""
  {
    assert TrimsTo(" ", 1, 1);
    TrimIs(" ", 1, 1);
  }

  lemma BlankKeyIsLost(env: Env)
    requires ADMIN_KEY in env && env[ADMIN_KEY] == " "
    ensures !RequiredPresent(EnvFile.ReadBack(env))
  {
    BlankTrims();
    assert EnvFile.ReadBack(env)[ADMIN_KEY] == "";
  }

  lemma BlankEnvIsComplete()
    ensures RequiredPresent(BlankEnv()) && Get(BlankEnv(), JWT_SECRET) == Y
    ensures ADMIN_KEY in BlankEnv() && BlankEnv()[ADMIN_KEY] == " "
  {
  }

  lemma BlankEnvReadsBack()
    ensures EnvFile.Parse(EnvFile.TextOf("#", BlankEnv())) == Some(EnvFile.ReadBack(BlankEnv()))
    ensures !RequiredPresent(EnvFile.ReadBack(BlankEnv()))
  {
    BlankEnvIsPlain();
    EnvFile.PlainTextReadsBack("#", BlankEnv());
    BlankEnvIsComplete();
    BlankKeyIsLost(BlankEnv());
  }

  /** An admin key of one space passes the checks and reads back empty. */
  lemma BlankCredentialStrands()
    ensures var f := SmallFleet(X, Rooted, map[]);
            var spec := SecondApp("", BlankEnv());
            && Mirrors(f) && Boots(f, Anything)
            && Add(f, spec, AllWell).ok && Distinct(NormalAll(spec.domains))
            && !Boots(Step(f, AddOp(spec, AllWell)), Anything)
  {
    var spec := SecondApp("", BlankEnv());
    var m: Env := map[];
    assert m + BlankEnv() == BlankEnv();
    BlankEnvIsComplete();
    BlankEnvReadsBack();
    LongSecrets();
    BesideSmallFleet(Rooted, map[], spec, BlankEnv());
    RootedIsSamePlace("b");
    var f := SmallFleet(X, Rooted, map[]);
    WelcomeIsMoved(f, spec, BlankEnv());
    LostCredentialStrands(f, Step(f, AddOp(spec, AllWell)), spec);
  }

  // A secret that does not keep its length.

  /** Thirty letters in quotes: long enough as given, two short as the file reads back. */
  function QuotedSecret(): (s: string)
    ensures |s| == MinJwtSecretLen && s[0] == '"' && s[MinJwtSecretLen - 1] == '"'
    ensures forall i :: 0 < i < MinJwtSecretLen - 1 ==> s[i] == 'z'
  {
    ['"'] + seq(MinJwtSecretLen - 2, i => 'z') + ['"']
  }

  lemma QuotedSecretShrinks()
    ensures QuotedSecret() != X && '\n' !in QuotedSecret() && ByteLen(QuotedSecret()) == MinJwtSecretLen
    ensures var read := EnvFile.Unquote(TrimSpace(QuotedSecret()));
            ByteLen(read) == MinJwtSecretLen - 2
  {
    var s := QuotedSecret();
    assert X[0] == 'x';
    AsciiByteLen(s);
    TrimSpaceFixpoint(s);
    assert EnvFile.Quoted(s);
    AsciiByteLen(s[1..MinJwtSecretLen - 1]);
  }

  lemma QuotedEnvReadsBack()
    ensures EnvFile.Parse(EnvFile.TextOf(Rooted.header, SmallEnv(QuotedSecret()))) ==
              Some(EnvFile.ReadBack(SmallEnv(QuotedSecret())))
    ensures ByteLen(Get(EnvFile.ReadBack(SmallEnv(QuotedSecret())), JWT_SECRET)) == MinJwtSecretLen - 2
  {
    var env := SmallEnv(QuotedSecret());
    QuotedSecretShrinks();
    CredentialNamesAreSafe();
    forall k | k in env ensures EnvFile.SafeKey(k) && '\n' !in env[k] {
      assert k == DATABASE_URL || k == JWT_SECRET || k == ADMIN_KEY;
    }
    EnvFile.PlainTextReadsBack("#", env);
    assert JWT_SECRET in env && env[JWT_SECRET] == QuotedSecret();
  }

  /** An app that reads back with an env that does not compile strands the fleet. */
  lemma ShortSecretStrands(f: State, g: State, spec: AppSpec)
    requires Moved(f, g, spec) && ReadFor(f, spec).Some?
    requires ByteLen(Get(ReadFor(f, spec).value, JWT_SECRET)) < MinJwtSecretLen
    ensures !Boots(g, Anything)
  {
    MovedReads(f, g, spec);
    assert !Builds(Anything, OnDisk(g)[|f.file.value|].schema, OnDisk(g)[|f.file.value|].mergedEnv);
  }

  lemma WelcomeButShortStrands(f: State, spec: AppSpec, merged: Env, read: Env)
    requires Welcome(f, spec, merged) && |spec.env| > 0 && SamePlace(f.place, spec.name)
    requires EnvFile.Parse(EnvFile.TextOf(f.place.header, spec.env)) == Some(read)
    requires ByteLen(Get(read, JWT_SECRET)) < MinJwtSecretLen
    ensures !Boots(Step(f, AddOp(spec, AllWell)), Anything)
  {
    WelcomeIsMoved(f, spec, merged);
    ShortSecretStrands(f, Step(f, AddOp(spec, AllWell)), spec);
  }

  /** A second app beside the small fleet whose secret reads back below the floor. */
  lemma ShrinkingSecretStrands(secret: string, env: Env, read: Env)
    requires secret != "" && secret != X && ByteLen(secret) >= MinJwtSecretLen && env == SmallEnv(secret)
    requires EnvFile.Parse(EnvFile.TextOf(Rooted.header, env)) == Some(read)
    requires ByteLen(Get(read, JWT_SECRET)) < MinJwtSecretLen
    ensures var f, spec := SmallFleet(X, Rooted, map[]), SecondApp("", env);
            && Mirrors(f) && Boots(f, Anything)
            && Add(f, spec, AllWell).ok && Distinct(NormalAll(spec.domains))
            && !Boots(Step(f, AddOp(spec, AllWell)), Anything)
  {
    var f, spec, m: Env := SmallFleet(X, Rooted, map[]), SecondApp("", env), map[];
    assert m + env == env;
    assert DATABASE_URL in env;
    BesideSmallFleet(Rooted, map[], spec, env);
    RootedIsSamePlace("b");
    WelcomeButShortStrands(f, spec, env, read);
  }

  /** The app is admitted, compiles and goes live; on the next start its secret is two characters short. */
  lemma QuotedSecretStrands()
    ensures var f := SmallFleet(X, Rooted, map[]);
            var spec := SecondApp("", SmallEnv(QuotedSecret()));
            && Mirrors(f) && Boots(f, Anything)
            && Add(f, spec, AllWell).ok && Distinct(NormalAll(spec.domains))
            && !Boots(Step(f, AddOp(spec, AllWell)), Anything)
  {
    var env := SmallEnv(QuotedSecret());
    QuotedSecretShrinks();
    QuotedEnvReadsBack();
    ShrinkingSecretStrands(QuotedSecret(), env, EnvFile.ReadBack(env));
  }

  // An edit that is persisted and does not compile.

  lemma ShortSecret()
    ensures "short" != "" && "short" != X && EnvFile.SafeValue("short") && ByteLen("short") < MinJwtSecretLen
  {
    assert "short"[0] != X[0];
    AsciiByteLen("short");
  }

  /** A secret below the floor is accepted by the edit, written, refused by the compile, and stops every start. */
  lemma UncompiledEditStrands()
    ensures var f, io := SmallFleet(X, Rooted, map[]), EditIo(Wrote, true, Anything, true);
            var r := Edit(f, "a", SmallEnv("short"), [], io);
            && Mirrors(f) && Boots(f, Anything)
            && EditAccepted(f, "a", SmallEnv("short"), []) && !r.ok
            && r.fleet.panel == f.panel && r.fleet.table == f.table
            && Mirrors(r.fleet) && Reloads(r.fleet, Present) && !Boots(r.fleet, Anything)
  {
    var f, io := SmallFleet(X, Rooted, map[]), EditIo(Wrote, true, Anything, true);
    LongSecrets();
    ShortSecret();
    SmallFleetMirrors(X, Rooted, map[]);
    SmallFleetBoots(X, Rooted, map[]);
    RotationIsAccepted(Rooted, map[], "short");
    SmallEnvIsSafe("short");
    RootedIsSamePlace("a");
    LoneEditDoesNotDiverge(f, "a", SmallEnv("short"), [], io);
    UnbuildableEditStrands(f, "a", SmallEnv("short"), [], io);
  }

  // A data directory that is not found again.

  lemma RelativeIsElsewhere(name: string)
    ensures !SamePlace(Relative, name)
  {
    assert Relative.cwd[1] != Relative.dir[1];
    SamePlaceIff(Relative, name);
  }

  /** A relative data directory is written under the working directory and read under the manifest's. */
  lemma RelativeDataDirStrands()
    ensures var f := SmallFleet(X, Relative, map[]);
            var spec := SecondApp("", SmallEnv(Y));
            && Mirrors(f) && Boots(f, Anything) && Add(f, spec, AllWell).ok
            && !Boots(Step(f, AddOp(spec, AllWell)), Anything)
  {
    var spec := SecondApp("", SmallEnv(Y));
    var m: Env := map[];
    assert m + SmallEnv(Y) == SmallEnv(Y);
    LongSecrets();
    BesideSmallFleet(Relative, map[], spec, SmallEnv(Y));
    RelativeIsElsewhere("b");
    var f := SmallFleet(X, Relative, map[]);
    WelcomeIsMoved(f, spec, SmallEnv(Y));
    LostCredentialStrands(f, Step(f, AddOp(spec, AllWell)), spec);
  }

  // A host spelled twice.

  lemma TwoSpellings(ds: seq<string>)
    requires ds == ["b", "B"]
    ensures Normal(ds[0]) == "b" && Normal(ds[1]) == "b"
    ensures !Distinct(NormalAll(ds)) && forall d :: d in NormalAll(ds) ==> d == "b"
  {
    assert TrimsTo("b", 0, 1) && TrimsTo("B", 0, 1);
    TrimIs("b", 0, 1);
    TrimIs("B", 0, 1);
    assert Lower("B") == "b" && Lower("b") == "b";
    assert NormalAll(ds)[0] == NormalAll(ds)[1];
  }

  /** Two spellings of one host are admitted, and the next start refuses the fleet. */
  lemma TwoSpellingsStrand()
    ensures var f := SmallFleet(X, Rooted, map[]);
            var spec := SecondApp("", SmallEnv(Y)).(domains := ["b", "B"]);
            && Mirrors(f) && Boots(f, Anything) && Add(f, spec, AllWell).ok
            && AddsRepeatedHost(f, AddOp(spec, AllWell))
            && !Boots(Step(f, AddOp(spec, AllWell)), Anything)
  {
    var f := SmallFleet(X, Rooted, map[]);
    var spec := SecondApp("", SmallEnv(Y)).(domains := ["b", "B"]);
    SmallFleetMirrors(X, Rooted, map[]);
    LongSecrets();
    SmallFleetBoots(X, Rooted, map[]);
    SmallFleetIsOnlyA(X, Rooted, map[]);
    SpelledTwiceIsWelcome(f, spec);
    RepeatedHostStrands(f, spec, SmallEnv(Y));
  }

  lemma RepeatedHostStrands(f: State, spec: AppSpec, merged: Env)
    requires Mirrors(f) && Boots(f, Anything) && Welcome(f, spec, merged) && !Distinct(NormalAll(spec.domains))
    ensures Add(f, spec, AllWell).ok && AddsRepeatedHost(f, AddOp(spec, AllWell))
    ensures !Boots(Step(f, AddOp(spec, AllWell)), Anything)
  {
    WelcomeGoesThrough(f, spec, merged);
    StepBootsIff(f, AddOp(spec, AllWell), Anything);
  }

  lemma SpelledTwiceIsWelcome(f: State, spec: AppSpec)
    requires OnlyA(f) && Get(f.apps[0].mergedEnv, JWT_SECRET) == X
    requires spec == SecondApp("", SmallEnv(Y)).(domains := ["b", "B"])
    ensures Welcome(f, spec, SmallEnv(Y)) && !Distinct(NormalAll(spec.domains))
  {
    TwoSpellings(spec.domains);
    var m: Env := map[];
    assert m + SmallEnv(Y) == SmallEnv(Y);
    LongSecrets();
    SecondAppIsWelcome(f, spec, SmallEnv(Y));
  }

  // A secret rotated half way.

  lemma RotationIsAccepted(place: Place, disk: Disk, secret: string)
    requires secret != "" && secret != X
    ensures var f := SmallFleet(X, place, disk);
            && AppIndex(f.apps, "a") == 0 && PanelIndex(f.panel, "a") == 0 && AppIndex(f.file.value, "a") == 0
            && NextEnv(f.apps[0].mergedEnv, SmallEnv(secret), []) == SmallEnv(secret) != f.apps[0].mergedEnv
            && EditAccepted(f, "a", SmallEnv(secret), [])
  {
    var f := SmallFleet(X, place, disk);
    assert f.apps[0].name == "a" && f.panel[0].name == "a" && f.file.value[0].name == "a";
    assert NextEnv(f.apps[0].mergedEnv, SmallEnv(secret), []) == SmallEnv(secret);
    assert SmallEnv(secret)[JWT_SECRET] != SmallEnv(X)[JWT_SECRET];
  }

  function Rotate(secret: string, io: EditIo): Op {
    EditOp("a", SmallEnv(secret), [], io)
  }

  lemma EditLeavesFile(f: State, name: string, setEnv: Env, unset: seq<string>, io: EditIo)
    requires f.file.Some? && EditAccepted(f, name, setEnv, unset)
              && AppIndex(f.file.value, name) == AppIndex(f.apps, name)
    ensures var g := Edit(f, name, setEnv, unset, io).fleet;
            && g.place == f.place && g.operatorKey == f.operatorKey
            && g.file.Some? && |g.file.value| == |f.file.value|
            && (forall k :: 0 <= k < |f.file.value| ==> g.file.value[k].name == f.file.value[k].name)
            && (io.envWrite.Refused? ==> g.file == f.file && g.disk == f.disk)
  {
    EditLeaves(f, name, setEnv, unset, io);
    EditedFile(f, name, setEnv, unset, io);
  }

  lemma EditedFile(f: State, name: string, setEnv: Env, unset: seq<string>, io: EditIo)
    requires f.file.Some? && EditAccepted(f, name, setEnv, unset)
              && AppIndex(f.file.value, name) == AppIndex(f.apps, name)
    ensures var op := EditOp(name, setEnv, unset, io);
            && |FileThen(f, op)| == |f.file.value|
            && (forall k :: 0 <= k < |f.file.value| ==> FileThen(f, op)[k].name == f.file.value[k].name)
            && (io.envWrite.Refused? ==> FileThen(f, op) == f.file.value && DiskThen(f, op) == f.disk)
  {
  }

  lemma RotationLeaves(place: Place, disk: Disk, io: EditIo)
    ensures var f := SmallFleet(X, place, disk);
            var g := Step(f, Rotate(Y, io));
            && OnlyA(g) && g.apps[0].mergedEnv == SmallEnv(Y) && g.place == place
            && (io.envWrite.Refused? ==> g.file == f.file && g.disk == disk)
  {
    var f := SmallFleet(X, place, disk);
    LongSecrets();
    RotationIsAccepted(place, disk, Y);
    EditChangesOneApp(f, "a", SmallEnv(Y), [], io);
    EditLeavesFile(f, "a", SmallEnv(Y), [], io);
    assert f.file.value[0].name == "a";
  }

  lemma SmallEnvIsSafe(secret: string)
    requires EnvFile.SafeValue(secret)
    ensures EnvFile.SafeEnv(SmallEnv(secret))
  {
    CredentialNamesAreSafe();
    LettersAreSafe();
    assert forall k :: k in SmallEnv(secret) ==> k == DATABASE_URL || k == JWT_SECRET || k == ADMIN_KEY;
  }

  const NoWrite := EditIo(Refused, true, Anything, true)

  /**
   * The secret of `a` is rotated and the write of its env file fails; then `b` is added with the old
   * secret. The running manifest passes every rule, and on disk the two share it.
   */
  lemma FailedWriteThenAddStrands()
    ensures var f, add := SmallFleet(X, Rooted, map[]), AddOp(SecondApp("", SmallEnv(X)), AllWell);
            var g := Run(f, [Rotate(Y, NoWrite), add]);
            && Mirrors(f) && Boots(f, Anything) && SecretsSound(f.apps) && SecretsSound(g.apps)
            && Add(Step(f, Rotate(Y, NoWrite)), add.spec, add.addIo).ok
            && !Boots(g, Anything) && !DiskSecretsSound(g)
  {
    var f, spec := SmallFleet(X, Rooted, map[]), SecondApp("", SmallEnv(X));
    SmallFleetMirrors(X, Rooted, map[]);
    LongSecrets();
    SmallFleetBoots(X, Rooted, map[]);
    RunKeepsSecrets(f, [Rotate(Y, NoWrite), AddOp(spec, AllWell)]);
    RunOfTwo(f, Rotate(Y, NoWrite), AddOp(spec, AllWell));
    RotationLeaves(Rooted, map[], NoWrite);
    var h := Step(f, Rotate(Y, NoWrite));
    OldSecretIsWelcome(h);
    WelcomeGoesThrough(h, spec, SmallEnv(X));
    LettersAreSafe();
    SmallEnvIsSafe(X);
    RootedIsSamePlace("b");
    WelcomeIsMoved(h, spec, SmallEnv(X));
    SharedSecretStrands(h, Step(h, AddOp(spec, AllWell)), spec, 0);
  }

  lemma OldSecretIsWelcome(h: State)
    requires OnlyA(h) && h.apps[0].mergedEnv == SmallEnv(Y)
    ensures Welcome(h, SecondApp("", SmallEnv(X)), SmallEnv(X))
  {
    var m: Env := map[];
    assert m + SmallEnv(X) == SmallEnv(X);
    LongSecrets();
    ShortHosts();
    SecondAppIsWelcome(h, SecondApp("", SmallEnv(X)), SmallEnv(X));
  }

  lemma SmallFleetIsInSync(secret: string, place: Place, disk: Disk)
    requires secret != ""
    ensures var f := SmallFleet(secret, place, disk); InSync(f) && SecretsSound(f.apps) && LiveSecretsApart(f)
  {
  }

  lemma OldSecretIsShared(f: State, io: EditIo)
    requires f == SmallFleet(X, Rooted, map[]) && !io.reachable
    ensures !LiveSecretsApart(Run(f, [Rotate(Y, io), AddOp(SecondApp("", SmallEnv(X)), AllWell)]))
  {
    LongSecrets();
    SmallFleetIsInSync(X, Rooted, map[]);
    LongSecrets();
    RotationIsAccepted(Rooted, map[], Y);
    RotationLeaves(Rooted, map[], io);
    var h := Step(f, Rotate(Y, io));
    OldSecretIsWelcome(h);
    WelcomeGoesThrough(h, SecondApp("", SmallEnv(X)), SmallEnv(X));
    HalfEditLetsASecretBeShared(f, Rotate(Y, io), SecondApp("", SmallEnv(X)), AllWell);
  }

  /** Rotate a secret, fail the compile, add a second app with the old secret: two live instances share it. */
  lemma SharedLiveSecretIsReachable()
    ensures var f := SmallFleet(X, Rooted, map[]);
            && InSync(f) && SecretsSound(f.apps) && LiveSecretsApart(f)
            && exists ops :: !LiveSecretsApart(Run(f, ops))
  {
    LongSecrets();
    SmallFleetIsInSync(X, Rooted, map[]);
    OldSecretIsShared(SmallFleet(X, Rooted, map[]), EditIo(Wrote, true, Anything, false));
  }

  // A removal that hits the wrong domains, and a straddling swap.

  lemma FirstAppIsFirst(f: State, g: State, a: AppSpec)
    requires OnlyA(f) && |f.panel| == 1 && f.panel[0].name == "a"
    requires g == Installed(f, a).(databases := g.databases, disk := g.disk)
    ensures Misdirected(g, "a", "a", true)
  {
    assert g.apps[0].name == "a" && g.panel[0].name == "a" && g.file.value[0].name == "a";
    assert AppIndex(g.apps, "a") == 0 && PanelIndex(g.panel, "a") == 0 && AppIndex(g.file.value, "a") == 0;
  }

  lemma WelcomeIsInstalled(f: State, spec: AppSpec, merged: Env) returns (a: AppSpec)
    requires Welcome(f, spec, merged)
    ensures var g := Step(f, AddOp(spec, AllWell)); g == Installed(f, a).(databases := g.databases, disk := g.disk)
  {
    WelcomeGoesThrough(f, spec, merged);
    AddSucceeds(f, spec, AllWell);
    a := Added(f, spec, AllWell);
  }

  lemma RemovingFirstOfTwoMisdirects(f: State, spec: AppSpec, merged: Env)
    requires Coherent(f) && OnlyA(f) && |f.panel| == 1 && f.panel[0].name == "a" && Welcome(f, spec, merged)
    ensures var g := Step(f, AddOp(spec, AllWell));
            Coherent(g) && Misdirected(g, "a", "a", true) && !Coherent(Step(g, RemoveOp("a", "a", true)))
  {
    StepCoherentIff(f, AddOp(spec, AllWell));
    var a := WelcomeIsInstalled(f, spec, merged);
    FirstAppIsFirst(f, Step(f, AddOp(spec, AllWell)), a);
    StepCoherentIff(Step(f, AddOp(spec, AllWell)), RemoveOp("a", "a", true));
  }

  /** Start with `a`, add `b`, remove `a`: a coherent fleet, an accepted removal, and `b` loses its domain. */
  lemma MisdirectedRemovalIsReachable()
    ensures var f, spec := SmallFleet(X, Rooted, map[]), SecondApp("", SmallEnv(Y));
            var g := Step(f, AddOp(spec, AllWell));
            && Coherent(f) && Coherent(g) && Misdirected(g, "a", "a", true)
            && !Coherent(Step(g, RemoveOp("a", "a", true)))
  {
    var f, spec, m := SmallFleet(X, Rooted, map[]), SecondApp("", SmallEnv(Y)), map[];
    assert m + SmallEnv(Y) == SmallEnv(Y);
    SmallFleetIsCoherent(X, Rooted, map[]);
    SmallFleetIsOnlyA(X, Rooted, map[]);
    LongSecrets();
    BesideSmallFleet(Rooted, map[], spec, SmallEnv(Y));
    assert |f.panel| == 1 && f.panel[0].name == "a";
    RemovingFirstOfTwoMisdirects(f, spec, SmallEnv(Y));
  }

  lemma RotationRetiresFirst(op: Op)
    requires op == Rotate(Y, EditIo(Wrote, true, Anything, true))
    ensures 0 in HotSwap.Retired(SmallFleet(X, Rooted, map[]), op)
  {
    LongSecrets();
    RotationIsAccepted(Rooted, map[], Y);
    assert Edit(SmallFleet(X, Rooted, map[]), "a", SmallEnv(Y), [], op.editIo).ok;
  }

  /** A swap of `a` that straddles a successful edit of `a` leaves the domain with the retired instance. */
  lemma StraddlingSwapIsReachable()
    ensures var f, op := SmallFleet(X, Rooted, map[]), Rotate(Y, EditIo(Wrote, true, Anything, true));
            var s := HotSwap.Swaps(f, HotSwap.BootWiring(f.panel), {}, 0);
            && HotSwap.Inv(s) && 0 in HotSwap.Retired(f, op)
            && !Coherent(HotSwap.Straddled(s, op, 0).fleet)
  {
    var f, op := SmallFleet(X, Rooted, map[]), Rotate(Y, EditIo(Wrote, true, Anything, true));
    var s := HotSwap.Swaps(f, HotSwap.BootWiring(f.panel), {}, 0);
    SmallFleetIsCoherent(X, Rooted, map[]);
    HotSwap.BootEstablishesInv(f);
    RotationRetiresFirst(op);
    HotSwap.StraddlingSwapRevivesRetired(s, op, 0);
  }
}
