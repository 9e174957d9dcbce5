/**
 * The write-surface cache of one tenant under every interleaving of deploys, the invalidator's
 * steps, loads that take several steps, and database errors (deployed_surface.go, app.go). Every
 * operation reads and writes only its own tenant's entries.
 */
module SurfaceRuns {
  import opened Text
  import opened Hosts
  import opened Surfaces

  /** Who reads the deployed schema: a write, a 404 that looks for deployed names, `/reload`. */
  datatype Kind = ForSurface | ForNames | Reload

  datatype Stage =
    | Starting
    | Missed
    | HasRow(row: Schema)
    | HasSchema(schema: Option<Schema>)
    | Done

  datatype Load = Load(kind: Kind, stage: Stage)

  /** The invalidator after `WaitForNotification`: nothing, response cache, first cache dropped. */
  datatype Invalidator = Idle | Took | Half

  /** `row` is the deployed schema, `ever` all that were deployed, `answers` what writes were given. */
  datatype State = State(
    row: Option<Schema>, ever: set<Schema>, cached: Option<Schema>, surface: Option<Surface>,
    queue: nat, inv: Invalidator, loads: seq<Load>, answers: seq<Surface>)

  datatype Event =
    | Deploy(schema: Option<Schema>)
    | Invalidate
    | WorkerDrop
    | Begin(kind: Kind)
    | Advance(i: nat, dbOk: bool)
    | Read

  /** `schemaFirst` is the order of the last two invalidations; the source has it true. */
  datatype Config = Config(boot: Schema, schemaFirst: bool)

  function Step(c: Config, s: State, e: Event): State {
    match e
    case Deploy(d) =>
      s.(row := d, ever := s.ever + (if d.Some? then {d.value} else {}), queue := s.queue + 1)
    case Invalidate =>
      (match s.inv
       case Idle => if s.queue > 0 then s.(queue := s.queue - 1, inv := Took) else s
       case Took => if c.schemaFirst then s.(inv := Half, cached := None) else s.(inv := Half, surface := None)
       case Half => if c.schemaFirst then s.(inv := Idle, surface := None) else s.(inv := Idle, cached := None))
    case WorkerDrop => s.(cached := None)
    case Begin(kind) =>
      (match kind
       case ForSurface => if s.surface.None? then s.(loads := s.loads + [Load(kind, Starting)]) else s
       case ForNames => s.(loads := s.loads + [Load(kind, Starting)])
       case Reload => s.(loads := s.loads + [Load(kind, Missed)]))
    case Advance(i, dbOk) => if i < |s.loads| then Advanced(c.boot, s, i, dbOk) else s
    case Read => if s.surface.Some? then s.(answers := s.answers + [s.surface.value]) else s
  }

  function At(s: State, i: nat, stage: Stage): State
    requires i < |s.loads|
  {
    s.(loads := s.loads[i := s.loads[i].(stage := stage)])
  }

  /** What a load does once it knows the schema: only a write goes on to compile it. */
  function Known(l: Load, schema: Option<Schema>): Stage {
    if l.kind == ForSurface then HasSchema(schema) else Done
  }

  function Advanced(boot: Schema, s: State, i: nat, dbOk: bool): State
    requires i < |s.loads|
  {
    var l := s.loads[i];
    match l.stage
    case Starting => if s.cached.Some? then At(s, i, Known(l, s.cached)) else At(s, i, Missed)
    case Missed => if dbOk && s.row.Some? then At(s, i, HasRow(s.row.value)) else At(s, i, Known(l, None))
    case HasRow(row) => At(s, i, Known(l, Some(row))).(cached := Some(row))
    case HasSchema(schema) =>
      var out := MergeAll(boot, schema);
      At(s, i, Done).(surface := Some(out), answers := s.answers + [out])
    case Done => s
  }

  function Run(c: Config, s: State, es: seq<Event>): State
    decreases |es|
  {
    if es == [] then s else Run(c, Step(c, s, es[0]), es[1..])
  }

  // Safety: no assumption on the schedule.

  ghost predicate FromEver(ever: set<Schema>, d: Option<Schema>) {
    d.Some? ==> d.value in ever
  }

  ghost predicate StageOk(ever: set<Schema>, stage: Stage) {
    && (stage.HasRow? ==> stage.row in ever)
    && (stage.HasSchema? ==> FromEver(ever, stage.schema))
  }

  /** The merge of the boot schema with one schema that was deployed at some time, or nothing. */
  ghost predicate Genuine(boot: Schema, ever: set<Schema>, out: Surface) {
    out == map[] || exists d :: d in ever && IsSurface(boot, Some(d), out)
  }

  ghost predicate Safe(boot: Schema, s: State) {
    && FromEver(s.ever, s.row) && FromEver(s.ever, s.cached)
    && (s.surface.Some? ==> Genuine(boot, s.ever, s.surface.value))
    && (forall i :: 0 <= i < |s.loads| ==> StageOk(s.ever, s.loads[i].stage))
    && (forall i :: 0 <= i < |s.answers| ==> Genuine(boot, s.ever, s.answers[i]))
  }

  /** What was deployed so far only grows. */
  lemma EverGrows(boot: Schema, s: State, d: Option<Schema>)
    requires Safe(boot, s)
    ensures Safe(boot, Step(Config(boot, true), s, Deploy(d)))
  {
    var t := Step(Config(boot, true), s, Deploy(d));
    assert s.ever <= t.ever;
    forall i | 0 <= i < |t.loads| ensures StageOk(t.ever, t.loads[i].stage) {
      assert StageOk(s.ever, s.loads[i].stage);
    }
    forall i | 0 <= i < |t.answers| ensures Genuine(boot, t.ever, t.answers[i]) {
      assert Genuine(boot, s.ever, s.answers[i]);
    }
  }

  lemma CompiledIsGenuine(boot: Schema, ever: set<Schema>, d: Option<Schema>)
    requires FromEver(ever, d)
    ensures Genuine(boot, ever, MergeAll(boot, d))
  {
    SurfaceIff(boot, d, MergeAll(boot, d));
  }

  lemma AdvanceKeepsSafe(boot: Schema, s: State, i: nat, dbOk: bool)
    requires Safe(boot, s) && i < |s.loads|
    ensures Safe(boot, Advanced(boot, s, i, dbOk))
  {
    var t := Advanced(boot, s, i, dbOk);
    assert StageOk(s.ever, s.loads[i].stage);
    forall k | 0 <= k < |t.loads| ensures StageOk(t.ever, t.loads[k].stage) {
      assert StageOk(s.ever, s.loads[k].stage);
    }
    if s.loads[i].stage.HasSchema? {
      CompiledIsGenuine(boot, s.ever, s.loads[i].stage.schema);
    }
  }

  lemma StepKeepsSafe(c: Config, s: State, e: Event)
    requires Safe(c.boot, s)
    ensures Safe(c.boot, Step(c, s, e))
  {
    match e
    case Deploy(d) => EverGrows(c.boot, s, d);
    case Advance(i, dbOk) =>
      if i < |s.loads| {
        AdvanceKeepsSafe(c.boot, s, i, dbOk);
      }
    case Invalidate =>
    case WorkerDrop =>
    case Begin(_) =>
    case Read =>
  }

  lemma {:induction false} RunKeepsSafe(c: Config, s: State, es: seq<Event>)
    requires Safe(c.boot, s)
    ensures Safe(c.boot, Run(c, s, es))
    decreases |es|
  {
    if es != [] {
      StepKeepsSafe(c, s, es[0]);
      RunKeepsSafe(c, Step(c, s, es[0]), es[1..]);
    }
  }

  /**
   * Whatever races, stale entries, database errors and negative caching a run holds, every surface
   * a write was given leaves all to boot, or is the surface of one schema that was deployed: it
   * holds every resource boot shares with that schema and no other, each extended by it.
   */
  lemma EveryAnswerExtendsBoot(c: Config, s: State, es: seq<Event>, k: nat)
    requires Safe(c.boot, s) && k < |Run(c, s, es).answers|
    ensures var t := Run(c, s, es);
            || t.answers[k] == map[]
            || exists d ::
                 && d in t.ever
                 && (forall name :: name in t.answers[k] <==> name in c.boot && name in d)
                 && (forall name :: name in t.answers[k] ==>
                       Extends(c.boot[name], d[name], t.answers[k][name]))
  {
    RunKeepsSafe(c, s, es);
    var t := Run(c, s, es);
    assert Genuine(c.boot, t.ever, t.answers[k]);
    if t.answers[k] != map[] {
      var d :| d in t.ever && IsSurface(c.boot, Some(d), t.answers[k]);
    }
  }

  // Freshness.

  /** The surface a write should see now. */
  function Now(boot: Schema, s: State): Surface {
    MergeAll(boot, s.row)
  }

  ghost predicate Fresh(boot: Schema, row: Option<Schema>, d: Option<Schema>) {
    MergeAll(boot, d) == MergeAll(boot, row)
  }

  predicate Quiet(s: State) {
    s.queue == 0 && s.inv == Idle
  }

  /** Some write will still read the schema cache. */
  ghost predicate ReadsCache(s: State) {
    s.surface.None? || exists i :: 0 <= i < |s.loads| && s.loads[i] == Load(ForSurface, Starting)
  }

  /** A write in flight holds no schema but a fresh one. */
  ghost predicate WriteFresh(boot: Schema, row: Option<Schema>, l: Load) {
    && (l.kind == ForSurface && l.stage.HasRow? ==> Fresh(boot, row, Some(l.stage.row)))
    && (l.stage.HasSchema? ==> Fresh(boot, row, l.stage.schema))
  }

  ghost predicate RowFresh(boot: Schema, row: Option<Schema>, l: Load) {
    l.stage.HasRow? ==> Fresh(boot, row, Some(l.stage.row))
  }

  /** Nothing stale is on its way to a write. */
  ghost predicate Settled(boot: Schema, s: State) {
    && (s.surface.Some? ==> s.surface.value == Now(boot, s))
    && (forall i :: 0 <= i < |s.loads| ==> WriteFresh(boot, s.row, s.loads[i]))
    && (ReadsCache(s) ==>
          && (s.cached.Some? ==> Fresh(boot, s.row, s.cached))
          && forall i :: 0 <= i < |s.loads| ==> RowFresh(boot, s.row, s.loads[i]))
  }

  /** No deploy, and the database answers. */
  predicate Calm(e: Event) {
    && !e.Deploy?
    && (e.Advance? ==> e.dbOk)
  }

  predicate CalmRun(es: seq<Event>) {
    forall i :: 0 <= i < |es| ==> Calm(es[i])
  }

  /** Every answer a run adds is the surface of the schema deployed now. */
  ghost predicate AnswersFresh(c: Config, s: State, es: seq<Event>) {
    var t := Run(c, s, es);
    |s.answers| <= |t.answers| &&
    forall k :: |s.answers| <= k < |t.answers| ==> IsSurface(c.boot, s.row, t.answers[k])
  }

  /** A step of one load on fresh input leaves it, the cache and the surface fresh. */
  lemma AdvanceStaysFresh(c: Config, s: State, i: nat)
    requires i < |s.loads| && WriteFresh(c.boot, s.row, s.loads[i])
    requires s.loads[i] == Load(ForSurface, Starting) && s.cached.Some? ==> Fresh(c.boot, s.row, s.cached)
    ensures var t := Step(c, s, Advance(i, true));
            && |t.loads| == |s.loads| && t.row == s.row && t.queue == s.queue && t.inv == s.inv
            && WriteFresh(c.boot, s.row, t.loads[i])
            && (RowFresh(c.boot, s.row, s.loads[i]) ==> RowFresh(c.boot, s.row, t.loads[i]))
            && (t.cached == s.cached || (RowFresh(c.boot, s.row, s.loads[i]) ==> Fresh(c.boot, s.row, t.cached)))
            && (t.surface == s.surface || t.surface == Some(Now(c.boot, s)))
            && (t.answers == s.answers || t.answers == s.answers + [Now(c.boot, s)])
            && (forall k :: 0 <= k < |s.loads| && k != i ==> t.loads[k] == s.loads[k])
  {
  }

  /** What a calm event that is no step of a load can do to a quiet state. */
  lemma OtherCalmStep(c: Config, s: State, e: Event)
    requires Quiet(s) && Calm(e) && !e.Advance?
    ensures var t := Step(c, s, e);
            && Quiet(t) && t.row == s.row && t.surface == s.surface && (t.cached == s.cached || t.cached.None?)
            && (t.loads == s.loads || exists l :: t.loads == s.loads + [l] && !l.stage.HasRow? && !l.stage.HasSchema?)
            && (t.answers == s.answers || (s.surface.Some? && t.answers == s.answers + [s.surface.value]))
  {
    if e.Begin? {
      var t := Step(c, s, e);
      if t.loads != s.loads {
        var l := t.loads[|s.loads|];
        assert t.loads == s.loads + [l];
      }
    }
  }

  lemma OtherCalmStepKeepsSettled(c: Config, s: State, e: Event)
    requires Quiet(s) && Settled(c.boot, s) && Calm(e) && !e.Advance?
    ensures var t := Step(c, s, e);
            && Quiet(t) && Settled(c.boot, t) && t.row == s.row
            && s.answers <= t.answers
            && forall k :: |s.answers| <= k < |t.answers| ==> t.answers[k] == Now(c.boot, s)
  {
    var t := Step(c, s, e);
    OtherCalmStep(c, s, e);
    forall i | 0 <= i < |t.loads|
      ensures WriteFresh(c.boot, t.row, t.loads[i]) && (i < |s.loads| ==> t.loads[i] == s.loads[i])
                && (i >= |s.loads| ==> RowFresh(c.boot, t.row, t.loads[i]))
    {
      if i < |s.loads| {
        assert WriteFresh(c.boot, s.row, s.loads[i]);
      }
    }
    if ReadsCache(t) {
      CacheReadersOnlyLeave(c, s, e);
      forall i | 0 <= i < |t.loads| ensures RowFresh(c.boot, t.row, t.loads[i]) {
        assert i < |s.loads| ==> RowFresh(c.boot, s.row, s.loads[i]);
      }
    }
  }

  lemma CalmStepKeepsSettled(c: Config, s: State, e: Event)
    requires Quiet(s) && Settled(c.boot, s) && Calm(e)
    ensures var t := Step(c, s, e);
            && Quiet(t) && Settled(c.boot, t) && t.row == s.row
            && s.answers <= t.answers
            && forall k :: |s.answers| <= k < |t.answers| ==> t.answers[k] == Now(c.boot, s)
  {
    if e.Advance? {
      if e.i < |s.loads| {
        AdvanceKeepsSettled(c, s, e.i);
      }
    } else {
      OtherCalmStepKeepsSettled(c, s, e);
    }
  }

  lemma AdvanceKeepsSettled(c: Config, s: State, i: nat)
    requires Quiet(s) && Settled(c.boot, s) && i < |s.loads|
    ensures var t := Step(c, s, Advance(i, true));
            && Quiet(t) && Settled(c.boot, t) && t.row == s.row
            && s.answers <= t.answers
            && forall k :: |s.answers| <= k < |t.answers| ==> t.answers[k] == Now(c.boot, s)
  {
    if s.loads[i] == Load(ForSurface, Starting) {
      assert ReadsCache(s);
    }
    AdvanceStaysFresh(c, s, i);
    var t := Step(c, s, Advance(i, true));
    if ReadsCache(t) {
      CacheReadersOnlyLeave(c, s, Advance(i, true));
    }
  }

  lemma CacheReadersOnlyLeave(c: Config, s: State, e: Event)
    requires Quiet(s) && Calm(e) && ReadsCache(Step(c, s, e))
    ensures ReadsCache(s)
  {
    var t := Step(c, s, e);
    if s.surface.Some? {
      var i :| 0 <= i < |t.loads| && t.loads[i] == Load(ForSurface, Starting);
      assert i < |s.loads| && s.loads[i] == t.loads[i];
    }
  }

  lemma {:induction false} SettledStaysFresh(c: Config, s: State, es: seq<Event>)
    requires Quiet(s) && Settled(c.boot, s) && CalmRun(es)
    ensures Settled(c.boot, Run(c, s, es)) && Quiet(Run(c, s, es)) && Run(c, s, es).row == s.row
    ensures s.answers <= Run(c, s, es).answers && AnswersFresh(c, s, es)
    decreases |es|
  {
    if es != [] {
      assert Calm(es[0]);
      CalmStepKeepsSettled(c, s, es[0]);
      var t := Step(c, s, es[0]);
      SettledStaysFresh(c, t, es[1..]);
      var u := Run(c, t, es[1..]);
      assert u == Run(c, s, es);
      forall k | |s.answers| <= k < |u.answers| ensures IsSurface(c.boot, s.row, u.answers[k]) {
        if k < |t.answers| {
          SurfaceIff(c.boot, s.row, t.answers[k]);
          assert u.answers[k] == t.answers[k];
        }
      }
    }
  }

  // The converse: whatever is not settled can still reach a write.

  /** Two calm runs one after the other. */
  lemma {:induction false} RunConcat(c: Config, s: State, es: seq<Event>, fs: seq<Event>)
    ensures Run(c, s, es + fs) == Run(c, Run(c, s, es), fs)
    decreases |es|
  {
    if es == [] {
      assert es + fs == fs;
    } else {
      assert (es + fs)[1..] == es[1..] + fs;
      RunConcat(c, Step(c, s, es[0]), es[1..], fs);
    }
  }

  lemma RunOne(c: Config, s: State, e: Event, es: seq<Event>)
    ensures Run(c, s, [e] + es) == Run(c, Step(c, s, e), es)
  {
    assert ([e] + es)[1..] == es;
  }

  ghost predicate StaleRun(c: Config, s: State, es: seq<Event>) {
    CalmRun(es) && !AnswersFresh(c, s, es)
  }

  /** A stale answer after one more calm event that answers nothing is a stale answer now. */
  lemma StaleLater(c: Config, s: State, e: Event, es: seq<Event>)
    requires Calm(e) && StaleRun(c, Step(c, s, e), es)
    requires Step(c, s, e).answers == s.answers && Step(c, s, e).row == s.row
    ensures StaleRun(c, s, [e] + es)
  {
    RunOne(c, s, e, es);
  }

  lemma StaleNow(c: Config, s: State, e: Event)
    requires Calm(e) && |Step(c, s, e).answers| == |s.answers| + 1
    requires Step(c, s, e).answers[|s.answers|] != Now(c.boot, s)
    ensures StaleRun(c, s, [e])
  {
    SurfaceIff(c.boot, s.row, Step(c, s, e).answers[|s.answers|]);
    assert Run(c, Step(c, s, e), []) == Step(c, s, e);
    assert [e][1..] == [];
  }

  lemma StaleSchemaAnswers(c: Config, s: State, i: nat) returns (es: seq<Event>)
    requires i < |s.loads| && s.loads[i].stage.HasSchema? && !Fresh(c.boot, s.row, s.loads[i].stage.schema)
    ensures StaleRun(c, s, es)
  {
    StaleNow(c, s, Advance(i, true));
    es := [Advance(i, true)];
  }

  lemma StaleRowAnswers(c: Config, s: State, i: nat) returns (es: seq<Event>)
    requires i < |s.loads| && s.loads[i].kind == ForSurface && s.loads[i].stage.HasRow?
    requires !Fresh(c.boot, s.row, Some(s.loads[i].stage.row))
    ensures StaleRun(c, s, es)
  {
    var t := Step(c, s, Advance(i, true));
    var rest := StaleSchemaAnswers(c, t, i);
    StaleLater(c, s, Advance(i, true), rest);
    es := [Advance(i, true)] + rest;
  }

  lemma StaleCacheAnswers(c: Config, s: State) returns (es: seq<Event>)
    requires ReadsCache(s) && s.cached.Some? && !Fresh(c.boot, s.row, s.cached)
    ensures StaleRun(c, s, es)
  {
    if i :| 0 <= i < |s.loads| && s.loads[i] == Load(ForSurface, Starting) {
      var rest := StaleSchemaAnswers(c, Step(c, s, Advance(i, true)), i);
      StaleLater(c, s, Advance(i, true), rest);
      es := [Advance(i, true)] + rest;
    } else {
      var t := Step(c, s, Begin(ForSurface));
      var n := |s.loads|;
      assert t.loads[n] == Load(ForSurface, Starting);
      var rest := StaleSchemaAnswers(c, Step(c, t, Advance(n, true)), n);
      StaleLater(c, t, Advance(n, true), rest);
      StaleLater(c, s, Begin(ForSurface), [Advance(n, true)] + rest);
      es := [Begin(ForSurface)] + ([Advance(n, true)] + rest);
    }
  }

  lemma StaleFillAnswers(c: Config, s: State, i: nat) returns (es: seq<Event>)
    requires ReadsCache(s) && i < |s.loads| && !RowFresh(c.boot, s.row, s.loads[i])
    ensures StaleRun(c, s, es)
  {
    if s.loads[i].kind == ForSurface {
      es := StaleRowAnswers(c, s, i);
    } else {
      var t := Step(c, s, Advance(i, true));
      if s.surface.Some? {
        var k :| 0 <= k < |s.loads| && s.loads[k] == Load(ForSurface, Starting);
        assert t.loads[k] == s.loads[k];
      }
      var rest := StaleCacheAnswers(c, t);
      StaleLater(c, s, Advance(i, true), rest);
      es := [Advance(i, true)] + rest;
    }
  }

  lemma UnsettledAnswersStale(c: Config, s: State) returns (es: seq<Event>)
    requires !Settled(c.boot, s)
    ensures StaleRun(c, s, es)
  {
    if s.surface.Some? && s.surface.value != Now(c.boot, s) {
      StaleNow(c, s, Read);
      es := [Read];
    } else if i :| 0 <= i < |s.loads| && !WriteFresh(c.boot, s.row, s.loads[i]) {
      if s.loads[i].stage.HasRow? {
        es := StaleRowAnswers(c, s, i);
      } else {
        es := StaleSchemaAnswers(c, s, i);
      }
    } else if s.cached.Some? && !Fresh(c.boot, s.row, s.cached) {
      es := StaleCacheAnswers(c, s);
    } else {
      var i :| 0 <= i < |s.loads| && !RowFresh(c.boot, s.row, s.loads[i]);
      es := StaleFillAnswers(c, s, i);
    }
  }

  /**
   * Once every notification is processed, every write until the next deploy gets the merge of the
   * boot schema and the deployed one if and only if nothing stale is on its way to a write.
   */
  lemma FreshUntilNextDeployIff(c: Config, s: State)
    requires Quiet(s)
    ensures (forall es :: CalmRun(es) ==> AnswersFresh(c, s, es)) <==> Settled(c.boot, s)
  {
    if Settled(c.boot, s) {
      forall es | CalmRun(es) ensures AnswersFresh(c, s, es) {
        SettledStaysFresh(c, s, es);
      }
    } else {
      var es := UnsettledAnswersStale(c, s);
      assert CalmRun(es) && !AnswersFresh(c, s, es);
    }
  }

  // Processing one notification.

  /** No load holds anything stale. */
  ghost predicate NoStaleLoad(boot: Schema, s: State) {
    forall i :: 0 <= i < |s.loads| ==> WriteFresh(boot, s.row, s.loads[i]) && RowFresh(boot, s.row, s.loads[i])
  }

  /** Between the two drops: the schema cache and every load are fresh, the surface may not be. */
  ghost predicate HalfFresh(boot: Schema, s: State) {
    && s.queue == 0 && s.inv == Half
    && NoStaleLoad(boot, s) && (s.cached.Some? ==> Fresh(boot, s.row, s.cached))
  }

  /** Loads and reads only. */
  predicate CalmLoads(es: seq<Event>) {
    forall i :: 0 <= i < |es| ==> Calm(es[i]) && !es[i].Invalidate?
  }

  lemma HalfStep(c: Config, s: State, e: Event)
    requires HalfFresh(c.boot, s) && Calm(e) && !e.Invalidate?
    ensures HalfFresh(c.boot, Step(c, s, e)) && Step(c, s, e).row == s.row
  {
    if e.Advance? && e.i < |s.loads| {
      AdvanceStaysFresh(c, s, e.i);
    }
  }

  lemma {:induction false} HalfRun(c: Config, s: State, es: seq<Event>)
    requires HalfFresh(c.boot, s) && CalmLoads(es)
    ensures HalfFresh(c.boot, Run(c, s, es)) && Run(c, s, es).row == s.row
    decreases |es|
  {
    if es != [] {
      assert Calm(es[0]) && !es[0].Invalidate?;
      HalfStep(c, s, es[0]);
      HalfRun(c, Step(c, s, es[0]), es[1..]);
    }
  }

  /**
   * If no load holds a stale schema when the last notification drops the schema cache, then
   * whatever loads run between the two drops, everything is settled after the second.
   */
  lemma ProcessedNotificationSettles(c: Config, s: State, es: seq<Event>)
    requires c.schemaFirst && s.inv == Took && s.queue == 0 && NoStaleLoad(c.boot, s) && CalmLoads(es)
    ensures var t := Run(c, s, [Invalidate] + es + [Invalidate]);
            Quiet(t) && Settled(c.boot, t) && t.row == s.row
  {
    var u := Step(c, s, Invalidate);
    assert HalfFresh(c.boot, u);
    HalfRun(c, u, es);
    var v := Run(c, u, es);
    RunOne(c, s, Invalidate, es);
    RunConcat(c, s, [Invalidate] + es, [Invalidate]);
    var t := Step(c, v, Invalidate);
    assert Run(c, t, []) == t && [Invalidate][1..] == [];
    assert Run(c, v, [Invalidate]) == t;
    assert Settled(c.boot, t);
  }

  // Loads that run in one go.

  /** An event, or a whole load from its first step to its last. */
  datatype Big = Plain(e: Event) | Whole(kind: Kind)

  function BigStep(c: Config, s: State, b: Big): State {
    match b
    case Plain(e) => if e.Begin? || e.Advance? then s else Step(c, s, e)
    case Whole(kind) =>
      var n := |s.loads|;
      var s0 := Step(c, s, Begin(kind));
      if |s0.loads| == n then s0
      else
        var s1 := Advanced(c.boot, s0, n, true);
        var s2 := Advanced(c.boot, s1, n, true);
        var s3 := Advanced(c.boot, s2, n, true);
        Advanced(c.boot, s3, n, true)
  }

  function BigRun(c: Config, s: State, bs: seq<Big>): State
    decreases |bs|
  {
    if bs == [] then s else BigRun(c, BigStep(c, s, bs[0]), bs[1..])
  }

  ghost predicate NoLoad(s: State) {
    forall i :: 0 <= i < |s.loads| ==> s.loads[i].stage == Done
  }

  /** What holds throughout: the caches are fresh up to the point the invalidator has reached. */
  ghost predicate Pipeline(boot: Schema, s: State) {
    && NoLoad(s)
    && (s.queue == 0 && s.inv != Took && s.cached.Some? ==> Fresh(boot, s.row, s.cached))
    && (Quiet(s) && s.surface.Some? ==> s.surface.value == Now(boot, s))
  }

  /** A whole load leaves what the schema cache holds, or the row, in both caches. */
  ghost predicate Atomic(boot: Schema, s: State, t: State, seen: Option<Schema>) {
    && NoLoad(t) && t.row == s.row && t.queue == s.queue && t.inv == s.inv
    && (t.cached == s.cached || t.cached == seen)
    && (t.surface == s.surface || t.surface == Some(MergeAll(boot, seen)))
  }

  ghost predicate LastLoads(s: State, n: nat) {
    |s.loads| == n + 1 && forall i :: 0 <= i < n ==> s.loads[i].stage == Done
  }

  /** A load that has its schema, or none, and stores or skips the surface. */
  lemma KnownEnds(boot: Schema, s: State, n: nat, d: Option<Schema>)
    requires LastLoads(s, n) && s.loads[n].stage == Known(s.loads[n], d)
    ensures var t := Advanced(boot, s, n, true);
            Atomic(boot, s, t, d) && t.loads[n].stage == Done && t.cached == s.cached
  {
  }

  lemma DoneStays(boot: Schema, s: State, n: nat)
    requires n < |s.loads| && s.loads[n].stage == Done
    ensures Advanced(boot, s, n, true) == s
  {
  }

  lemma FromMissed(boot: Schema, s: State, n: nat)
    requires LastLoads(s, n) && s.loads[n].stage == Missed
    ensures var t := Advanced(boot, Advanced(boot, Advanced(boot, s, n, true), n, true), n, true);
            Atomic(boot, s, t, s.row) && t.loads[n].stage == Done
  {
    var s1 := Advanced(boot, s, n, true);
    if s.row.Some? {
      assert s1.loads[n].stage == HasRow(s.row.value);
      var s2 := Advanced(boot, s1, n, true);
      assert s2.cached == s.row && LastLoads(s2, n);
      KnownEnds(boot, s2, n, s.row);
    } else {
      assert LastLoads(s1, n) && s1.cached == s.cached;
      KnownEnds(boot, s1, n, None);
      DoneStays(boot, Advanced(boot, s1, n, true), n);
    }
  }

  lemma WholeLoadIsAtomic(c: Config, s: State, kind: Kind)
    requires NoLoad(s)
    ensures Atomic(c.boot, s, BigStep(c, s, Whole(kind)), if s.cached.Some? && kind != Reload then s.cached else s.row)
  {
    var n := |s.loads|;
    var s0 := Step(c, s, Begin(kind));
    if |s0.loads| != n {
      assert LastLoads(s0, n);
      var s1 := Advanced(c.boot, s0, n, true);
      if kind == Reload {
        FromMissed(c.boot, s0, n);
        DoneStays(c.boot, Advanced(c.boot, Advanced(c.boot, s1, n, true), n, true), n);
      } else if s.cached.Some? {
        assert s1.loads[n].stage == Known(s0.loads[n], s.cached) && LastLoads(s1, n);
        KnownEnds(c.boot, s1, n, s.cached);
        var s2 := Advanced(c.boot, s1, n, true);
        DoneStays(c.boot, s2, n);
      } else {
        assert s1.loads[n].stage == Missed && LastLoads(s1, n);
        FromMissed(c.boot, s1, n);
      }
    }
  }

  lemma BigStepKeepsPipeline(c: Config, s: State, b: Big)
    requires c.schemaFirst && Pipeline(c.boot, s)
    ensures Pipeline(c.boot, BigStep(c, s, b))
  {
    if b.Whole? {
      WholeLoadIsAtomic(c, s, b.kind);
    }
  }

  /**
   * With loads that run in one go, at any point between deploys and the invalidator's steps, every
   * processed invalidation leaves each write the merge of boot and deployed schema until the next
   * deploy.
   */
  lemma {:induction false} AtomicLoadsStayCoherent(c: Config, s: State, bs: seq<Big>)
    requires c.schemaFirst && Pipeline(c.boot, s)
    ensures var t := BigRun(c, s, bs);
            && Pipeline(c.boot, t)
            && (Quiet(t) ==> Settled(c.boot, t) && forall es :: CalmRun(es) ==> AnswersFresh(c, t, es))
    decreases |bs|
  {
    if bs == [] {
      if Quiet(s) {
        assert Settled(c.boot, s);
        FreshUntilNextDeployIff(c, s);
      }
    } else {
      BigStepKeepsPipeline(c, s, bs[0]);
      AtomicLoadsStayCoherent(c, BigStep(c, s, bs[0]), bs[1..]);
    }
  }

  // What breaks it.

  /** A whole load for a write takes what the schema cache holds. */
  lemma WholeLoadTakesCache(c: Config, s: State, d: Schema)
    requires s.surface.None? && s.cached == Some(d)
    ensures BigStep(c, s, Whole(ForSurface)).surface == Some(MergeAll(c.boot, Some(d)))
    ensures BigStep(c, s, Whole(ForSurface)).cached == s.cached
  {
    var n, b := |s.loads|, Step(c, s, Begin(ForSurface));
    assert Advanced(c.boot, b, n, true).loads[n].stage == HasSchema(Some(d));
  }

  /** The state before the last drop, in the reversed order. */
  lemma ReversedHalfWay(boot: Schema, s: State, before: Schema, deployed: Option<Schema>)
    requires Quiet(s) && NoLoad(s) && s.cached == Some(before)
    ensures var c := Config(boot, false);
            var t := BigStep(c, BigStep(c, BigStep(c, s, Plain(Deploy(deployed))), Plain(Invalidate)),
                Plain(Invalidate));
            && t.surface == None && t.cached == Some(before) && t.inv == Half && t.queue == 0 && t.row == deployed
                && NoLoad(t)
  {
  }

  /** The surface dropped before the schema cache: one whole load in between brings the old one back. */
  lemma ReversedOrderGoesStale(boot: Schema, s: State, before: Schema, deployed: Option<Schema>)
    requires Quiet(s) && NoLoad(s) && s.cached == Some(before)
    requires MergeAll(boot, Some(before)) != MergeAll(boot, deployed)
    ensures var c := Config(boot, false);
            var t := BigRun(c, s, [Plain(Deploy(deployed)), Plain(Invalidate), Plain(Invalidate), Whole(ForSurface),
                Plain(Invalidate)]);
            Quiet(t) && NoLoad(t) && t.surface == Some(MergeAll(boot, Some(before))) && !Settled(boot, t)
  {
    var c := Config(boot, false);
    BigRunFive(c, s, Plain(Deploy(deployed)), Plain(Invalidate), Plain(Invalidate), Whole(ForSurface),
        Plain(Invalidate));
    ReversedHalfWay(boot, s, before, deployed);
    var h := BigStep(c, BigStep(c, BigStep(c, s, Plain(Deploy(deployed))), Plain(Invalidate)), Plain(Invalidate));
    WholeLoadTakesCache(c, h, before);
    WholeLoadIsAtomic(c, h, ForSurface);
    LastDropEnds(c, BigStep(c, h, Whole(ForSurface)));
  }

  lemma LastDropEnds(c: Config, s: State)
    requires !c.schemaFirst && s.inv == Half && s.queue == 0 && NoLoad(s)
    ensures var t := BigStep(c, s, Plain(Invalidate)); Quiet(t) && NoLoad(t) && t.surface == s.surface && t.row == s.row
  {
  }

  lemma BigRunFive(c: Config, s: State, b1: Big, b2: Big, b3: Big, b4: Big, b5: Big)
    ensures BigRun(c, s, [b1, b2, b3, b4, b5]) ==
            BigStep(c, BigStep(c, BigStep(c, BigStep(c, BigStep(c, s, b1), b2), b3), b4), b5)
  {
    var s1 := BigStep(c, s, b1);
    var s2 := BigStep(c, s1, b2);
    var s3 := BigStep(c, s2, b3);
    var s4 := BigStep(c, s3, b4);
    var s5 := BigStep(c, s4, b5);
    assert [b5][1..] == [] && BigRun(c, s5, []) == s5;
    assert BigRun(c, s4, [b5]) == s5;
    assert [b4, b5][1..] == [b5];
    assert BigRun(c, s3, [b4, b5]) == s5;
    assert [b3, b4, b5][1..] == [b4, b5];
    assert BigRun(c, s2, [b3, b4, b5]) == s5;
    assert [b2, b3, b4, b5][1..] == [b3, b4, b5];
    assert BigRun(c, s1, [b2, b3, b4, b5]) == s5;
    assert [b1, b2, b3, b4, b5][1..] == [b2, b3, b4, b5];
  }

  /** The state a load reaches that read the row and was overtaken by a deploy and its invalidation. */
  function Straddled(c: Config, s: State, deployed: Option<Schema>): State {
    var n := |s.loads|;
    var s1 := Step(c, Step(c, Step(c, s, Begin(ForSurface)), Advance(n, true)), Advance(n, true));
    var s2 := Step(c, Step(c, Step(c, Step(c, s1, Deploy(deployed)), Invalidate), Invalidate), Invalidate);
    Step(c, Step(c, s2, Advance(n, true)), Advance(n, true))
  }

  /**
   * In the source's order too, a load that straddles the invalidation leaves the old surface in
   * place with every notification processed, so a calm run answers stale.
   */
  lemma StraddlingLoadGoesStale(c: Config, s: State, before: Schema, deployed: Option<Schema>)
    requires Quiet(s) && s.surface.None? && s.cached.None? && s.row == Some(before)
    requires MergeAll(c.boot, Some(before)) != MergeAll(c.boot, deployed)
    ensures var t := Straddled(c, s, deployed);
            && Quiet(t) && t.row == deployed && t.surface == Some(MergeAll(c.boot, Some(before)))
            && !(forall es :: CalmRun(es) ==> AnswersFresh(c, t, es))
  {
    var n := |s.loads|;
    var b := Step(c, s, Begin(ForSurface));
    assert b.loads[n] == Load(ForSurface, Starting);
    var b1 := Step(c, b, Advance(n, true));
    assert b1.loads[n] == Load(ForSurface, Missed);
    var s1 := Step(c, b1, Advance(n, true));
    assert s1.loads[n] == Load(ForSurface, HasRow(before));
    var s2 := Step(c, Step(c, Step(c, Step(c, s1, Deploy(deployed)), Invalidate), Invalidate), Invalidate);
    assert Quiet(s2) && s2.loads[n] == Load(ForSurface, HasRow(before));
    var s3 := Step(c, s2, Advance(n, true));
    assert s3.loads[n] == Load(ForSurface, HasSchema(Some(before)));
    FreshUntilNextDeployIff(c, Straddled(c, s, deployed));
  }

  /**
   * A write that finds no row, or no database, gets the empty surface, which leaves every resource
   * to boot, and the next writes get it too until the surface is dropped.
   */
  lemma FailedReadIsCached(c: Config, s: State, i: nat, dbOk: bool)
    requires i < |s.loads| && s.loads[i] == Load(ForSurface, Missed) && (!dbOk || s.row.None?)
    ensures var t := Step(c, Step(c, s, Advance(i, dbOk)), Advance(i, true));
            && t.surface == Some(map[]) && t.answers == s.answers + [map[]] && t.cached == s.cached
            && Step(c, t, Read).answers == s.answers + [map[]] + [map[]]
            && Step(c, t, Begin(ForSurface)) == t
  {
    var u := Step(c, s, Advance(i, dbOk));
    assert u.loads[i] == Load(ForSurface, HasSchema(None)) && u.answers == s.answers;
  }

  /** `/reload` reads the row past whatever the schema cache holds, and leaves the row there. */
  lemma ReloadReadsTheRow(c: Config, s: State)
    requires s.row.Some?
    ensures var n, t := |s.loads|, Step(c, s, Begin(Reload));
            Step(c, Step(c, t, Advance(n, true)), Advance(n, true)) ==
            s.(cached := s.row, loads := s.loads + [Load(Reload, Done)])
  {
    var n, t := |s.loads|, Step(c, s, Begin(Reload));
    assert t.loads[n] == Load(Reload, Missed);
    var u := Step(c, t, Advance(n, true));
    assert u.loads[n] == Load(Reload, HasRow(s.row.value));
    assert Step(c, u, Advance(n, true)).loads == s.loads + [Load(Reload, Done)];
  }

  /** After the worker dropped the schema cache the next reader goes to the row too. */
  lemma DroppedCacheIsReadAgain(c: Config, s: State)
    requires s.row.Some?
    ensures var n, t := |s.loads|, Step(c, Step(c, s, WorkerDrop), Begin(ForNames));
            Step(c, Step(c, Step(c, t, Advance(n, true)), Advance(n, true)), Advance(n, true)) ==
            s.(cached := s.row, loads := s.loads + [Load(ForNames, Done)])
  {
    var n, t := |s.loads|, Step(c, Step(c, s, WorkerDrop), Begin(ForNames));
    assert t.loads[n] == Load(ForNames, Starting);
    var u := Step(c, t, Advance(n, true));
    assert u.loads[n] == Load(ForNames, Missed);
    var v := Step(c, u, Advance(n, true));
    assert v.loads[n] == Load(ForNames, HasRow(s.row.value));
    assert Step(c, v, Advance(n, true)).loads == s.loads + [Load(ForNames, Done)];
  }
}
