/**
 * The open-loop load generator (`runOpenLoop`, cmd/appximo/cmd_drill.go): one dispatcher and any
 * number of request goroutines share atomic counters, one counter operation a step.
 */
module LoadGen {

  /** Where a request goroutine stands: what it does next. */
  datatype Stage = Firing | Erring | Counting | Dooring | Finishing | Logging | Leaving | Ending | Gone

  /** `failed` for a request without an answer, counted as code 0; `capacity` tells the two 429 doors apart. */
  datatype Goroutine = Goroutine(stage: Stage, failed: bool, code: int, capacity: bool)

  datatype Dispatcher = Waking | CapErring | CapCounting | Making | Sending | Admitting | Spawning | Draining | Returned

  /** `capped` and `cappedErrs` number the ticks skipped at the cap, counted and booked as errors. */
  datatype State = State(
    cap: int, sent: int, done: int, inflight: int, netErr: int, limiter: int, admission: int,
    status: map<int, nat>, latencies: seq<real>,
    dispatcher: Dispatcher, goroutines: seq<Goroutine>, capped: int, cappedErrs: int)

  datatype Event =
    | Tick
    | Made(ok: bool)
    | Dispatch
    | Stop
    | Answer(i: nat, failed: bool, code: int, capacity: bool)
    | Go(i: nat, ms: real)

  function Cap(rate: real): int {
    var c := (4.0 * rate).Floor;
    if c < 64 then 64 else c
  }

  function Get(m: map<int, nat>, c: int): nat {
    if c in m then m[c] else 0
  }

  /** `count`. */
  function Bump(m: map<int, nat>, c: int): map<int, nat> {
    m[c := Get(m, c) + 1]
  }

  function Rank(s: Stage): nat {
    match s
    case Firing => 0
    case Erring => 1
    case Counting => 2
    case Dooring => 3
    case Finishing => 4
    case Logging => 5
    case Leaving => 6
    case Ending => 7
    case Gone => 8
  }

  function Moved(s: State, i: nat, stage: Stage): State
    requires i < |s.goroutines|
  {
    s.(goroutines := s.goroutines[i := s.goroutines[i].(stage := stage)])
  }

  /** One step of a goroutine that has its answer. */
  function GoStep(s: State, i: nat, ms: real): State
    requires i < |s.goroutines|
  {
    var g := s.goroutines[i];
    match g.stage
    case Firing => s
    case Erring => Moved(s, i, Counting).(netErr := s.netErr + 1)
    case Counting => Moved(s, i, if g.failed then Leaving else Dooring).(status := Bump(s.status, g.code))
    case Dooring =>
      var t := Moved(s, i, Finishing);
      if g.code != 429 then t
      else if g.capacity then t.(admission := s.admission + 1)
      else t.(limiter := s.limiter + 1)
    case Finishing => Moved(s, i, Logging).(done := s.done + 1)
    case Logging => Moved(s, i, Leaving).(latencies := s.latencies + [ms])
    case Leaving => Moved(s, i, Ending).(inflight := s.inflight - 1)
    case Ending => Moved(s, i, Gone)
    case Gone => s
  }

  predicate AllGone(gs: seq<Goroutine>) {
    forall i :: 0 <= i < |gs| ==> gs[i].stage == Gone
  }

  function Dispatched(s: State): State {
    match s.dispatcher
    case CapErring => s.(netErr := s.netErr + 1, cappedErrs := s.cappedErrs + 1, dispatcher := CapCounting)
    case CapCounting => s.(status := Bump(s.status, 0), capped := s.capped + 1, dispatcher := Waking)
    case Sending => s.(sent := s.sent + 1, dispatcher := Admitting)
    case Admitting => s.(inflight := s.inflight + 1, dispatcher := Spawning)
    case Spawning => s.(goroutines := s.goroutines + [Goroutine(Firing, false, 0, false)], dispatcher := Waking)
    case Draining => if AllGone(s.goroutines) then s.(dispatcher := Returned) else s
    case _ => s
  }

  function Step(s: State, e: Event): State {
    match e
    case Tick =>
      if s.dispatcher == Waking then s.(dispatcher := if s.inflight >= s.cap then CapErring else Making) else s
    case Made(ok) => if s.dispatcher == Making then s.(dispatcher := if ok then Sending else Waking) else s
    case Dispatch => Dispatched(s)
    case Stop => if s.dispatcher == Waking then s.(dispatcher := Draining) else s
    case Answer(i, failed, code, capacity) =>
      if i < |s.goroutines| && s.goroutines[i].stage == Firing
      then s.(goroutines := s.goroutines[i :=
          Goroutine(if failed then Erring else Counting, failed, if failed then 0 else code, capacity)])
      else s
    case Go(i, ms) => if i < |s.goroutines| then GoStep(s, i, ms) else s
  }

  function Run(s: State, es: seq<Event>): State
    decreases |es|
  {
    if es == [] then s else Run(Step(s, es[0]), es[1..])
  }

  // Counting.

  /** What an answer can say: anything, a code (0 for none at all), one of the two doors, no answer, an answer. */
  datatype Said = Anything | Code(code: int) | LimiterDoor | AdmissionDoor | Silence | Response

  predicate Says(w: Said, failed: bool, code: int, capacity: bool) {
    match w
    case Anything => true
    case Code(c) => (if failed then 0 else code) == c
    case LimiterDoor => !failed && code == 429 && !capacity
    case AdmissionDoor => !failed && code == 429 && capacity
    case Silence => failed
    case Response => !failed
  }

  /** What a goroutine can be counted for. */
  datatype Tally = Counted | Erred | Finished | Logged | Flying | Limited | Admitted | Doored | CountedAs(code: int)
    | Told(said: Said)

  predicate Is(k: Tally, g: Goroutine) {
    match k
    case Counted => Rank(g.stage) >= 3
    case Erred => g.failed && Rank(g.stage) >= 2
    case Finished => !g.failed && Rank(g.stage) >= 5
    case Logged => !g.failed && Rank(g.stage) >= 6
    case Flying => Rank(g.stage) < 7
    case Limited => !g.failed && g.code == 429 && !g.capacity && Rank(g.stage) >= 4
    case Admitted => !g.failed && g.code == 429 && g.capacity && Rank(g.stage) >= 4
    case Doored => !g.failed && g.code == 429 && Rank(g.stage) >= 4
    case CountedAs(c) => g.code == c && Rank(g.stage) >= 3
    case Told(w) => Rank(g.stage) >= 1 && Says(w, g.failed, g.code, g.capacity)
  }

  function One(k: Tally, g: Goroutine): nat {
    if Is(k, g) then 1 else 0
  }

  function Count(gs: seq<Goroutine>, k: Tally): nat {
    if gs == [] then 0 else Count(gs[..|gs| - 1], k) + One(k, gs[|gs| - 1])
  }

  lemma CountSnoc(gs: seq<Goroutine>, g: Goroutine, k: Tally)
    ensures Count(gs + [g], k) == Count(gs, k) + One(k, g)
  {
    assert (gs + [g])[..|gs|] == gs;
  }

  lemma {:induction false} CountUpdate(gs: seq<Goroutine>, i: nat, g: Goroutine, k: Tally)
    requires i < |gs|
    ensures Count(gs[i := g], k) + One(k, gs[i]) == Count(gs, k) + One(k, g)
    decreases |gs|
  {
    var n := |gs| - 1;
    if i < n {
      CountUpdate(gs[..n], i, g, k);
      assert gs[i := g][..n] == gs[..n][i := g];
    } else {
      assert gs[i := g][..n] == gs[..n];
    }
  }

  lemma {:induction false} CountAgrees(gs: seq<Goroutine>, k: Tally, l: Tally)
    requires forall i :: 0 <= i < |gs| ==> One(k, gs[i]) == One(l, gs[i])
    ensures Count(gs, k) == Count(gs, l)
    decreases |gs|
  {
    if gs != [] {
      CountAgrees(gs[..|gs| - 1], k, l);
    }
  }

  lemma {:induction false} CountSplits(gs: seq<Goroutine>, k: Tally, l: Tally)
    requires forall i :: 0 <= i < |gs| ==> One(k, gs[i]) + One(l, gs[i]) == 1
    ensures Count(gs, k) + Count(gs, l) == |gs|
    decreases |gs|
  {
    if gs != [] {
      CountSplits(gs[..|gs| - 1], k, l);
    }
  }

  lemma {:induction false} CountBound(gs: seq<Goroutine>, k: Tally)
    ensures Count(gs, k) <= |gs|
    decreases |gs|
  {
    if gs != [] {
      CountBound(gs[..|gs| - 1], k);
    }
  }

  /** Every 429 went through one of the two doors. */
  lemma {:induction false} DoorsAddUp(gs: seq<Goroutine>)
    ensures Count(gs, Limited) + Count(gs, Admitted) == Count(gs, Doored)
    decreases |gs|
  {
    if gs != [] {
      DoorsAddUp(gs[..|gs| - 1]);
    }
  }

  lemma {:induction false} CountAll(gs: seq<Goroutine>, k: Tally)
    requires forall i :: 0 <= i < |gs| ==> One(k, gs[i]) == 1
    ensures Count(gs, k) == |gs|
    decreases |gs|
  {
    if gs != [] {
      CountAll(gs[..|gs| - 1], k);
    }
  }

  /** The sum of a status table. */
  ghost function Total(m: map<int, nat>): nat
    decreases |m|
  {
    if m.Keys == {} then 0
    else
      var c := Any(m.Keys);
      m[c] + Total(m - {c})
  }

  ghost function Any<T>(s: set<T>): (x: T)
    requires s != {}
    ensures x in s
  {
    var y :| y in s;
    y
  }

  lemma {:induction false} TotalWithout(m: map<int, nat>, c: int)
    requires c in m
    ensures Total(m) == m[c] + Total(m - {c})
    decreases |m|
  {
    var d := Any(m.Keys);
    if d != c {
      var l, r := m - {d}, m - {c};
      TotalWithout(l, c);
      TotalWithout(r, d);
      assert l - {c} == r - {d};
    }
  }

  lemma TotalBump(m: map<int, nat>, c: int)
    ensures Total(Bump(m, c)) == Total(m) + 1
  {
    var b := Bump(m, c);
    TotalWithout(b, c);
    if c in m {
      TotalWithout(m, c);
      assert b - {c} == m - {c};
    } else {
      assert b - {c} == m;
    }
  }

  // The invariant: every counter is a count of goroutines and skipped ticks.

  /** A failed goroutine skips the stages of an answered one. */
  predicate Shaped(g: Goroutine) {
    && (g.failed ==> g.code == 0 && (g.stage == Erring || g.stage == Counting || Rank(g.stage) >= 6))
    && (!g.failed ==> g.stage != Erring)
  }

  ghost predicate Tallies(s: State) {
    && Total(s.status) == Count(s.goroutines, Counted) + s.capped
    && s.netErr == Count(s.goroutines, Erred) + s.cappedErrs
    && s.done == Count(s.goroutines, Finished)
    && |s.latencies| == Count(s.goroutines, Logged)
    && s.limiter == Count(s.goroutines, Limited)
    && s.admission == Count(s.goroutines, Admitted)
  }

  /** Each code was counted once for every goroutine that got it, and 0 for every skipped tick. */
  ghost predicate Codes(s: State) {
    (forall c :: Get(s.status, c) == Count(s.goroutines, CountedAs(c)) + (if c == 0 then s.capped else 0))
  }

  ghost predicate Dispatching(s: State) {
    && s.sent == |s.goroutines| + (if s.dispatcher == Admitting || s.dispatcher == Spawning then 1 else 0)
    && s.inflight == Count(s.goroutines, Flying) + (if s.dispatcher == Spawning then 1 else 0)
    && s.cappedErrs == s.capped + (if s.dispatcher == CapCounting then 1 else 0)
    && s.inflight <= s.cap
    && (s.dispatcher == Making || s.dispatcher == Sending || s.dispatcher == Admitting ==> s.inflight < s.cap)
    && (s.dispatcher == Returned ==> AllGone(s.goroutines))
    && s.capped >= 0
  }

  ghost predicate Inv(s: State) {
    && Tallies(s) && Codes(s) && Dispatching(s)
    && forall i :: 0 <= i < |s.goroutines| ==> Shaped(s.goroutines[i])
  }

  function Init(rate: real): State {
    State(Cap(rate), 0, 0, 0, 0, 0, 0, map[], [], Waking, [], 0, 0)
  }

  lemma IdleIsInv(s: State)
    requires s.cap >= 0 && |s.goroutines| == 0 && s.status.Keys == {} && |s.latencies| == 0 && s.dispatcher == Waking
    requires s.sent == s.done == s.inflight == s.netErr == s.limiter == s.admission == s.capped == s.cappedErrs == 0
    ensures Inv(s)
  {
  }

  lemma InitIsInv(rate: real)
    ensures Inv(Init(rate))
  {
    IdleIsInv(Init(rate));
  }

  /** What replacing one goroutine does to the counts. */
  lemma MoveCounts(gs: seq<Goroutine>, i: nat, g: Goroutine)
    requires i < |gs|
    ensures forall k :: Count(gs[i := g], k) + One(k, gs[i]) == Count(gs, k) + One(k, g)
  {
    forall k ensures Count(gs[i := g], k) + One(k, gs[i]) == Count(gs, k) + One(k, g) {
      CountUpdate(gs, i, g, k);
    }
  }

  /** One goroutine goes from `g` to `h`, and every counter moves by what that changes. */
  ghost predicate Accounted(s: State, t: State, i: nat, g: Goroutine, h: Goroutine) {
    && i < |s.goroutines| && s.goroutines[i] == g && t.goroutines == s.goroutines[i := h] && Shaped(h)
    && t.cap == s.cap && t.sent == s.sent && t.dispatcher == s.dispatcher
    && t.capped == s.capped && t.cappedErrs == s.cappedErrs
    && t.done + One(Finished, g) == s.done + One(Finished, h)
    && t.netErr + One(Erred, g) == s.netErr + One(Erred, h)
    && t.inflight + One(Flying, g) == s.inflight + One(Flying, h)
    && |t.latencies| + One(Logged, g) == |s.latencies| + One(Logged, h)
    && t.limiter + One(Limited, g) == s.limiter + One(Limited, h)
    && t.admission + One(Admitted, g) == s.admission + One(Admitted, h)
    && One(Flying, h) <= One(Flying, g)
    && (g.stage == Gone ==> h.stage == Gone)
    && if One(Counted, g) == One(Counted, h)
       then t.status == s.status && forall c :: One(CountedAs(c), g) == One(CountedAs(c), h)
       else t.status == Bump(s.status, g.code) && h.code == g.code && One(Counted, h) == 1
  }

  lemma EarlyStepIsAccounted(s: State, i: nat, ms: real)
    requires i < |s.goroutines| && Shaped(s.goroutines[i]) && 1 <= Rank(s.goroutines[i].stage) <= 2
    ensures var t := GoStep(s, i, ms); Accounted(s, t, i, s.goroutines[i], t.goroutines[i])
  {
  }

  lemma MiddleStepIsAccounted(s: State, i: nat, ms: real)
    requires i < |s.goroutines| && Shaped(s.goroutines[i]) && 3 <= Rank(s.goroutines[i].stage) <= 4
    ensures var t := GoStep(s, i, ms); Accounted(s, t, i, s.goroutines[i], t.goroutines[i])
  {
  }

  lemma LateStepIsAccounted(s: State, i: nat, ms: real)
    requires i < |s.goroutines| && Shaped(s.goroutines[i]) && 5 <= Rank(s.goroutines[i].stage) <= 7
    ensures var t := GoStep(s, i, ms); Accounted(s, t, i, s.goroutines[i], t.goroutines[i])
  {
  }

  lemma GoIsAccounted(s: State, i: nat, ms: real)
    requires i < |s.goroutines| && Shaped(s.goroutines[i])
    ensures var t := GoStep(s, i, ms);
            t == s || Accounted(s, t, i, s.goroutines[i], t.goroutines[i])
  {
    var r := Rank(s.goroutines[i].stage);
    if 1 <= r <= 2 {
      EarlyStepIsAccounted(s, i, ms);
    } else if 3 <= r <= 4 {
      MiddleStepIsAccounted(s, i, ms);
    } else if 5 <= r <= 7 {
      LateStepIsAccounted(s, i, ms);
    }
  }

  lemma AnswerIsAccounted(s: State, i: nat, failed: bool, code: int, capacity: bool)
    requires i < |s.goroutines| && s.goroutines[i].stage == Firing && Shaped(s.goroutines[i])
    ensures var t := Step(s, Answer(i, failed, code, capacity));
            Accounted(s, t, i, s.goroutines[i], t.goroutines[i])
  {
  }

  lemma AccountedKeepsTallies(s: State, t: State, i: nat, g: Goroutine, h: Goroutine)
    requires Tallies(s) && Accounted(s, t, i, g, h)
    ensures Tallies(t)
  {
    MoveCounts(s.goroutines, i, h);
    TotalBump(s.status, g.code);
  }

  lemma AccountedKeepsCodes(s: State, t: State, i: nat, g: Goroutine, h: Goroutine)
    requires Codes(s) && Accounted(s, t, i, g, h)
    ensures Codes(t)
  {
    forall c ensures Get(t.status, c) == Count(t.goroutines, CountedAs(c)) + (if c == 0 then t.capped else 0) {
      CountUpdate(s.goroutines, i, h, CountedAs(c));
    }
  }

  lemma AccountedKeepsDispatching(s: State, t: State, i: nat, g: Goroutine, h: Goroutine)
    requires Dispatching(s) && Accounted(s, t, i, g, h)
    ensures Dispatching(t)
  {
    CountUpdate(s.goroutines, i, h, Flying);
  }

  lemma AccountedKeepsInv(s: State, t: State, i: nat, g: Goroutine, h: Goroutine)
    requires Inv(s) && Accounted(s, t, i, g, h)
    ensures Inv(t)
  {
    AccountedKeepsTallies(s, t, i, g, h);
    AccountedKeepsCodes(s, t, i, g, h);
    AccountedKeepsDispatching(s, t, i, g, h);
  }

  lemma SpawnCounts(gs: seq<Goroutine>, g: Goroutine)
    requires g == Goroutine(Firing, false, 0, false)
    ensures forall k :: Count(gs + [g], k) == Count(gs, k) + (if k == Flying then 1 else 0)
  {
    forall k ensures Count(gs + [g], k) == Count(gs, k) + (if k == Flying then 1 else 0) {
      CountSnoc(gs, g, k);
    }
  }

  lemma CapCountKeepsInv(s: State)
    requires Inv(s) && s.dispatcher == CapCounting
    ensures Inv(Dispatched(s))
  {
    TotalBump(s.status, 0);
    assert Codes(Dispatched(s));
  }

  lemma SpawnKeepsInv(s: State)
    requires Inv(s) && s.dispatcher == Spawning
    ensures Inv(Dispatched(s))
  {
    var t := Dispatched(s);
    SpawnCounts(s.goroutines, Goroutine(Firing, false, 0, false));
    assert Tallies(t);
    assert Codes(t) by {
      assert forall c :: Count(t.goroutines, CountedAs(c)) == Count(s.goroutines, CountedAs(c));
    }
  }

  lemma DispatchKeepsInv(s: State)
    requires Inv(s)
    ensures Inv(Dispatched(s))
  {
    if s.dispatcher == CapCounting {
      CapCountKeepsInv(s);
    } else if s.dispatcher == Spawning {
      SpawnKeepsInv(s);
    }
  }

  lemma StepKeepsInv(s: State, e: Event)
    requires Inv(s)
    ensures Inv(Step(s, e))
  {
    match e
    case Tick =>
    case Made(_) =>
    case Dispatch => DispatchKeepsInv(s);
    case Stop =>
    case Answer(i, failed, code, capacity) =>
      if i < |s.goroutines| && s.goroutines[i].stage == Firing {
        AnswerIsAccounted(s, i, failed, code, capacity);
        AccountedKeepsInv(s, Step(s, e), i, s.goroutines[i], Step(s, e).goroutines[i]);
      }
    case Go(i, ms) =>
      if i < |s.goroutines| {
        GoIsAccounted(s, i, ms);
        if Step(s, e) != s {
          AccountedKeepsInv(s, Step(s, e), i, s.goroutines[i], Step(s, e).goroutines[i]);
        }
      }
  }

  lemma {:induction false} RunKeepsInv(s: State, es: seq<Event>)
    requires Inv(s)
    ensures Inv(Run(s, es))
    decreases |es|
  {
    if es != [] {
      StepKeepsInv(s, es[0]);
      RunKeepsInv(Step(s, es[0]), es[1..]);
    }
  }

  /** In every interleaving the requests in flight stay within the cap: only the dispatcher admits. */
  lemma InFlightStaysWithinCap(rate: real, es: seq<Event>)
    ensures var t := Run(Init(rate), es);
            && 0 <= t.inflight <= t.cap
            && t.cap >= 64 && t.cap as real > 4.0 * rate - 1.0
            && (t.cap > 64 ==> t.cap as real <= 4.0 * rate)
  {
    InitIsInv(rate);
    RunKeepsInv(Init(rate), es);
    CapIsConstant(Init(rate), es);
  }

  lemma {:induction false} CapIsConstant(s: State, es: seq<Event>)
    ensures Run(s, es).cap == s.cap
    decreases |es|
  {
    if es != [] {
      CapIsConstant(Step(s, es[0]), es[1..]);
    }
  }

  lemma ReturnedTallies(s: State)
    requires Inv(s) && s.dispatcher == Returned
    ensures Count(s.goroutines, Counted) == |s.goroutines|
    ensures Count(s.goroutines, Erred) + Count(s.goroutines, Finished) == |s.goroutines|
    ensures Count(s.goroutines, Finished) == Count(s.goroutines, Logged)
    ensures Count(s.goroutines, Flying) == 0
  {
    CountAll(s.goroutines, Counted);
    CountSplits(s.goroutines, Counted, Flying);
    CountSplits(s.goroutines, Erred, Finished);
    CountAgrees(s.goroutines, Finished, Logged);
  }

  /**
   * When the generator returns, whatever the interleaving: nothing is in flight, every request sent
   * and every tick skipped has exactly one status, answers and errors add up to them, there is one
   * latency an answer, every 429 went through the door its body names, and no code was counted more
   * often than requests were sent, code 0 apart.
   */
  lemma ReturnConserves(rate: real, es: seq<Event>)
    requires Run(Init(rate), es).dispatcher == Returned
    ensures var t := Run(Init(rate), es);
            && t.inflight == 0
            && Total(t.status) == t.sent + t.capped
            && t.done + t.netErr == Total(t.status)
            && t.done == |t.latencies|
            && (forall c :: c != 0 ==> Get(t.status, c) <= t.sent)
            && t.limiter + t.admission == Get(t.status, 429)
            && t.admission == Count(t.goroutines, Admitted)
  {
    InitIsInv(rate);
    RunKeepsInv(Init(rate), es);
    var t := Run(Init(rate), es);
    ReturnedTallies(t);
    forall c | c != 0 ensures Get(t.status, c) <= t.sent {
      CountBound(t.goroutines, CountedAs(c));
    }
    DoorsAddUp(t.goroutines);
    CountAgrees(t.goroutines, Doored, CountedAs(429));
  }

  // The counters against the history.

  predicate Hears(s: State, e: Event) {
    e.Answer? && e.i < |s.goroutines| && s.goroutines[e.i].stage == Firing
  }

  /** The answers of a run that say `w`: one for each request that was waiting for it. */
  function Heard(s: State, es: seq<Event>, w: Said): nat
    decreases |es|
  {
    if es == [] then 0
    else
      Heard(Step(s, es[0]), es[1..], w) +
      (if Hears(s, es[0]) && Says(w, es[0].failed, es[0].code, es[0].capacity) then 1 else 0)
  }

  /** The ticks of a run that found as many requests in flight as the cap allows. */
  function Skips(s: State, es: seq<Event>): nat
    decreases |es|
  {
    if es == [] then 0
    else
      Skips(Step(s, es[0]), es[1..]) +
      (if es[0].Tick? && s.dispatcher == Waking && s.inflight >= s.cap then 1 else 0)
  }

  /** Ticks skipped so far, the one still being booked included. */
  function Skipped(s: State): int {
    s.capped + (if s.dispatcher == CapErring || s.dispatcher == CapCounting then 1 else 0)
  }

  /** Every goroutine keeps the answer it got. */
  lemma GoKeepsAnswer(s: State, i: nat, ms: real, w: Said)
    requires i < |s.goroutines|
    ensures var t := GoStep(s, i, ms);
            |t.goroutines| == |s.goroutines| && Count(t.goroutines, Told(w)) == Count(s.goroutines, Told(w))
  {
    var stage := GoMovesOn(s, i, ms);
    CountUpdate(s.goroutines, i, s.goroutines[i].(stage := stage), Told(w));
    assert s.goroutines[i := s.goroutines[i]] == s.goroutines;
  }

  lemma GoMovesOn(s: State, i: nat, ms: real) returns (stage: Stage)
    requires i < |s.goroutines|
    ensures Rank(stage) >= 1 <==> Rank(s.goroutines[i].stage) >= 1
    ensures GoStep(s, i, ms).goroutines == s.goroutines[i := s.goroutines[i].(stage := stage)]
  {
    var t := GoStep(s, i, ms);
    stage := t.goroutines[i].stage;
  }

  lemma AnswerIsTold(s: State, e: Event, w: Said)
    requires Hears(s, e)
    ensures Count(Step(s, e).goroutines, Told(w)) ==
            Count(s.goroutines, Told(w)) + (if Says(w, e.failed, e.code, e.capacity) then 1 else 0)
  {
    CountUpdate(s.goroutines, e.i, Step(s, e).goroutines[e.i], Told(w));
  }

  lemma StepIsTold(s: State, e: Event, w: Said)
    ensures Count(Step(s, e).goroutines, Told(w)) ==
            Count(s.goroutines, Told(w)) + (if Hears(s, e) && Says(w, e.failed, e.code, e.capacity) then 1 else 0)
  {
    match e
    case Answer(_, _, _, _) =>
      if Hears(s, e) {
        AnswerIsTold(s, e, w);
      }
    case Go(i, ms) =>
      if i < |s.goroutines| {
        GoKeepsAnswer(s, i, ms, w);
      }
    case Dispatch =>
      if s.dispatcher == Spawning {
        CountSnoc(s.goroutines, Goroutine(Firing, false, 0, false), Told(w));
      }
    case Tick =>
    case Made(_) =>
    case Stop =>
  }

  lemma {:induction false} RunIsTold(s: State, es: seq<Event>, w: Said)
    ensures Count(Run(s, es).goroutines, Told(w)) == Count(s.goroutines, Told(w)) + Heard(s, es, w)
    decreases |es|
  {
    if es != [] {
      StepIsTold(s, es[0], w);
      RunIsTold(Step(s, es[0]), es[1..], w);
    }
  }

  lemma StepSkips(s: State, e: Event)
    ensures Skipped(Step(s, e)) ==
            Skipped(s) + (if e.Tick? && s.dispatcher == Waking && s.inflight >= s.cap then 1 else 0)
  {
  }

  lemma {:induction false} RunSkips(s: State, es: seq<Event>)
    ensures Skipped(Run(s, es)) == Skipped(s) + Skips(s, es)
    decreases |es|
  {
    if es != [] {
      StepSkips(s, es[0]);
      RunSkips(Step(s, es[0]), es[1..]);
    }
  }

  /** The times measured in a run, as the goroutines log them. */
  function Timed(s: State, es: seq<Event>): seq<real>
    decreases |es|
  {
    if es == [] then []
    else
      var e := es[0];
      (if e.Go? && e.i < |s.goroutines| && s.goroutines[e.i].stage == Logging then [e.ms] else []) +
      Timed(Step(s, e), es[1..])
  }

  /** The latencies of the report are the times measured, in order, none lost between the goroutines. */
  lemma {:induction false} LatenciesAreTimed(s: State, es: seq<Event>)
    ensures Run(s, es).latencies == s.latencies + Timed(s, es)
    decreases |es|
  {
    if es != [] {
      LatenciesAreTimed(Step(s, es[0]), es[1..]);
      assert Step(s, es[0]).latencies <= s.latencies + Timed(s, es);
    }
  }

  /** With every request over, what is counted is what was told. */
  lemma CountedIsTold(s: State)
    requires Inv(s) && s.dispatcher == Returned
    ensures Count(s.goroutines, Told(Anything)) == |s.goroutines|
    ensures Count(s.goroutines, Erred) == Count(s.goroutines, Told(Silence))
    ensures Count(s.goroutines, Finished) == Count(s.goroutines, Told(Response))
  {
    var gs := s.goroutines;
    CountAll(gs, Told(Anything));
    CountAgrees(gs, Erred, Told(Silence));
    CountAgrees(gs, Finished, Told(Response));
  }

  lemma CodesAreTold(s: State)
    requires Inv(s) && s.dispatcher == Returned
    ensures forall c :: Count(s.goroutines, CountedAs(c)) == Count(s.goroutines, Told(Code(c)))
  {
    forall c ensures Count(s.goroutines, CountedAs(c)) == Count(s.goroutines, Told(Code(c))) {
      CountAgrees(s.goroutines, CountedAs(c), Told(Code(c)));
    }
  }

  lemma DoorsAreTold(s: State)
    requires Inv(s) && s.dispatcher == Returned
    ensures Count(s.goroutines, Limited) == Count(s.goroutines, Told(LimiterDoor))
    ensures Count(s.goroutines, Admitted) == Count(s.goroutines, Told(AdmissionDoor))
  {
    CountAgrees(s.goroutines, Limited, Told(LimiterDoor));
    CountAgrees(s.goroutines, Admitted, Told(AdmissionDoor));
  }

  /**
   * The report of a returned run against its history: every request sent was answered once, each
   * code is counted as often as an answer carried it, code 0 as often as there was no answer or
   * the tick was skipped, and each door as often as a 429 named it.
   */
  lemma ReportMatchesHistory(rate: real, es: seq<Event>)
    requires Run(Init(rate), es).dispatcher == Returned
    ensures var s, t := Init(rate), Run(Init(rate), es);
            && t.sent == Heard(s, es, Anything)
            && (forall c :: Get(t.status, c) == Heard(s, es, Code(c)) + (if c == 0 then Skips(s, es) else 0))
            && t.limiter == Heard(s, es, LimiterDoor) && t.admission == Heard(s, es, AdmissionDoor)
            && t.netErr == Heard(s, es, Silence) + Skips(s, es)
            && t.done == Heard(s, es, Response)
  {
    var s, t := Init(rate), Run(Init(rate), es);
    InitIsInv(rate);
    RunKeepsInv(s, es);
    CountedIsTold(t);
    CodesAreTold(t);
    DoorsAreTold(t);
    RunSkips(s, es);
    forall w ensures Count(t.goroutines, Told(w)) == Heard(s, es, w) {
      RunIsTold(s, es, w);
    }
  }

  // The generator can always return.

  /** The steps the goroutines still have before them. */
  function StepsLeft(gs: seq<Goroutine>): nat {
    if gs == [] then 0 else StepsLeft(gs[..|gs| - 1]) + (8 - Rank(gs[|gs| - 1].stage))
  }

  lemma {:induction false} StepsLeftUpdate(gs: seq<Goroutine>, i: nat, g: Goroutine)
    requires i < |gs|
    ensures StepsLeft(gs[i := g]) + (8 - Rank(gs[i].stage)) == StepsLeft(gs) + (8 - Rank(g.stage))
    decreases |gs|
  {
    var n := |gs| - 1;
    if i < n {
      StepsLeftUpdate(gs[..n], i, g);
      assert gs[i := g][..n] == gs[..n][i := g];
    } else {
      assert gs[i := g][..n] == gs[..n];
    }
  }

  lemma RunStep(s: State, e: Event, es: seq<Event>)
    ensures Run(s, [e] + es) == Run(Step(s, e), es)
  {
    assert ([e] + es)[1..] == es;
  }

  /** A goroutine that is not over can go on: with no answer, or through its counters. */
  lemma GoroutineGoesOn(s: State, i: nat) returns (e: Event)
    requires s.dispatcher == Draining && i < |s.goroutines| && s.goroutines[i].stage != Gone
    ensures Step(s, e).dispatcher == Draining && StepsLeft(Step(s, e).goroutines) < StepsLeft(s.goroutines)
  {
    e := if s.goroutines[i].stage == Firing then Answer(i, true, 0, false) else Go(i, 0.0);
    var gs := Step(s, e).goroutines;
    assert gs == s.goroutines[i := gs[i]];
    StepsLeftUpdate(s.goroutines, i, gs[i]);
  }

  lemma {:induction false} DrainingReturns(s: State) returns (es: seq<Event>)
    requires s.dispatcher == Draining
    ensures Run(s, es).dispatcher == Returned
    decreases StepsLeft(s.goroutines)
  {
    if i: nat :| i < |s.goroutines| && s.goroutines[i].stage != Gone {
      var e := GoroutineGoesOn(s, i);
      var rest := DrainingReturns(Step(s, e));
      RunStep(s, e, rest);
      es := [e] + rest;
    } else {
      RunStep(s, Dispatch, []);
      es := [Dispatch] + [];
    }
  }

  /** How far the dispatcher is from draining. */
  function TickLeft(d: Dispatcher): nat {
    match d
    case Sending => 4
    case Admitting => 3
    case Spawning => 2
    case CapErring => 3
    case CapCounting => 2
    case Making => 2
    case _ => 1
  }

  /** From every state there is a way on to a return: no counter, cap or goroutine can block it for good. */
  lemma {:induction false} CanAlwaysReturn(s: State) returns (es: seq<Event>)
    ensures Run(s, es).dispatcher == Returned
    decreases TickLeft(s.dispatcher)
  {
    if s.dispatcher == Returned {
      es := [];
    } else if s.dispatcher == Draining {
      es := DrainingReturns(s);
    } else {
      var e := if s.dispatcher == Waking then Stop else if s.dispatcher == Making then Made(false) else Dispatch;
      var t := Step(s, e);
      var rest;
      if t.dispatcher == Draining {
        rest := DrainingReturns(t);
      } else {
        rest := CanAlwaysReturn(t);
      }
      RunStep(s, e, rest);
      es := [e] + rest;
    }
  }
}
