/**
 * Crash safety of the boot schema (restart.go, app.go): any number of persists that take no lock,
 * interleaved step by step, a crash between any two steps, and boots that can crash too. A boot
 * loads the schema, clears the marker, and only then runs the checks that can still refuse it.
 */
module BootRuns {
  import opened Hosts
  import opened BootSchema

  /**
   * `valid` is the gate a persist and a load share. `starts` is what a boot asks of the schema after
   * it has cleared the marker: configured roles, route registrations, grants.
   */
  datatype Gates = Gates(valid: string -> bool, starts: string -> bool)

  /** Where a persist (first five) or a boot (the others) stands. */
  datatype Actor =
    | Validated(raw: string)
    | HasCurrent(raw: string, cur: string)
    | BackedUp(raw: string)
    | Marked(raw: string)
    | Undoing
    | Loading
    | LoadFailed
    | SawMarker
    | HasBackup(bak: string)
    | Restored
    | Reloading
    | Clearing(content: string)
    | Starting(content: string)

  /**
   * `known` holds the first boot schema and every schema a persist accepted. `failures` counts
   * boots whose load failed loud, `restoreErrors` those whose restore write failed, `refused` lists
   * the schemas refused after the load, `outages` counts boots stopped by the outside world.
   */
  datatype World = World(
    files: Files, up: bool, actors: map<nat, Actor>,
    known: set<string>, booted: seq<string>, failures: nat, restoreErrors: nat, refused: seq<string>, outages: nat)

  /**
   * `Launch` starts the process, `Rebuild` is the `New` a fleet edit runs beside the old instance,
   * `Corrupt` damages the schema while the process is down and a self-restart is under way.
   */
  datatype Event =
    | Submit(id: nat, raw: string)
    | Launch(id: nat)
    | Rebuild(id: nat)
    | Advance(id: nat, ok: bool, torn: bool)
    | Crash
    | Corrupt(content: Option<string>)

  datatype Effect = Quiet | Booted(content: string) | BootFailed(restoreError: bool) | Refused(content: string) | Outage

  datatype Local = Local(files: Files, next: Option<Actor>, effect: Effect)

  /** One atomic step of one actor. `ok` is the outcome of its write or removal. */
  function LocalStep(g: Gates, f: Files, a: Actor, ok: bool, torn: bool): Local {
    match a
    case Validated(raw) =>
      if f.schema.Some? then Local(f, Some(HasCurrent(raw, f.schema.value)), Quiet) else Local(f, None, Quiet)
    case HasCurrent(raw, cur) =>
      if ok then Local(f.(backup := Some(cur)), Some(BackedUp(raw)), Quiet) else Local(f, None, Quiet)
    case BackedUp(raw) =>
      if ok then Local(f.(marker := true), Some(Marked(raw)), Quiet)
      else Local(f.(marker := f.marker || torn), None, Quiet)
    case Marked(raw) =>
      if ok then Local(f.(schema := Some(raw)), None, Quiet) else Local(f, Some(Undoing), Quiet)
    case Undoing => Local(f.(marker := f.marker && !ok), None, Quiet)
    case Loading => Local(f, Some(if Loads(g.valid, f.schema) then Clearing(f.schema.value) else LoadFailed), Quiet)
    case LoadFailed => if f.marker then Local(f, Some(SawMarker), Quiet) else Local(f, None, BootFailed(false))
    case SawMarker =>
      if f.backup.Some? then Local(f, Some(HasBackup(f.backup.value)), Quiet) else Local(f, None, BootFailed(false))
    case HasBackup(bak) =>
      if ok then Local(f.(schema := Some(bak)), Some(Restored), Quiet) else Local(f, None, BootFailed(true))
    case Restored => Local(f.(marker := f.marker && !ok), Some(Reloading), Quiet)
    case Reloading =>
      if Loads(g.valid, f.schema) then Local(f, Some(Clearing(f.schema.value)), Quiet)
          else Local(f, None, BootFailed(false))
    case Clearing(content) => Local(f.(marker := f.marker && !ok), Some(Starting(content)), Quiet)
    case Starting(content) =>
      Local(f, None, if !ok then Outage else if g.starts(content) then Booted(content) else Refused(content))
  }

  function Step(g: Gates, w: World, e: Event): World {
    match e
    case Submit(id, raw) =>
      if w.up && id !in w.actors && g.valid(raw)
      then w.(actors := w.actors[id := Validated(raw)], known := w.known + {raw}) else w
    case Launch(id) => if !w.up && w.actors == map[] then w.(actors := map[id := Loading]) else w
    case Rebuild(id) => if w.up && id !in w.actors then w.(actors := w.actors[id := Loading]) else w
    case Advance(id, ok, torn) =>
      if id in w.actors then Moved(w, id, LocalStep(g, w.files, w.actors[id], ok, torn)) else w
    case Crash => w.(up := false, actors := map[])
    case Corrupt(c) =>
      if !w.up && w.actors == map[] && w.files.marker && !Loads(g.valid, c)
      then w.(files := w.files.(schema := c)) else w
  }

  function Moved(w: World, id: nat, l: Local): World {
    w.(files := l.files,
       actors := if l.next.Some? then w.actors[id := l.next.value] else w.actors - {id},
       up := w.up || l.effect.Booted?,
       booted := w.booted + (if l.effect.Booted? then [l.effect.content] else []),
       failures := w.failures + (if l.effect.BootFailed? then 1 else 0),
       restoreErrors := w.restoreErrors + (if l.effect.BootFailed? && l.effect.restoreError then 1 else 0),
       refused := w.refused + (if l.effect.Refused? then [l.effect.content] else []),
       outages := w.outages + (if l.effect.Outage? then 1 else 0))
  }

  function Run(g: Gates, w: World, es: seq<Event>): World
    decreases |es|
  {
    if es == [] then w else Run(g, Step(g, w, es[0]), es[1..])
  }

  // The invariant.

  /** Loadable, and wholly the first schema or one a persist accepted. */
  predicate Good(valid: string -> bool, known: set<string>, c: Option<string>) {
    Loads(valid, c) && c.value in known
  }

  predicate ActorOk(valid: string -> bool, known: set<string>, up: bool, f: Files, a: Actor) {
    match a
    case Validated(raw) => up && Good(valid, known, Some(raw))
    case HasCurrent(raw, cur) => up && Good(valid, known, Some(raw)) && Good(valid, known, Some(cur))
    case BackedUp(raw) => up && Good(valid, known, Some(raw)) && Good(valid, known, f.backup)
    case Marked(raw) => up && Good(valid, known, Some(raw))
    case Undoing => up
    case Loading => true
    case LoadFailed => !up && f.marker
    case SawMarker => !up && f.marker
    case HasBackup(bak) => !up && f.marker && Good(valid, known, Some(bak))
    case Restored => !up && Good(valid, known, f.schema)
    case Reloading => !up && Good(valid, known, f.schema)
    case Clearing(content) => Good(valid, known, f.schema) && Good(valid, known, Some(content))
    case Starting(content) => Good(valid, known, f.schema) && Good(valid, known, Some(content))
  }

  ghost predicate FilesOk(valid: string -> bool, known: set<string>, up: bool, f: Files) {
    && (Good(valid, known, f.schema) || (!up && f.marker && !Loads(valid, f.schema)))
    && (f.marker ==> Good(valid, known, f.backup))
  }

  ghost predicate Alone(w: World) {
    forall i, j :: i in w.actors && j in w.actors ==> i == j
  }

  ghost predicate Inv(g: Gates, w: World) {
    && FilesOk(g.valid, w.known, w.up, w.files)
    && (forall id :: id in w.actors ==> ActorOk(g.valid, w.known, w.up, w.files, w.actors[id]))
    && (!w.up ==> Alone(w))
    && (forall i :: 0 <= i < |w.booted| ==> Good(g.valid, w.known, Some(w.booted[i])) && g.starts(w.booted[i]))
    && (forall i :: 0 <= i < |w.refused| ==> Good(g.valid, w.known, Some(w.refused[i])) && !g.starts(w.refused[i]))
    && w.failures == w.restoreErrors
  }

  /** A machine that was given one loadable schema and no marker. */
  ghost predicate Fresh(g: Gates, w: World) {
    && Loads(g.valid, w.files.schema) && !w.files.marker && w.known == {w.files.schema.value}
    && !w.up && w.actors == map[] && w.booted == [] && w.failures == 0 && w.restoreErrors == 0 && w.refused == []
  }

  lemma FreshIsInv(g: Gates, w: World)
    requires Fresh(g, w)
    ensures Inv(g, w)
  {
  }

  /** A step of one actor keeps the files and that actor in order, and reports only true boots. */
  lemma LocalStepKeeps(g: Gates, known: set<string>, up: bool, f: Files, a: Actor, ok: bool, torn: bool)
    requires FilesOk(g.valid, known, up, f) && ActorOk(g.valid, known, up, f, a)
    ensures var l := LocalStep(g, f, a, ok, torn);
            var up' := up || l.effect.Booted?;
            && FilesOk(g.valid, known, up', l.files)
            && (l.next.Some? ==> ActorOk(g.valid, known, up', l.files, l.next.value))
            && (l.effect.Booted? ==> Good(g.valid, known, Some(l.effect.content)) && g.starts(l.effect.content))
            && (l.effect.Refused? ==> Good(g.valid, known, Some(l.effect.content)) && !g.starts(l.effect.content))
            && (l.effect.BootFailed? ==> l.effect.restoreError)
  {
  }

  /** While the process is up, a step of one actor leaves every other actor in order. */
  lemma LocalStepSparesOthers(g: Gates, known: set<string>, f: Files, a: Actor, ok: bool, torn: bool, b: Actor)
    requires FilesOk(g.valid, known, true, f)
    requires ActorOk(g.valid, known, true, f, a) && ActorOk(g.valid, known, true, f, b)
    ensures ActorOk(g.valid, known, true, LocalStep(g, f, a, ok, torn).files, b)
  {
  }

  lemma AdvanceKeepsInv(g: Gates, w: World, id: nat, ok: bool, torn: bool)
    requires Inv(g, w) && id in w.actors
    ensures Inv(g, Step(g, w, Advance(id, ok, torn)))
  {
    var t := Step(g, w, Advance(id, ok, torn));
    LocalStepKeeps(g, w.known, w.up, w.files, w.actors[id], ok, torn);
    forall k | k in t.actors ensures ActorOk(g.valid, t.known, t.up, t.files, t.actors[k]) {
      if k != id {
        assert k in w.actors && w.up;
        LocalStepSparesOthers(g, w.known, w.files, w.actors[id], ok, torn, w.actors[k]);
      }
    }
  }

  lemma GoodGrows(valid: string -> bool, known: set<string>, more: set<string>, up: bool, f: Files, a: Actor)
    requires known <= more && ActorOk(valid, known, up, f, a)
    ensures ActorOk(valid, more, up, f, a)
  {
  }

  lemma StepKeepsInv(g: Gates, w: World, e: Event)
    requires Inv(g, w)
    ensures Inv(g, Step(g, w, e))
  {
    match e
    case Submit(id, raw) =>
      var t := Step(g, w, e);
      forall k | k in t.actors ensures ActorOk(g.valid, t.known, t.up, t.files, t.actors[k]) {
        if k in w.actors {
          GoodGrows(g.valid, w.known, t.known, w.up, w.files, w.actors[k]);
        }
      }
    case Advance(id, ok, torn) =>
      if id in w.actors {
        AdvanceKeepsInv(g, w, id, ok, torn);
      }
    case Launch(_) =>
    case Rebuild(_) =>
    case Crash =>
    case Corrupt(_) =>
  }

  /** The invariant holds after every run, however persists, boots and crashes interleave. */
  lemma {:induction false} RunKeepsInv(g: Gates, w: World, es: seq<Event>)
    requires Inv(g, w)
    ensures Inv(g, Run(g, w, es))
    decreases |es|
  {
    if es != [] {
      StepKeepsInv(g, w, es[0]);
      RunKeepsInv(g, Step(g, w, es[0]), es[1..]);
    }
  }

  // A boot alone.

  /** What one boot meets: the outcomes of its load, and whether databases and ports are there. */
  datatype StartIo = StartIo(load: BootIo, reachable: bool)

  function OutcomeFor(a: Actor, io: StartIo): bool {
    match a
    case HasBackup(_) => io.load.restoreOk
    case Restored => io.load.removeOk
    case Starting(_) => io.reachable
    case _ => io.load.clearOk
  }

  /** `n` steps of the boot `id`. */
  function Drive(g: Gates, w: World, id: nat, io: StartIo, n: nat): World
    decreases n
  {
    if n == 0 || id !in w.actors then w
    else Drive(g, Step(g, w, Advance(id, OutcomeFor(w.actors[id], io), false)), id, io, n - 1)
  }

  /** The same steps on the files alone: at most `n` more after this one. */
  function Play(g: Gates, f: Files, a: Actor, io: StartIo, n: nat): Local
    decreases n
  {
    var l := LocalStep(g, f, a, OutcomeFor(a, io), false);
    if n == 0 || l.next.None? then l else Play(g, l.files, l.next.value, io, n - 1)
  }

  /** The world after a boot that ended with `l`. */
  ghost predicate Ends(w: World, t: World, l: Local) {
    && t.files == l.files && t.actors == map[] && t.known == w.known
    && t.up == (w.up || l.effect.Booted?)
    && t.booted == w.booted + (if l.effect.Booted? then [l.effect.content] else [])
    && t.refused == w.refused + (if l.effect.Refused? then [l.effect.content] else [])
  }

  lemma {:induction false} DriveIsPlay(g: Gates, w: World, id: nat, a: Actor, io: StartIo, n: nat)
    requires w.actors == map[id := a] && Play(g, w.files, a, io, n).next.None?
    ensures Ends(w, Drive(g, w, id, io, n + 1), Play(g, w.files, a, io, n))
    decreases n
  {
    var l := LocalStep(g, w.files, a, OutcomeFor(a, io), false);
    var w1 := Moved(w, id, l);
    assert Drive(g, w, id, io, n + 1) == Drive(g, w1, id, io, n);
    if l.next.Some? {
      assert w1.actors == map[id := l.next.value];
      assert n > 0 && l.effect == Quiet;
      DriveIsPlay(g, w1, id, l.next.value, io, n - 1);
    } else {
      assert w1.actors == map[];
    }
  }

  /** What the checks after the load make of a schema. */
  function Verdict(g: Gates, content: string, reachable: bool): Effect {
    if !reachable then Outage else if g.starts(content) then Booted(content) else Refused(content)
  }

  lemma PlayEnds(g: Gates, f: Files, content: string, io: StartIo, n: nat)
    requires n > 0
    ensures Play(g, f, Clearing(content), io, n) ==
            Local(f.(marker := f.marker && !io.load.clearOk), None, Verdict(g, content, io.reachable))
  {
    var h := f.(marker := f.marker && !io.load.clearOk);
    assert Play(g, f, Clearing(content), io, n) == Play(g, h, Starting(content), io, n - 1);
  }

  /** A played boot does to the files what `Boot` says of the load, and ends as the later checks say. */
  lemma PlayIsBoot(g: Gates, f: Files, io: StartIo)
    ensures var l, r := Play(g, f, Loading, io, 7), Boot(g.valid, f, io.load);
            && l.next.None? && l.files == r.files
            && (if r.booted.Some? then l.effect == Verdict(g, r.booted.value, io.reachable) else l.effect.BootFailed?)
  {
    if Loads(g.valid, f.schema) {
      PlayEnds(g, f, f.schema.value, io, 6);
    } else {
      assert Play(g, f, Loading, io, 7) == Play(g, f, LoadFailed, io, 6);
      if f.marker && f.backup.None? {
        assert Play(g, f, LoadFailed, io, 6) == Play(g, f, SawMarker, io, 5);
      } else if f.marker && f.backup.Some? {
        PlayRestores(g, f, io);
      }
    }
  }

  lemma PlayRestores(g: Gates, f: Files, io: StartIo)
    requires f.marker && f.backup.Some? && !Loads(g.valid, f.schema)
    ensures var l, r := Play(g, f, LoadFailed, io, 6), Boot(g.valid, f, io.load);
            && l.next.None? && l.files == r.files
            && (if r.booted.Some? then l.effect == Verdict(g, r.booted.value, io.reachable) else l.effect.BootFailed?)
  {
    var bak := f.backup.value;
    assert Play(g, f, LoadFailed, io, 6) == Play(g, f, SawMarker, io, 5) == Play(g, f, HasBackup(bak), io, 4);
    if io.load.restoreOk {
      var h := f.(schema := f.backup);
      var i := h.(marker := h.marker && !io.load.removeOk);
      assert Play(g, f, HasBackup(bak), io, 4) == Play(g, h, Restored, io, 3) == Play(g, i, Reloading, io, 2);
      if g.valid(bak) {
        PlayEnds(g, i, bak, io, 1);
      }
    }
  }

  /** The stepwise boot of a process that is down ends, within eight steps, as `Boot` and the later checks say. */
  lemma LoneBootRefines(g: Gates, w: World, id: nat, io: StartIo)
    requires !w.up && w.actors == map[id := Loading]
    ensures var t, r := Drive(g, w, id, io, 8), Boot(g.valid, w.files, io.load);
            && t.files == r.files && t.actors == map[] && t.known == w.known
            && t.up == (r.booted.Some? && io.reachable && g.starts(r.booted.value))
            && t.booted == w.booted + (if t.up then [r.booted.value] else [])
            && var turned := r.booted.Some? && io.reachable && !g.starts(r.booted.value);
               t.refused == w.refused + (if turned then [r.booted.value] else [])
  {
    PlayIsBoot(g, w.files, io);
    DriveIsPlay(g, w, id, Loading, io, 7);
  }

  /** One more start of a process that is down. */
  function Relaunch(g: Gates, w: World, id: nat, io: StartIo): World {
    Drive(g, Step(g, w, Launch(id)), id, io, 8)
  }

  /**
   * After any run from a fresh machine the process may crash and the schema may be damaged while a
   * self-restart is under way: the next boot whose restore write succeeds loads content that is
   * wholly the first boot schema or one a persist accepted. It comes up if and only if databases and
   * ports are there and that content passes the checks after the load; the marker is gone either way.
   */
  lemma NextBootLoadsAndComesUpIff(
    g: Gates, w: World, es: seq<Event>, damage: Option<string>, id: nat, io: StartIo)
    requires Fresh(g, w) && io.load.restoreOk
    ensures var t := Step(g, Step(g, Run(g, w, es), Crash), Corrupt(damage));
            var u, r := Relaunch(g, t, id, io), Boot(g.valid, t.files, io.load);
            && r.booted.Some? && Good(g.valid, t.known, r.booted) && u.files == r.files && u.files.schema == r.booted
            && (u.up <==> io.reachable && g.starts(r.booted.value))
            && u.booted == t.booted + (if u.up then [r.booted.value] else [])
            && (io.load.clearOk ==> !u.files.marker)
  {
    FreshIsInv(g, w);
    RunKeepsInv(g, w, es);
    var r := Run(g, w, es);
    StepKeepsInv(g, r, Crash);
    StepKeepsInv(g, Step(g, r, Crash), Corrupt(damage));
    var t := Step(g, Step(g, r, Crash), Corrupt(damage));
    LoneBootRefines(g, Step(g, t, Launch(id)), id, io);
  }

  /**
   * No load of any run fails loud except one whose restore write failed; every schema that came up
   * and every schema refused after the load was the first one or accepted by a persist, and the
   * refused ones are those the later checks do not pass.
   */
  lemma LoadsFailOnlyOnRestoreError(g: Gates, w: World, es: seq<Event>)
    requires Fresh(g, w)
    ensures var t := Run(g, w, es);
            && t.failures == t.restoreErrors
            && (forall i :: 0 <= i < |t.booted| ==> Good(g.valid, t.known, Some(t.booted[i])) && g.starts(t.booted[i]))
            && (forall i :: 0 <= i < |t.refused| ==>
                Good(g.valid, t.known, Some(t.refused[i])) && !g.starts(t.refused[i]))
  {
    FreshIsInv(g, w);
    RunKeepsInv(g, w, es);
  }

  // A deploy the later checks refuse.

  /** `n` starts in a row, each driven for `steps` steps. */
  function Restarted(g: Gates, w: World, id: nat, io: StartIo, steps: nat, n: nat): World
    decreases n
  {
    if n == 0 then w else Restarted(g, Drive(g, Step(g, w, Launch(id)), id, io, steps), id, io, steps, n - 1)
  }

  /** The process is down and its schema loads, but the later checks refuse it. */
  ghost predicate Unstartable(g: Gates, w: World) {
    !w.up && w.actors == map[] && Loads(g.valid, w.files.schema) && !g.starts(w.files.schema.value)
  }

  /** In `t` the process is still down, with the files of `w`, the marker gone if it was cleared. */
  ghost predicate StillDown(w: World, t: World, cleared: bool) {
    && !t.up && t.actors == map[] && t.booted == w.booted
    && t.files == w.files.(marker := w.files.marker && !cleared)
  }

  lemma OneRefusedStart(g: Gates, w: World, id: nat, io: StartIo, steps: nat)
    requires Unstartable(g, w) && io.load.clearOk && steps == 8
    ensures StillDown(w, Drive(g, Step(g, w, Launch(id)), id, io, steps), true)
  {
    LoneBootRefines(g, Step(g, w, Launch(id)), id, io);
  }

  lemma {:induction false} RefusedAgainAndAgain(g: Gates, w: World, id: nat, io: StartIo, steps: nat, n: nat)
    requires Unstartable(g, w)
    requires forall v :: Unstartable(g, v) ==> StillDown(v, Drive(g, Step(g, v, Launch(id)), id, io, steps), true)
    ensures StillDown(w, Restarted(g, w, id, io, steps, n), n > 0)
    decreases n
  {
    if n > 0 {
      RefusedAgainAndAgain(g, Drive(g, Step(g, w, Launch(id)), id, io, steps), id, io, steps, n - 1);
    }
  }

  /** A schema that loads and does not start keeps the process down, start after start, and clears the marker. */
  lemma RefusedSchemaStaysDown(g: Gates, w: World, id: nat, io: StartIo, steps: nat, n: nat)
    requires !w.up && w.actors == map[] && Loads(g.valid, w.files.schema) && !g.starts(w.files.schema.value)
    requires io.load.clearOk && steps == 8
    ensures var t := Restarted(g, w, id, io, steps, n);
            && !t.up && t.actors == map[] && t.booted == w.booted
            && t.files == w.files.(marker := w.files.marker && n == 0)
  {
    forall v | Unstartable(g, v) ensures StillDown(v, Drive(g, Step(g, v, Launch(id)), id, io, steps), true) {
      OneRefusedStart(g, v, id, io, steps);
    }
    RefusedAgainAndAgain(g, w, id, io, steps, n);
  }

  /** A persist that runs alone and succeeds. */
  function Deploy(g: Gates, w: World, id: nat, raw: string): World {
    var s1 := Step(g, w, Submit(id, raw));
    var s2 := Step(g, s1, Advance(id, true, false));
    var s3 := Step(g, s2, Advance(id, true, false));
    var s4 := Step(g, s3, Advance(id, true, false));
    Step(g, s4, Advance(id, true, false))
  }

  lemma DeployLeaves(g: Gates, w: World, id: nat, raw: string)
    requires Inv(g, w) && w.up && id !in w.actors && g.valid(raw)
    ensures var d := Deploy(g, w, id, raw);
            && d.up && d.actors == w.actors && d.booted == w.booted && d.refused == w.refused
            && d.files == Files(Some(raw), w.files.schema, true)
  {
    var s1 := Step(g, w, Submit(id, raw));
    assert s1.actors == w.actors[id := Validated(raw)];
    var s2 := Step(g, s1, Advance(id, true, false));
    var s3 := Step(g, s2, Advance(id, true, false));
    var s4 := Step(g, s3, Advance(id, true, false));
    assert s4.actors[id] == Marked(raw);
    var d := Step(g, s4, Advance(id, true, false));
    assert d.actors == w.actors;
  }

  /**
   * A running process persists a schema that passes the shared gate and not the later checks, and
   * restarts: the first boot clears the marker and is refused, the backup of the schema that ran is
   * never restored, and no number of starts brings the service back.
   */
  lemma RefusedDeployStaysDown(g: Gates, w: World, id: nat, raw: string, io: StartIo, n: nat)
    requires Inv(g, w) && w.up && id !in w.actors && g.valid(raw) && !g.starts(raw) && io.load.clearOk && n > 0
    ensures var t := Restarted(g, Step(g, Deploy(g, w, id, raw), Crash), id, io, 8, n);
            && !t.up && t.booted == w.booted
            && t.files == Files(Some(raw), w.files.schema, false)
  {
    DeployLeaves(g, w, id, raw);
    RefusedSchemaStaysDown(g, Step(g, Deploy(g, w, id, raw), Crash), id, io, 8, n);
  }

  // A marker that outlives its deploy.

  /**
   * A fleet deploy ends in a hot swap, which writes no file, so its marker stays. The next schema
   * that does not load, an edit by hand included, is then replaced in silence by the schema from
   * before the deploy; after a boot, which clears the marker, it fails loud.
   */
  lemma HotSwapLeavesMarker(g: Gates, w: World, id: nat, raw: string, edited: Option<string>, io: BootIo)
    requires Inv(g, w) && w.up && id !in w.actors && g.valid(raw)
    requires !Loads(g.valid, edited) && io.restoreOk
    ensures var d := Deploy(g, w, id, raw);
            && d.up && d.actors == w.actors
            && d.files == Files(Some(raw), w.files.schema, true)
            && Boot(g.valid, d.files.(schema := edited), io).booted == w.files.schema
            && Boot(g.valid, d.files.(schema := edited, marker := false), io).booted == None
  {
    DeployLeaves(g, w, id, raw);
  }

  /**
   * Persists share one marker: one whose schema write fails removes it, also when another has just
   * persisted. The invariant survives, the rollback window of the other does not.
   */
  lemma FailedPersistTakesSharedMarker(g: Gates, w: World, a: nat, b: nat, raw: string)
    requires Inv(g, w) && a != b && a in w.actors && b in w.actors
    requires w.actors[a] == Marked(raw) && w.actors[b].Marked?
    ensures var t := Run(g, w, [Advance(a, true, false), Advance(b, false, false), Advance(b, true, false)]);
            t.files == w.files.(schema := Some(raw), marker := false) && Inv(g, t)
  {
    var es := [Advance(a, true, false), Advance(b, false, false), Advance(b, true, false)];
    RunKeepsInv(g, w, es);
    var w1 := Step(g, w, es[0]);
    var w2 := Step(g, w1, es[1]);
    assert w2.actors[b] == Undoing;
    assert es[1..] == [es[1], es[2]] && es[1..][1..] == [es[2]];
    assert Run(g, w, es) == Run(g, w1, es[1..]) == Run(g, w2, [es[2]]) == Run(g, Step(g, w2, es[2]), []);
  }
}
