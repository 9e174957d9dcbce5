/**
 * Every interleaving of lock-free readers and copy-on-write writers of the registry. Maps are
 * heap cells; a writer fills a fresh cell entry by entry while it holds `writeMu`, a reader
 * probes the cell it loaded once, one probe a step.
 */
module RegistryRuns {
  import opened Text
  import opened Hosts
  import opened Registry

  datatype Mutation = Insert(names: seq<string>, app: CompiledApp) | Delete(names: seq<string>)

  /** The table after the first `i` names of a mutation. */
  function ApplyPrefix(mut: Mutation, m: Table, i: nat): Table
    requires i <= |mut.names|
  {
    match mut
    case Insert(names, app) => Put(m, names[..i], app)
    case Delete(names) => Drop(m, names[..i])
  }

  /** One name of a mutation. */
  function ApplyOne(mut: Mutation, m: Table, i: nat): Table
    requires i < |mut.names|
  {
    var d := Lower(mut.names[i]);
    if mut.Insert? then m[d := mut.app] else m - {d}
  }

  lemma ApplyPrefixExtends(mut: Mutation, m: Table, i: nat, def: CompiledApp)
    requires i < |mut.names|
    ensures ApplyPrefix(mut, m, i + 1) == ApplyOne(mut, ApplyPrefix(mut, m, i), i)
  {
    PutExtend(m, mut.names, i, if mut.Insert? then mut.app else def);
  }

  function Apply(mut: Mutation, m: Table): Table {
    ApplyPrefix(mut, m, |mut.names|)
  }

  function ApplyAll(muts: seq<Mutation>, m: Table): Table {
    if muts == [] then m else Apply(muts[|muts| - 1], ApplyAll(muts[..|muts| - 1], m))
  }

  datatype Writer =
    | Waiting(mut: Mutation)
    | Cloning(mut: Mutation, src: nat, dst: nat, left: set<string>)
    | Mutating(mut: Mutation, dst: nat, done: nat)
    | Finished(mut: Mutation)

  datatype Reader =
    | Starting(host: string)
    | Walking(host: string, cell: nat, h: string, s: string, retried: bool)
    | Answered(host: string, cell: nat, app: CompiledApp)

  /** `published` lists the cells `domains` has pointed at, `log` the mutations between them. */
  datatype State = State(
    def: CompiledApp,
    cells: seq<Table>,
    root: nat,
    lock: Option<nat>,
    writers: seq<Writer>,
    readers: seq<Reader>,
    published: seq<nat>,
    log: seq<Mutation>)

  datatype Event =
    | NewWriter(mut: Mutation)
    | NewReader(host: string)
    | WriterStep(w: nat, key: string)
    | ReaderStep(r: nat)

  ghost function Init(def: CompiledApp, table: Table): (s: State)
    ensures Inv(s)
  {
    State(def, [table], 0, None, [], [], [0], [])
  }

  ghost predicate WriterInv(s: State, w: Writer)
    requires s.root < |s.cells|
  {
    match w
    case Cloning(mut, src, dst, left) =>
      && src == s.root && dst < |s.cells| && dst !in s.published
      && left <= s.cells[src].Keys
      && s.cells[dst].Keys == s.cells[src].Keys - left
      && forall d :: d in s.cells[dst] ==> s.cells[dst][d] == s.cells[src][d]
    case Mutating(mut, dst, done) =>
      && dst < |s.cells| && dst !in s.published
      && done <= |mut.names|
      && s.cells[dst] == ApplyPrefix(mut, s.cells[s.root], done)
    case _ => true
  }

  predicate InCritical(w: Writer) {
    w.Cloning? || w.Mutating?
  }

  /** The walk of host `h0` in table `m` stands at suffix `t` of `h`. */
  ghost predicate OnTheWay(m: Table, h0: string, h: string, t: string, retried: bool) {
    && (!retried ==> h == h0)
    && (retried ==> h == Lower(h0) && Walk(m, h0).None?)
    && Walk(m, h) == Walk(m, t)
  }

  ghost predicate ReaderInv(s: State, r: Reader) {
    match r
    case Starting(_) => true
    case Walking(host, cell, h, t, retried) =>
      && cell in s.published && cell < |s.cells|
      && OnTheWay(s.cells[cell], TrimHostPort(host), h, t, retried)
    case Answered(host, cell, app) =>
      && cell in s.published && cell < |s.cells|
      && app == ResolveIn(s.cells[cell], s.def, host)
  }

  ghost predicate HistoryInv(s: State) {
    && |s.published| == |s.log| + 1
    && s.root == s.published[|s.log|]
    && (forall k :: 0 <= k < |s.published| ==> s.published[k] < |s.cells|)
    && (forall k :: 0 <= k < |s.log| ==> Linked(s.cells, s.published, s.log, k))
  }

  /** Published map `k + 1` is published map `k` with mutation `k` applied. */
  ghost predicate Linked(cells: seq<Table>, published: seq<nat>, log: seq<Mutation>, k: nat) {
    && k < |log| && k + 1 < |published|
    && published[k] < |cells| && published[k + 1] < |cells|
    && cells[published[k + 1]] == Apply(log[k], cells[published[k]])
  }

  ghost predicate Inv(s: State) {
    && HistoryInv(s)
    && s.root in s.published
    && (forall w :: 0 <= w < |s.writers| ==> (InCritical(s.writers[w]) <==> s.lock == Some(w)))
    && (forall w :: 0 <= w < |s.writers| ==> WriterInv(s, s.writers[w]))
    && (forall r :: 0 <= r < |s.readers| ==> ReaderInv(s, s.readers[r]))
    && (s.lock.Some? ==> s.lock.value < |s.writers|)
  }

  /** One step of one writer: take the lock, copy one entry, apply one name, or publish. */
  ghost function StepWriter(s: State, w: nat, key: string): State
    requires Inv(s) && w < |s.writers|
  {
    match s.writers[w]
    case Waiting(mut) =>
      if s.lock.Some? then s
      else s.(lock := Some(w), cells := s.cells + [map[]],
              writers := s.writers[w := Cloning(mut, s.root, |s.cells|, s.cells[s.root].Keys)])
    case Cloning(mut, src, dst, left) =>
      assert WriterInv(s, s.writers[w]);
      if left == {} then s.(writers := s.writers[w := Mutating(mut, dst, 0)])
      else if key !in left then s
      else s.(cells := s.cells[dst := s.cells[dst][key := s.cells[src][key]]],
              writers := s.writers[w := Cloning(mut, src, dst, left - {key})])
    case Mutating(mut, dst, done) =>
      assert WriterInv(s, s.writers[w]);
      if done < |mut.names| then
        s.(cells := s.cells[dst := ApplyOne(mut, s.cells[dst], done)],
           writers := s.writers[w := Mutating(mut, dst, done + 1)])
      else
        s.(root := dst, lock := None, writers := s.writers[w := Finished(mut)],
           published := s.published + [dst], log := s.log + [mut])
    case Finished(_) => s
  }

  /** One step of one reader: load the table, probe it once, or turn to the lowercase host. */
  ghost function NextReader(def: CompiledApp, cells: seq<Table>, root: nat, x: Reader): Reader
    requires root < |cells| && (x.Walking? ==> x.cell < |cells|)
  {
    match x
    case Starting(host) =>
      var h := TrimHostPort(host);
      if |cells[root]| == 0 then Answered(host, root, def) else Walking(host, root, h, h, false)
    case Walking(host, cell, h, t, retried) =>
      Probed(cells[cell], def, host, cell, h, t, retried)
    case Answered(_, _, _) => x
  }

  ghost function StepReader(s: State, r: nat): State
    requires Inv(s) && r < |s.readers|
  {
    assert ReaderInv(s, s.readers[r]);
    s.(readers := s.readers[r := NextReader(s.def, s.cells, s.root, s.readers[r])])
  }

  ghost function Step(s: State, e: Event): State
    requires Inv(s)
  {
    match e
    case NewWriter(mut) => s.(writers := s.writers + [Waiting(mut)])
    case NewReader(host) => s.(readers := s.readers + [Starting(host)])
    case WriterStep(w, key) => if w < |s.writers| then StepWriter(s, w, key) else s
    case ReaderStep(r) => if r < |s.readers| then StepReader(s, r) else s
  }

  lemma StartingReaderIsRight(s: State, x: Reader)
    requires s.root < |s.cells| && s.root in s.published && x.Starting?
    ensures ReaderInv(s, NextReader(s.def, s.cells, s.root, x))
  {
    if |s.cells[s.root]| == 0 {
      EmptyTableMatchesNothing(s.cells[s.root], TrimHostPort(x.host));
      EmptyTableMatchesNothing(s.cells[s.root], Lower(TrimHostPort(x.host)));
    }
  }

  lemma HitAnswers(m: Table, def: CompiledApp, host: string, h: string, t: string, retried: bool)
    requires OnTheWay(m, TrimHostPort(host), h, t, retried) && t in m
    ensures m[t] == ResolveIn(m, def, host)
  {
    assert Walk(m, t) == Some(m[t]);
  }

  lemma LabelDropped(m: Table, h0: string, h: string, t: string, retried: bool, i: nat)
    requires OnTheWay(m, h0, h, t, retried) && t !in m && i == IndexOf(t, '.')
    ensures OnTheWay(m, h0, h, t[i + 1..], retried)
  {
  }

  lemma MissAnswers(m: Table, def: CompiledApp, host: string, h: string, t: string, retried: bool)
    requires OnTheWay(m, TrimHostPort(host), h, t, retried) && t !in m && IndexOf(t, '.') < 0
    ensures retried || h == Lower(h) ==> def == ResolveIn(m, def, host)
    ensures !retried ==> OnTheWay(m, TrimHostPort(host), Lower(h), Lower(h), true)
  {
    assert Walk(m, t) == None;
  }

  /** What one probe makes of a walking reader. */
  function Probed(m: Table, def: CompiledApp, host: string, cell: nat, h: string, t: string, retried: bool): Reader {
    if t in m then Answered(host, cell, m[t])
    else
      var i := IndexOf(t, '.');
      if i >= 0 then Walking(host, cell, h, t[i + 1..], retried)
      else if retried || h == Lower(h) then Answered(host, cell, def)
      else Walking(host, cell, Lower(h), Lower(h), true)
  }

  lemma ProbeIsRight(m: Table, def: CompiledApp, host: string, cell: nat, h: string, t: string, retried: bool)
    requires OnTheWay(m, TrimHostPort(host), h, t, retried)
    ensures var y := Probed(m, def, host, cell, h, t, retried);
            && !y.Starting? && y.host == host && y.cell == cell
            && (y.Walking? ==> OnTheWay(m, TrimHostPort(host), y.h, y.s, y.retried))
            && (y.Answered? ==> y.app == ResolveIn(m, def, host))
  {
    if t in m {
      HitAnswers(m, def, host, h, t, retried);
    } else if IndexOf(t, '.') >= 0 {
      LabelDropped(m, TrimHostPort(host), h, t, retried, IndexOf(t, '.'));
    } else {
      MissAnswers(m, def, host, h, t, retried);
    }
  }

  lemma WalkingReaderIsRight(s: State, x: Reader)
    requires s.root < |s.cells| && x.Walking? && ReaderInv(s, x)
    ensures ReaderInv(s, NextReader(s.def, s.cells, s.root, x))
  {
    ProbeIsRight(s.cells[x.cell], s.def, x.host, x.cell, x.h, x.s, x.retried);
  }

  /** A reader that probes one table answers what `ResolveIn` says of it. */
  lemma NextReaderIsRight(s: State, x: Reader)
    requires s.root < |s.cells| && s.root in s.published && ReaderInv(s, x)
    ensures ReaderInv(s, NextReader(s.def, s.cells, s.root, x))
  {
    if x.Starting? {
      StartingReaderIsRight(s, x);
    } else if x.Walking? {
      WalkingReaderIsRight(s, x);
    }
  }

  lemma NextReaderKeepsCell(def: CompiledApp, cells: seq<Table>, root: nat, x: Reader)
    requires root < |cells| && !x.Starting? && (x.Walking? ==> x.cell < |cells|)
    ensures var y := NextReader(def, cells, root, x); !y.Starting? && y.cell == x.cell && y.host == x.host
  {
  }

  lemma ReaderStepKeepsInv(s: State, r: nat)
    requires Inv(s) && r < |s.readers|
    ensures Inv(StepReader(s, r))
  {
    var s' := StepReader(s, r);
    assert ReaderInv(s, s.readers[r]);
    NextReaderIsRight(s, s.readers[r]);
    forall i | 0 <= i < |s'.readers| ensures ReaderInv(s', s'.readers[i]) {
      if i != r {
        assert ReaderInv(s, s.readers[i]);
      }
      SameReaderInv(s, s', s'.readers[i]);
    }
    forall w | 0 <= w < |s'.writers| ensures WriterInv(s', s'.writers[w]) {
      assert WriterInv(s, s.writers[w]);
    }
  }

  lemma SameReaderInv(s: State, t: State, x: Reader)
    requires t == s.(readers := t.readers) && ReaderInv(s, x)
    ensures ReaderInv(t, x)
  {
  }

  /** Nothing a writer does to its private cell is visible to readers or to the history. */
  lemma PrivateCellKeepsInv(s: State, s': State, w: nat)
    requires Inv(s) && w < |s.writers|
    requires s'.def == s.def && s'.root == s.root && s'.published == s.published && s'.log == s.log
    requires s'.readers == s.readers && |s'.cells| >= |s.cells|
    requires forall a :: a in s.published && a < |s.cells| ==> s'.cells[a] == s.cells[a]
    requires |s'.writers| == |s.writers| && s'.lock == Some(w) && InCritical(s'.writers[w])
    requires forall v :: 0 <= v < |s.writers| && v != w ==> s'.writers[v] == s.writers[v] && !InCritical(s.writers[v])
    requires WriterInv(s', s'.writers[w])
    ensures Inv(s')
  {
    forall r | 0 <= r < |s'.readers| ensures ReaderInv(s', s'.readers[r]) {
      assert ReaderInv(s, s.readers[r]);
    }
    forall k | 0 <= k < |s'.log| ensures Linked(s'.cells, s'.published, s'.log, k) {
      assert Linked(s.cells, s.published, s.log, k);
      assert s.published[k + 1] in s.published && s.published[k] in s.published;
    }
  }

  lemma LockStepKeepsInv(s: State, w: nat)
    requires Inv(s) && w < |s.writers| && s.writers[w].Waiting?
    ensures Inv(StepWriter(s, w, ""))
  {
    if s.lock.None? {
      var s' := StepWriter(s, w, "");
      assert WriterInv(s', s'.writers[w]);
      PrivateCellKeepsInv(s, s', w);
    }
  }

  lemma CloneStepKeepsInv(s: State, w: nat, key: string)
    requires Inv(s) && w < |s.writers| && s.writers[w].Cloning?
    ensures Inv(StepWriter(s, w, key))
  {
    var s' := StepWriter(s, w, key);
    var x := s.writers[w];
    assert WriterInv(s, x);
    if s' != s {
      if x.left == {} {
        assert s.cells[x.dst] == s.cells[s.root];
        assert ApplyPrefix(x.mut, s.cells[s.root], 0) == s.cells[s.root];
      }
      assert WriterInv(s', s'.writers[w]);
      PrivateCellKeepsInv(s, s', w);
    }
  }

  lemma MutateStepKeepsInv(s: State, w: nat)
    requires Inv(s) && w < |s.writers| && s.writers[w].Mutating? && s.writers[w].done < |s.writers[w].mut.names|
    ensures Inv(StepWriter(s, w, ""))
  {
    var s' := StepWriter(s, w, "");
    var x := s.writers[w];
    assert WriterInv(s, x);
    MutateStepExtends(s, w);
    PrivateCellKeepsInv(s, s', w);
  }

  lemma MutateStepExtends(s: State, w: nat)
    requires w < |s.writers| && s.writers[w].Mutating? && s.writers[w].done < |s.writers[w].mut.names|
    requires Inv(s)
    ensures WriterInv(StepWriter(s, w, ""), StepWriter(s, w, "").writers[w])
  {
    var x := s.writers[w];
    assert WriterInv(s, x);
    ApplyPrefixExtends(x.mut, s.cells[s.root], x.done, s.def);
    var t := StepWriter(s, w, "");
    assert t.writers[w] == Mutating(x.mut, x.dst, x.done + 1) && t.cells[s.root] == s.cells[s.root];
  }

  lemma WriterStepKeepsInv(s: State, w: nat, key: string)
    requires Inv(s) && w < |s.writers|
    ensures Inv(StepWriter(s, w, key))
  {
    assert WriterInv(s, s.writers[w]);
    match s.writers[w]
    case Waiting(_) => LockStepKeepsInv(s, w);
    case Cloning(_, _, _, _) => CloneStepKeepsInv(s, w, key);
    case Mutating(mut, _, done) =>
      if done < |mut.names| {
        MutateStepKeepsInv(s, w);
      } else {
        PublishKeepsInv(s, w);
      }
    case Finished(_) =>
  }

  lemma PublishKeepsInv(s: State, w: nat)
    requires Inv(s) && w < |s.writers| && s.writers[w].Mutating? && s.writers[w].done == |s.writers[w].mut.names|
    ensures Inv(StepWriter(s, w, ""))
  {
    var s' := StepWriter(s, w, "");
    assert WriterInv(s, s.writers[w]);
    forall r | 0 <= r < |s'.readers| ensures ReaderInv(s', s'.readers[r]) {
      assert ReaderInv(s, s.readers[r]);
    }
    forall v | 0 <= v < |s'.writers| ensures WriterInv(s', s'.writers[v]) && !InCritical(s'.writers[v]) {
      assert v != w ==> !InCritical(s.writers[v]);
    }
    forall k | 0 <= k < |s'.log| ensures Linked(s'.cells, s'.published, s'.log, k) {
      if k < |s.log| {
        assert Linked(s.cells, s.published, s.log, k);
        assert s'.published[k + 1] == s.published[k + 1] && s'.published[k] == s.published[k] && s'.log[k] == s.log[k];
      } else {
        assert s'.published[k] == s.root;
      }
    }
  }

  lemma StepKeepsInv(s: State, e: Event)
    requires Inv(s)
    ensures Inv(Step(s, e))
  {
    match e
    case WriterStep(w, key) => if w < |s.writers| { WriterStepKeepsInv(s, w, key); }
    case ReaderStep(r) => if r < |s.readers| { ReaderStepKeepsInv(s, r); }
    case NewWriter(mut) =>
      var s' := Step(s, e);
      assert forall w :: 0 <= w < |s.writers| ==> WriterInv(s, s.writers[w]);
      forall r | 0 <= r < |s'.readers| ensures ReaderInv(s', s'.readers[r]) {
        assert ReaderInv(s, s.readers[r]);
      }
    case NewReader(host) =>
      var s' := Step(s, e);
      forall r | 0 <= r < |s'.readers| ensures ReaderInv(s', s'.readers[r]) {
        assert r < |s.readers| ==> ReaderInv(s, s.readers[r]);
      }
      forall w | 0 <= w < |s'.writers| ensures WriterInv(s', s'.writers[w]) {
        assert WriterInv(s, s.writers[w]);
      }
  }

  /** The state after any schedule; a step that is not enabled does nothing. */
  ghost function Run(s: State, es: seq<Event>): (s': State)
    requires Inv(s)
    ensures Inv(s')
    decreases |es|
  {
    if es == [] then s
    else
      StepKeepsInv(s, es[0]);
      Run(Step(s, es[0]), es[1..])
  }

  lemma StepKeepsPublished(s: State, e: Event)
    requires Inv(s)
    ensures var s' := Step(s, e);
            && s.published <= s'.published && s.log <= s'.log && |s.cells| <= |s'.cells| && s'.def == s.def
            && forall a :: a in s.published && a < |s.cells| ==> s'.cells[a] == s.cells[a]
  {
    if e.WriterStep? && e.w < |s.writers| {
      assert WriterInv(s, s.writers[e.w]);
    }
  }

  /** No map that was ever published changes again, and the list of published maps only grows. */
  lemma {:induction false} PublishedMapsNeverChange(s: State, es: seq<Event>)
    requires Inv(s)
    ensures var s' := Run(s, es);
            && s.published <= s'.published && s.log <= s'.log && s'.def == s.def
            && |s.cells| <= |s'.cells|
            && forall a :: a in s.published && a < |s.cells| ==> s'.cells[a] == s.cells[a]
    decreases |es|
  {
    if es != [] {
      StepKeepsInv(s, es[0]);
      StepKeepsPublished(s, es[0]);
      var t := Step(s, es[0]);
      PublishedMapsNeverChange(t, es[1..]);
      assert forall a :: a in s.published ==> a in t.published;
    }
  }

  /** A reader pins one published map and answers by it, whatever the writers do meanwhile. */
  lemma EveryAnswerIsOfOneTable(def: CompiledApp, table: Table, es: seq<Event>, r: nat)
    requires var s := Run(Init(def, table), es); r < |s.readers| && s.readers[r].Answered?
    ensures var s := Run(Init(def, table), es);
            exists k :: 0 <= k <= |s.log|
              && s.readers[r].app == ResolveIn(ApplyAll(s.log[..k], table), def, s.readers[r].host)
  {
    var s := Run(Init(def, table), es);
    PublishedMapsNeverChange(Init(def, table), es);
    assert ReaderInv(s, s.readers[r]);
    var k :| 0 <= k < |s.published| && s.published[k] == s.readers[r].cell;
    TablesFollowTheLog(def, table, es, k);
  }

  /** The map a reader pins is the one current when it starts. */
  lemma ReaderLoadsCurrentTable(s: State, r: nat)
    requires Inv(s) && r < |s.readers| && s.readers[r].Starting?
    ensures var x := Step(s, ReaderStep(r)).readers[r]; !x.Starting? && x.cell == s.root
  {
  }

  lemma WriterStepLeavesReaders(s: State, w: nat, key: string)
    requires Inv(s) && w < |s.writers|
    ensures StepWriter(s, w, key).readers == s.readers
  {
  }

  /** Later steps of a reader never look at another map. */
  lemma ReaderKeepsItsTable(s: State, r: nat, e: Event)
    requires Inv(s) && r < |s.readers| && !s.readers[r].Starting?
    ensures var x := Step(s, e).readers[r]; !x.Starting? && x.cell == s.readers[r].cell && x.host == s.readers[r].host
  {
    if e.WriterStep? && e.w < |s.writers| {
      WriterStepLeavesReaders(s, e.w, e.key);
    } else if e.ReaderStep? && e.r < |s.readers| {
      if e.r == r {
        assert ReaderInv(s, s.readers[r]);
        NextReaderKeepsCell(s.def, s.cells, s.root, s.readers[r]);
      }
    }
  }

  lemma {:induction false} TablesFollowTheLog(def: CompiledApp, table: Table, es: seq<Event>, k: nat)
    requires k <= |Run(Init(def, table), es).log|
    ensures var s := Run(Init(def, table), es);
            s.published[k] < |s.cells| && s.cells[s.published[k]] == ApplyAll(s.log[..k], table)
    decreases k
  {
    var s := Run(Init(def, table), es);
    PublishedMapsNeverChange(Init(def, table), es);
    if k == 0 {
      assert s.published[0] == 0 && 0 in Init(def, table).published;
    } else {
      TablesFollowTheLog(def, table, es, k - 1);
      NextTableFollows(s, table, k - 1);
    }
  }

  lemma NextTableFollows(s: State, table: Table, k: nat)
    requires HistoryInv(s) && k < |s.log| && s.cells[s.published[k]] == ApplyAll(s.log[..k], table)
    ensures s.cells[s.published[k + 1]] == ApplyAll(s.log[..k + 1], table)
  {
    assert Linked(s.cells, s.published, s.log, k);
    assert s.log[..k + 1][..k] == s.log[..k];
  }

  // The log is what the finished writers did.

  /** The mutations of the writers that returned. */
  function Done(ws: seq<Writer>): seq<Mutation> {
    if ws == [] then []
    else Done(ws[..|ws| - 1]) + (if ws[|ws| - 1].Finished? then [ws[|ws| - 1].mut] else [])
  }

  lemma DoneSnoc(ws: seq<Writer>, x: Writer)
    ensures Done(ws + [x]) == Done(ws) + (if x.Finished? then [x.mut] else [])
  {
    assert (ws + [x])[..|ws|] == ws;
  }

  lemma {:induction false} DoneUpdate(ws: seq<Writer>, w: nat, x: Writer)
    requires w < |ws| && !ws[w].Finished?
    ensures multiset(Done(ws[w := x])) == multiset(Done(ws)) + (if x.Finished? then multiset{x.mut} else multiset{})
    decreases |ws|
  {
    var n := |ws| - 1;
    if w < n {
      DoneUpdate(ws[..n], w, x);
      assert ws[w := x][..n] == ws[..n][w := x];
    } else {
      assert ws[w := x][..n] == ws[..n];
    }
  }

  /** Each returned writer's mutation is in the log, as often as writers made it, and nothing else is. */
  ghost predicate Logged(s: State) {
    multiset(s.log) == multiset(Done(s.writers))
  }

  /** What a writer step does to the log: nothing, or the one mutation it publishes. */
  lemma WriterStepLogs(s: State, w: nat, key: string)
    requires Inv(s) && w < |s.writers|
    ensures var t := StepWriter(s, w, key);
            || (t.writers == s.writers && t.log == s.log)
            || (!s.writers[w].Finished? && t.writers == s.writers[w := t.writers[w]]
                && t.writers[w].mut == s.writers[w].mut
                && t.log == s.log + (if t.writers[w].Finished? then [s.writers[w].mut] else []))
  {
    assert WriterInv(s, s.writers[w]);
  }

  lemma StepKeepsLogged(s: State, e: Event)
    requires Inv(s) && Logged(s)
    ensures Logged(Step(s, e))
  {
    match e
    case NewWriter(mut) => DoneSnoc(s.writers, Waiting(mut));
    case NewReader(_) =>
    case WriterStep(w, key) =>
      if w < |s.writers| {
        WriterStepLogs(s, w, key);
        var t := StepWriter(s, w, key);
        if t.writers != s.writers || t.log != s.log {
          DoneUpdate(s.writers, w, t.writers[w]);
        }
      }
    case ReaderStep(_) =>
  }

  lemma {:induction false} RunKeepsLogged(s: State, es: seq<Event>)
    requires Inv(s) && Logged(s)
    ensures Logged(Run(s, es))
    decreases |es|
  {
    if es != [] {
      StepKeepsInv(s, es[0]);
      StepKeepsLogged(s, es[0]);
      RunKeepsLogged(Step(s, es[0]), es[1..]);
    }
  }

  /**
   * No update is lost and none is made up: the log holds the mutation of every writer that returned,
   * each exactly once, and the current table is the log applied in lock order.
   */
  lemma NoUpdateIsLost(def: CompiledApp, table: Table, es: seq<Event>)
    ensures var s := Run(Init(def, table), es);
            s.cells[s.root] == ApplyAll(s.log, table) && multiset(s.log) == multiset(Done(s.writers))
  {
    var s := Run(Init(def, table), es);
    TablesFollowTheLog(def, table, es, |s.log|);
    assert s.log[..|s.log|] == s.log;
    RunKeepsLogged(Init(def, table), es);
  }

  /** A domain no mutation names keeps its very entry through all of them. */
  lemma {:induction false} UnnamedDomainsKeepTheirApp(muts: seq<Mutation>, m: Table, d: string)
    requires forall i :: 0 <= i < |muts| ==> d !in LowerAll(muts[i].names)
    ensures d in ApplyAll(muts, m) <==> d in m
    ensures d in m ==> ApplyAll(muts, m)[d] == m[d]
    decreases |muts|
  {
    if muts != [] {
      var last := muts[|muts| - 1];
      UnnamedDomainsKeepTheirApp(muts[..|muts| - 1], m, d);
      var prev := ApplyAll(muts[..|muts| - 1], m);
      assert last.names[..|last.names|] == last.names;
      if last.Insert? {
        PutTouchesOnlyNamed(prev, last.names, last.app, d);
      }
    }
  }
}
