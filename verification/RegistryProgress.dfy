/**
 * Nobody is held up in the registry: a reader answers after a bounded number of its own steps
 * whatever anyone else does, and every writer can be brought to its end from any state.
 */
module RegistryProgress {
  import opened Text
  import opened Hosts
  import opened Registry
  import opened RegistryRuns

  // Readers wait for nobody.

  /** An upper bound on the steps a reader still takes. */
  function StepsLeft(x: Reader): nat {
    match x
    case Starting(host) => 2 * |host| + 3
    case Walking(_, _, h, t, retried) => |t| + 1 + (if retried then 0 else |h| + 1)
    case Answered(_, _, _) => 0
  }

  lemma TrimShortens(host: string)
    ensures |TrimHostPort(host)| <= |host|
  {
  }

  lemma ProbeGetsOn(m: Table, def: CompiledApp, host: string, cell: nat, h: string, t: string, retried: bool)
    ensures StepsLeft(Probed(m, def, host, cell, h, t, retried)) < StepsLeft(Walking(host, cell, h, t, retried))
  {
  }

  lemma ReaderGetsOn(def: CompiledApp, cells: seq<Table>, root: nat, x: Reader)
    requires root < |cells| && (x.Walking? ==> x.cell < |cells|) && !x.Answered?
    ensures StepsLeft(NextReader(def, cells, root, x)) < StepsLeft(x)
  {
    match x
    case Starting(host) => TrimShortens(host);
    case Walking(host, cell, h, t, retried) => ProbeGetsOn(cells[cell], def, host, cell, h, t, retried);
  }

  lemma StepKeepsReader(s: State, e: Event, r: nat)
    requires Inv(s) && r < |s.readers| && e != ReaderStep(r)
    ensures r < |Step(s, e).readers| && Step(s, e).readers[r] == s.readers[r]
  {
    if e.WriterStep? && e.w < |s.writers| {
      WriterStepLeavesReaders(s, e.w, e.key);
    }
  }

  /** The steps of reader `r` in a schedule. */
  function Turns(es: seq<Event>, r: nat): nat {
    if es == [] then 0 else (if es[0] == ReaderStep(r) then 1 else 0) + Turns(es[1..], r)
  }

  lemma {:induction false} TurnsBringItOn(s: State, es: seq<Event>, r: nat)
    requires Inv(s) && r < |s.readers|
    ensures r < |Run(s, es).readers|
    ensures var x := Run(s, es).readers[r]; x.Answered? || StepsLeft(x) + Turns(es, r) <= StepsLeft(s.readers[r])
    decreases |es|
  {
    if es != [] {
      var x := s.readers[r];
      StepKeepsInv(s, es[0]);
      if es[0] == ReaderStep(r) {
        assert ReaderInv(s, x);
        if !x.Answered? {
          ReaderGetsOn(s.def, s.cells, s.root, x);
        }
      } else {
        StepKeepsReader(s, es[0], r);
      }
      TurnsBringItOn(Step(s, es[0]), es[1..], r);
      if x.Answered? {
        AnsweredStays(s, es, r);
      }
    }
  }

  lemma {:induction false} AnsweredStays(s: State, es: seq<Event>, r: nat)
    requires Inv(s) && r < |s.readers| && s.readers[r].Answered?
    ensures r < |Run(s, es).readers| && Run(s, es).readers[r] == s.readers[r]
    decreases |es|
  {
    if es != [] {
      StepKeepsInv(s, es[0]);
      if es[0] != ReaderStep(r) {
        StepKeepsReader(s, es[0], r);
      }
      AnsweredStays(Step(s, es[0]), es[1..], r);
    }
  }

  /**
   * A reader that gets `2 |host| + 3` steps has its answer, whoever else runs in between, holds the
   * lock, or stopped in the middle of an update.
   */
  lemma ReadersAreWaitFree(s: State, es: seq<Event>, r: nat)
    requires Inv(s) && r < |s.readers| && s.readers[r].Starting?
    requires Turns(es, r) >= 2 * |s.readers[r].host| + 3
    ensures r < |Run(s, es).readers| && Run(s, es).readers[r].Answered?
  {
    TurnsBringItOn(s, es, r);
    var x := Run(s, es).readers[r];
    assert !x.Answered? ==> StepsLeft(x) > 0;
  }

  // Writers never block each other for good.

  function WorkLeft(x: Writer): nat {
    match x
    case Waiting(_) => 0
    case Cloning(mut, _, _, left) => |left| + |mut.names| + 2
    case Mutating(mut, _, done) => if done <= |mut.names| then |mut.names| - done + 1 else 0
    case Finished(_) => 0
  }

  /** One step of the lock holder: the same table, or the whole mutation and the lock released. */
  ghost predicate HolderMoved(s: State, t: State, w: nat)
    requires Inv(s) && Inv(t) && w < |s.writers|
  {
    && |t.writers| == |s.writers| && t.readers == s.readers && t.writers[w].mut == s.writers[w].mut
    && (forall v :: 0 <= v < |s.writers| && v != w ==> t.writers[v] == s.writers[v])
    && (if t.writers[w].Finished? then
          && t.lock == None && t.log == s.log + [s.writers[w].mut]
          && t.cells[t.root] == Apply(s.writers[w].mut, s.cells[s.root])
        else t.lock == Some(w) && t.log == s.log && t.cells[t.root] == s.cells[s.root])
  }

  lemma CloneMoves(s: State, w: nat) returns (key: string)
    requires Inv(s) && s.lock == Some(w) && s.writers[w].Cloning?
    ensures Inv(StepWriter(s, w, key))
    ensures var t := StepWriter(s, w, key);
            HolderMoved(s, t, w) && WorkLeft(t.writers[w]) < WorkLeft(s.writers[w]) && !t.writers[w].Finished?
  {
    var x := s.writers[w];
    assert WriterInv(s, x);
    key := "";
    if x.left != {} {
      key :| key in x.left;
    }
    WriterStepKeepsInv(s, w, key);
  }

  lemma MutateMoves(s: State, w: nat)
    requires Inv(s) && s.lock == Some(w) && s.writers[w].Mutating?
    ensures Inv(StepWriter(s, w, ""))
    ensures var t := StepWriter(s, w, "");
            && HolderMoved(s, t, w)
            && (t.writers[w].Finished? || WorkLeft(t.writers[w]) < WorkLeft(s.writers[w]))
  {
    assert WriterInv(s, s.writers[w]);
    WriterStepKeepsInv(s, w, "");
  }

  lemma MovedTwice(s: State, t: State, u: State, w: nat)
    requires Inv(s) && Inv(t) && Inv(u) && w < |s.writers| && HolderMoved(s, t, w) && !t.writers[w].Finished?
    requires HolderMoved(t, u, w)
    ensures HolderMoved(s, u, w)
  {
  }

  lemma RunFirst(s: State, e: Event, es: seq<Event>)
    requires Inv(s)
    ensures Inv(Step(s, e)) && Run(s, [e] + es) == Run(Step(s, e), es)
  {
    StepKeepsInv(s, e);
    assert ([e] + es)[1..] == es;
  }

  /** The lock holder can end its mutation without anyone's help, and applies all of it. */
  lemma {:induction false} HolderFinishes(s: State, w: nat) returns (es: seq<Event>)
    requires Inv(s) && s.lock == Some(w)
    ensures HolderMoved(s, Run(s, es), w) && Run(s, es).writers[w].Finished?
    decreases WorkLeft(s.writers[w])
  {
    assert InCritical(s.writers[w]);
    var key := "";
    if s.writers[w].Cloning? {
      key := CloneMoves(s, w);
    } else {
      MutateMoves(s, w);
    }
    var e := WriterStep(w, key);
    StepKeepsInv(s, e);
    var t := Step(s, e);
    var rest := [];
    if !t.writers[w].Finished? {
      rest := HolderFinishes(t, w);
      MovedTwice(s, t, Run(t, rest), w);
    }
    RunFirst(s, e, rest);
    es := [e] + rest;
  }

  /** A waiting writer that finds the lock free takes it and ends its mutation. */
  lemma FreeWriterFinishes(s: State, w: nat) returns (es: seq<Event>)
    requires Inv(s) && s.lock == None && w < |s.writers| && s.writers[w].Waiting?
    ensures HolderMoved(s, Run(s, es), w) && Run(s, es).writers[w].Finished?
  {
    var e := WriterStep(w, "");
    StepKeepsInv(s, e);
    var t := Step(s, e);
    assert t.lock == Some(w) && HolderMoved(s, t, w);
    var rest := HolderFinishes(t, w);
    MovedTwice(s, t, Run(t, rest), w);
    RunFirst(s, e, rest);
    es := [e] + rest;
  }

  /** No state is a dead end: every writer that has not returned can still be brought to its end. */
  lemma EveryWriterCanFinish(s: State, w: nat) returns (es: seq<Event>)
    requires Inv(s) && w < |s.writers|
    ensures w < |Run(s, es).writers| && Run(s, es).writers[w] == Finished(s.writers[w].mut)
  {
    if s.writers[w].Finished? {
      es := [];
    } else if s.lock == Some(w) {
      es := HolderFinishes(s, w);
    } else if s.lock == None {
      assert !InCritical(s.writers[w]);
      es := FreeWriterFinishes(s, w);
    } else {
      var first := HolderFinishes(s, s.lock.value);
      var t := Run(s, first);
      assert !InCritical(s.writers[w]) && t.writers[w] == s.writers[w];
      var rest := FreeWriterFinishes(t, w);
      RunJoins(s, first, rest);
      es := first + rest;
    }
  }

  lemma {:induction false} RunJoins(s: State, es: seq<Event>, fs: seq<Event>)
    requires Inv(s)
    ensures Run(s, es + fs) == Run(Run(s, es), fs)
    decreases |es|
  {
    if es == [] {
      assert es + fs == fs;
    } else {
      StepKeepsInv(s, es[0]);
      assert (es + fs)[1..] == es[1..] + fs;
      RunJoins(Step(s, es[0]), es[1..], fs);
    }
  }
}
