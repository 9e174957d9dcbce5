/** The outage summary of a probe (`probeSummary`, cmd/appximo/cmd_drill.go). */
module Probe {

  /** Time 0 is Go's zero time, which no recorded sample has; code 0 is a request without an answer. */
  datatype Sample = Sample(at: nat, code: int, ms: real)

  predicate Fails(s: Sample) {
    s.code < 200 || s.code >= 400
  }

  ghost predicate Recorded(samples: seq<Sample>) {
    forall i :: 0 <= i < |samples| ==> samples[i].at > 0
  }

  ghost predicate InTimeOrder(samples: seq<Sample>) {
    forall i, j :: 0 <= i < j < |samples| ==> samples[i].at <= samples[j].at
  }

  function Number(samples: seq<Sample>, code: int): nat {
    if samples == [] then 0
    else Number(samples[..|samples| - 1], code) + (if samples[|samples| - 1].code == code then 1 else 0)
  }

  function FailureTimes(samples: seq<Sample>): seq<real> {
    if samples == [] then []
    else
      var last := samples[|samples| - 1];
      FailureTimes(samples[..|samples| - 1]) + (if Fails(last) then [last.ms] else [])
  }

  /** `firstFail`, `lastFail` and `okAfter` are 0 when there is none. */
  datatype Summary = Summary(start: nat, counts: map<int, nat>, failMs: seq<real>, firstFail: nat, lastFail: nat,
      okAfter: nat)

  ghost predicate FirstFailAt(samples: seq<Sample>, i: nat) {
    i < |samples| && Fails(samples[i]) && forall k :: 0 <= k < i ==> !Fails(samples[k])
  }

  ghost predicate LastFailAt(samples: seq<Sample>, j: nat) {
    j < |samples| && Fails(samples[j]) && forall k :: j < k < |samples| ==> !Fails(samples[k])
  }

  ghost predicate NoFailure(samples: seq<Sample>) {
    forall k :: 0 <= k < |samples| ==> !Fails(samples[k])
  }

  /** Samples `i` and `j` are the first and the last failure, and the times follow from them. */
  ghost predicate OutageAt(samples: seq<Sample>, i: nat, j: nat, firstFail: nat, lastFail: nat, okAfter: nat) {
    && FirstFailAt(samples, i) && LastFailAt(samples, j)
    && firstFail == samples[i].at && lastFail == samples[j].at
    && okAfter == if j + 1 < |samples| then samples[j + 1].at else 0
  }

  /** The times of the first failure, the last failure and the success right after it; 0 for none. */
  ghost predicate Outage(samples: seq<Sample>, firstFail: nat, lastFail: nat, okAfter: nat) {
    || (NoFailure(samples) && firstFail == 0 && lastFail == 0 && okAfter == 0)
    || (exists i: nat, j: nat :: OutageAt(samples, i, j, firstFail, lastFail, okAfter))
  }

  ghost predicate CountsAre(counts: map<int, nat>, samples: seq<Sample>) {
    forall c :: (c in counts <==> Number(samples, c) > 0) && (c in counts ==> counts[c] == Number(samples, c))
  }

  /** The times after one more sample. */
  function NextFirst(s: Sample, firstFail: nat): nat {
    if Fails(s) && firstFail == 0 then s.at else firstFail
  }

  function NextLast(s: Sample, lastFail: nat): nat {
    if Fails(s) then s.at else lastFail
  }

  function NextOk(s: Sample, lastFail: nat, okAfter: nat): nat {
    if Fails(s) then 0 else if lastFail != 0 && okAfter == 0 then s.at else okAfter
  }

  lemma FirstFailureSnoc(samples: seq<Sample>, s: Sample)
    requires NoFailure(samples)
    ensures !Fails(s) ==> NoFailure(samples + [s])
    ensures Fails(s) ==> OutageAt(samples + [s], |samples|, |samples|, s.at, s.at, 0)
  {
    assert forall k :: 0 <= k < |samples| ==> (samples + [s])[k] == samples[k];
  }

  lemma LaterSampleSnoc(samples: seq<Sample>, s: Sample, i: nat, j: nat, firstFail: nat, lastFail: nat, okAfter: nat)
    requires Recorded(samples) && OutageAt(samples, i, j, firstFail, lastFail, okAfter)
    ensures OutageAt(samples + [s], i, if Fails(s) then |samples| else j,
                     NextFirst(s, firstFail), NextLast(s, lastFail), NextOk(s, lastFail, okAfter))
  {
    var all := samples + [s];
    assert forall k :: 0 <= k < |samples| ==> all[k] == samples[k];
    assert FirstFailAt(all, i);
    assert LastFailAt(all, if Fails(s) then |samples| else j);
    assert samples[j].at > 0;
    assert j + 1 < |samples| ==> samples[j + 1].at > 0;
  }

  lemma OutageSnoc(samples: seq<Sample>, s: Sample, firstFail: nat, lastFail: nat, okAfter: nat)
    ensures Recorded(samples) && Outage(samples, firstFail, lastFail, okAfter) ==>
              Outage(samples + [s], NextFirst(s, firstFail), NextLast(s, lastFail), NextOk(s, lastFail, okAfter))
  {
    if NoFailure(samples) && firstFail == 0 && lastFail == 0 && okAfter == 0 {
      FirstFailureSnoc(samples, s);
    } else if Recorded(samples) && Outage(samples, firstFail, lastFail, okAfter) {
      var i: nat, j: nat :| OutageAt(samples, i, j, firstFail, lastFail, okAfter);
      LaterSampleSnoc(samples, s, i, j, firstFail, lastFail, okAfter);
    }
  }

  lemma NumberSnoc(samples: seq<Sample>, s: Sample)
    ensures forall c :: Number(samples + [s], c) == Number(samples, c) + (if s.code == c then 1 else 0)
    ensures FailureTimes(samples + [s]) == if Fails(s) then FailureTimes(samples) + [s.ms] else FailureTimes(samples)
  {
    assert (samples + [s])[..|samples|] == samples;
  }

  lemma TalliesSnoc(samples: seq<Sample>, s: Sample, counts: map<int, nat>)
    requires CountsAre(counts, samples)
    ensures CountsAre(counts[s.code := (if s.code in counts then counts[s.code] else 0) + 1], samples + [s])
    ensures FailureTimes(samples + [s]) == if Fails(s) then FailureTimes(samples) + [s.ms] else FailureTimes(samples)
  {
    NumberSnoc(samples, s);
  }

  /**
   * The one pass: counts by code, the latencies of the failures in order, and the three times of
   * the outage, each as its quantified description says when no sample has the zero time.
   */
  method ProbeSummary(samples: seq<Sample>) returns (r: Summary)
    ensures samples != [] ==> r.start == samples[0].at
    ensures CountsAre(r.counts, samples)
    ensures r.failMs == FailureTimes(samples)
    ensures Recorded(samples) ==> Outage(samples, r.firstFail, r.lastFail, r.okAfter)
  {
    var start, firstFail, lastFail, okAfter := 0, 0, 0, 0;
    var counts: map<int, nat> := map[];
    var failMs: seq<real> := [];
    for i := 0 to |samples|
      invariant i > 0 ==> start == samples[0].at
      invariant CountsAre(counts, samples[..i])
      invariant failMs == FailureTimes(samples[..i])
      invariant Recorded(samples) ==> Outage(samples[..i], firstFail, lastFail, okAfter)
    {
      var s := samples[i];
      assert samples[..i + 1] == samples[..i] + [s];
      OutageSnoc(samples[..i], s, firstFail, lastFail, okAfter);
      TalliesSnoc(samples[..i], s, counts);
      if i == 0 {
        start := s.at;
      }
      counts := counts[s.code := (if s.code in counts then counts[s.code] else 0) + 1];
      if Fails(s) {
        failMs := failMs + [s.ms];
        if firstFail == 0 {
          firstFail := s.at;
        }
        lastFail := s.at;
        okAfter := 0;
      } else if lastFail != 0 && okAfter == 0 {
        okAfter := s.at;
      }
    }
    assert samples[..|samples|] == samples;
    r := Summary(start, counts, failMs, firstFail, lastFail, okAfter);
  }

  /**
   * In samples sorted by time the outage window holds every failure and opens and closes on real
   * samples: nothing fails before it starts or once it has ended.
   */
  lemma OutageWindowHoldsEveryFailure(samples: seq<Sample>, firstFail: nat, lastFail: nat, okAfter: nat, k: nat)
    requires Recorded(samples) && InTimeOrder(samples) && Outage(samples, firstFail, lastFail, okAfter)
    requires k < |samples| && Fails(samples[k])
    ensures firstFail <= samples[k].at <= lastFail
    ensures okAfter != 0 ==> samples[k].at <= okAfter
    ensures okAfter == 0 <==> Fails(samples[|samples| - 1])
  {
    var i: nat, j: nat :| OutageAt(samples, i, j, firstFail, lastFail, okAfter);
    assert i <= k <= j;
    assert samples[i].at <= samples[k].at <= samples[j].at;
    if j + 1 < |samples| {
      assert samples[k].at <= samples[j + 1].at;
    }
  }

  lemma {:induction false} FailureTimesCount(samples: seq<Sample>)
    ensures FailureTimes(samples) == [] <==> forall k :: 0 <= k < |samples| ==> 200 <= samples[k].code < 400
    decreases |samples|
  {
    if samples != [] {
      var n := |samples| - 1;
      FailureTimesCount(samples[..n]);
      assert forall k :: 0 <= k < n ==> samples[..n][k] == samples[k];
    }
  }

  /** `at` are the positions of the failing samples, all of them, in order, and `times` their latencies. */
  ghost predicate FailuresAt(samples: seq<Sample>, times: seq<real>, at: seq<nat>) {
    && |at| == |times|
    && (forall i :: 0 <= i < |at| ==> at[i] < |samples| && times[i] == samples[at[i]].ms)
    && (forall i, j :: 0 <= i < j < |at| ==> at[i] < at[j])
    && (forall k: nat :: k < |samples| ==> (k in at <==> samples[k].code < 200 || samples[k].code >= 400))
  }

  lemma OkSampleSnoc(samples: seq<Sample>, s: Sample, times: seq<real>, at: seq<nat>)
    requires FailuresAt(samples, times, at) && 200 <= s.code < 400
    ensures FailuresAt(samples + [s], times, at)
  {
    assert forall k :: 0 <= k < |samples| ==> (samples + [s])[k] == samples[k];
    assert |samples| !in at;
  }

  lemma FailedSampleSnoc(samples: seq<Sample>, s: Sample, times: seq<real>, at: seq<nat>)
    requires FailuresAt(samples, times, at) && !(200 <= s.code < 400)
    ensures FailuresAt(samples + [s], times + [s.ms], at + [|samples|])
  {
    var all, now := samples + [s], at + [|samples|];
    assert forall k :: 0 <= k < |samples| ==> all[k] == samples[k];
    forall k: nat | k < |all| ensures k in now <==> all[k].code < 200 || all[k].code >= 400 {
      assert k < |samples| ==> (k in now <==> k in at);
      assert now[|at|] == |samples|;
    }
  }

  /** The reported latencies are those of the failing samples, all of them, in their order. */
  lemma {:induction false} FailureTimesAre(samples: seq<Sample>) returns (at: seq<nat>)
    ensures FailuresAt(samples, FailureTimes(samples), at)
    decreases |samples|
  {
    if samples == [] {
      at := [];
    } else {
      var n := |samples| - 1;
      at := FailureTimesAre(samples[..n]);
      assert samples == samples[..n] + [samples[n]];
      if 200 <= samples[n].code < 400 {
        OkSampleSnoc(samples[..n], samples[n], FailureTimes(samples[..n]), at);
      } else {
        FailedSampleSnoc(samples[..n], samples[n], FailureTimes(samples[..n]), at);
        at := at + [n];
      }
    }
  }

  /** The samples that got a code. */
  function Having(samples: seq<Sample>, code: int): set<nat> {
    set i: nat | i < |samples| && samples[i].code == code
  }

  lemma {:induction false} NumberCounts(samples: seq<Sample>, code: int)
    ensures Number(samples, code) == |Having(samples, code)|
    decreases |samples|
  {
    if samples != [] {
      var n := |samples| - 1;
      NumberCounts(samples[..n], code);
      var before := Having(samples[..n], code);
      assert Having(samples, code) == if samples[n].code == code then before + {n} else before;
    }
  }
}
