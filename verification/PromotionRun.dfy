/** The whole of one promotion stage: telemetry opens, the fan-out runs, telemetry closes. */
module PromotionRun {
  import opened Wrappers
  import opened PromotionState
  import opened Fanout

  /** What closed the interval: the run verdict and its counts. */
  datatype Closing = Closing(verdict: Verdict, total: nat, failures: int)

  /** Promotion events of one run. Without an environment every write is a silent no-op. */
  class PromotionTelemetry {
    const enabled: bool
    /** The phases written, in order. */
    var events: seq<Phase>
    var starts: seq<Stage>
    var closings: seq<Closing>

    constructor (enabled: bool)
      ensures this.enabled == enabled && events == [] && starts == [] && closings == []
    {
      this.enabled := enabled;
      events, starts, closings := [], [], [];
    }

    method Started(stage: Stage)
      modifies this
      ensures starts == old(starts) + [stage] && closings == old(closings)
      ensures events == old(events) + Written([StartPhase(stage)])
    {
      starts := starts + [stage];
      Emit(StartPhase(stage));
    }

    method Finished(stage: Stage, closing: Closing)
      modifies this
      ensures starts == old(starts) && closings == old(closings) + [closing]
      ensures events == old(events) + Written(TerminalPhases(stage, closing.verdict))
    {
      closings := closings + [closing];
      var phases := TerminalPhases(stage, closing.verdict);
      for i := 0 to |phases|
        invariant starts == old(starts) && closings == old(closings) + [closing]
        invariant events == old(events) + Written(phases[..i])
      {
        assert Written(phases[..i + 1]) == Written(phases[..i]) + Written([phases[i]]);
        Emit(phases[i]);
      }
      assert phases[..|phases|] == phases;
    }

    method Emit(phase: Phase)
      modifies this`events
      ensures events == old(events) + Written([phase])
    {
      if enabled {
        events := events + [phase];
      }
    }

    function Written(phases: seq<Phase>): seq<Phase> {
      if enabled then phases else []
    }
  }

  datatype RunResult = RunResult(outcomes: seq<Outcome>, totalTimedOut: bool) {
    predicate Ok() { outcomes != [] && forall i :: 0 <= i < |outcomes| ==> outcomes[i].verdict in PASSING_VERDICTS }
  }

  function Verdicts(outcomes: seq<Outcome>): (r: seq<Verdict>)
    ensures |r| == |outcomes|
  {
    seq(|outcomes|, i requires 0 <= i < |outcomes| => outcomes[i].verdict)
  }

  function CountFailures(outcomes: seq<Outcome>): nat {
    if outcomes == [] then 0
    else (if outcomes[0].verdict in PASSING_VERDICTS then 0 else 1) + CountFailures(outcomes[1..])
  }

  /** One stage's inputs: the matched releases, what their workers report and when. */
  datatype Run = Run(stage: Stage, matched: seq<Ref>, reports: seq<Report>, order: seq<nat>, late: Lateness,
                     cancelOn: Verdict -> bool) {
    ghost predicate Valid() { |reports| == |matched| && CompletionOrder(order, |matched|) }
  }

  /** A run that ends is one outcome per matched release, in reference order. */
  ghost predicate Complete(run: Run, result: RunResult)
    requires run.Valid()
  {
    && AllDone(run.reports) && DoneAt(run.reports, run.order)
    && result.outcomes == SortedByRef(Collected(run.matched, run.reports, run.order))
    && multiset(result.outcomes) == multiset(Collected(run.matched, run.reports, Identity(|run.matched|)))
    && (result.totalTimedOut <==> Cancels(run.matched, run.reports, run.order, run.late, run.cancelOn, |run.order|))
  }

  lemma EveryWorkerDone(run: Run)
    requires run.Valid() && DoneAt(run.reports, run.order)
    ensures AllDone(run.reports) && DoneAt(run.reports, Identity(|run.matched|))
    ensures multiset(Collected(run.matched, run.reports, run.order))
         == multiset(Collected(run.matched, run.reports, Identity(|run.matched|)))
  {
    var n := |run.matched|;
    forall i | 0 <= i < n ensures run.reports[i].Done? {
      assert Identity(n)[i] == i;
      assert i in multiset(run.order);
      var k :| 0 <= k < |run.order| && run.order[k] == i;
    }
    CollectedPermutes(run.matched, run.reports, run.order, Identity(n));
  }

  /** The interval a crashed run closes: every release that never reported counts as a failure. */
  ghost predicate CrashClosing(run: Run, closing: Closing)
  {
    && closing.verdict == Failed && closing.total == |run.matched|
    && exists landed: nat :: landed < |run.order| && DoneAt(run.reports, run.order[..landed])
         && run.order[landed] < |run.reports| && run.reports[run.order[landed]].Raises?
         && landed + closing.failures == |run.matched| && closing.failures >= 1
  }

  /** What the timeline of a run that matched something looks like when the run is over. */
  ghost predicate Bracketed(run: Run, telemetry: PromotionTelemetry, r: Result<RunResult, Crash>)
    requires run.Valid()
    reads telemetry
  {
    && telemetry.starts == [run.stage]
    && match r
       case Ok(result) =>
         var verdict := RunVerdict(Verdicts(result.outcomes), Success(run.stage));
         && Complete(run, result) && result.outcomes != []
         && telemetry.closings == [Closing(verdict, |run.matched|, CountFailures(result.outcomes))]
         && telemetry.events == telemetry.Written([StartPhase(run.stage)] + TerminalPhases(run.stage, verdict))
       case Err(Interrupted) =>
         telemetry.closings == [] && telemetry.events == telemetry.Written([StartPhase(run.stage)])
       case Err(_) =>
         && |telemetry.closings| == 1 && CrashClosing(run, telemetry.closings[0])
         && telemetry.events == telemetry.Written([StartPhase(run.stage)] + TerminalPhases(run.stage, Failed))
  }

  /**
   Nothing matched: one synthetic outcome and no telemetry. Otherwise the interval opens once and
   closes once, however the workers end; only an interrupt leaves it open.
   */
  method RunMatched(run: Run, telemetry: PromotionTelemetry) returns (r: Result<RunResult, Crash>)
    requires run.Valid() && telemetry.starts == [] && telemetry.closings == [] && telemetry.events == []
    modifies telemetry
    ensures run.matched == [] ==> r == Ok(RunResult([Outcome(NO_MATCH_REF, NoMatch)], false)) && unchanged(telemetry)
    ensures run.matched != [] ==> Bracketed(run, telemetry, r) && (r.Ok? <==> AllDone(run.reports))
  {
    if run.matched == [] {
      return Ok(RunResult([Outcome(NO_MATCH_REF, NoMatch)], false));
    }
    telemetry.Started(run.stage);
    var cancel := new CancelEvent();
    var collector := new Collector();
    var raised, landed := RunFanout(run.matched, run.reports, run.order, run.late, run.cancelOn, cancel, collector);
    if raised.Some? {
      CloseCrashed(run, raised.value, collector.outcomes, landed, telemetry);
      return Err(raised.value);
    }
    assert run.order[..landed] == run.order;
    EveryWorkerDone(run);
    var result := Conclude(run, collector.outcomes, cancel.isSet, telemetry);
    return Ok(result);
  }

  /** An exception still ends the interval; an interrupt exits at once. */
  method CloseCrashed(run: Run, crash: Crash, outcomes: seq<Outcome>, ghost landed: nat, telemetry: PromotionTelemetry)
    requires run.Valid() && landed < |run.order| == |run.matched| && DoneAt(run.reports, run.order[..landed])
    requires |outcomes| == landed && run.order[landed] < |run.reports| && run.reports[run.order[landed]].Raises?
    requires telemetry.starts == [run.stage] && telemetry.closings == []
    requires telemetry.events == telemetry.Written([StartPhase(run.stage)])
    modifies telemetry
    ensures Bracketed(run, telemetry, Err(crash))
  {
    if !crash.Interrupted? {
      var closing := Closing(Failed, |run.matched|, |run.matched| - |outcomes|);
      assert CrashClosing(run, closing);
      telemetry.Finished(run.stage, closing);
    }
  }

  /** Sort what was collected and close the interval with the folded verdict. */
  method Conclude(run: Run, outcomes: seq<Outcome>, timedOut: bool, telemetry: PromotionTelemetry)
    returns (result: RunResult)
    requires run.Valid() && run.matched != [] && DoneAt(run.reports, run.order)
    requires outcomes == Collected(run.matched, run.reports, run.order)
    requires timedOut == Cancels(run.matched, run.reports, run.order, run.late, run.cancelOn, |run.order|)
    modifies telemetry
    ensures Complete(run, result) && result.outcomes != []
    ensures telemetry.starts == old(telemetry.starts)
    ensures var verdict := RunVerdict(Verdicts(result.outcomes), Success(run.stage));
      && telemetry.closings
        == old(telemetry.closings) + [Closing(verdict, |run.matched|, CountFailures(result.outcomes))]
      && telemetry.events == old(telemetry.events) + telemetry.Written(TerminalPhases(run.stage, verdict))
  {
    OrderInRange(run.order, |run.matched|);
    EveryWorkerDone(run);
    result := RunResult(SortedByRef(outcomes), timedOut);
    assert |result.outcomes| == |multiset(result.outcomes)| == |run.matched|;
    var verdict := FoldVerdicts(Verdicts(result.outcomes), Success(run.stage));
    telemetry.Finished(run.stage, Closing(verdict, |result.outcomes|, CountFailures(result.outcomes)));
  }

  /** The same reports in any completion order give the same result, when no two releases share a reference. */
  lemma CompletionOrderIrrelevant(a: Run, b: Run, x: RunResult, y: RunResult)
    requires a.Valid() && b.Valid() && a.matched == b.matched && a.reports == b.reports
    requires forall i, j :: 0 <= i < j < |a.matched| ==> a.matched[i] != a.matched[j]
    requires Complete(a, x) && Complete(b, y)
    ensures x.outcomes == y.outcomes
  {
    CollectedPermutes(a.matched, a.reports, a.order, b.order);
    CollectedDistinct(a);
    CollectedDistinct(b);
    SortedUnique(Collected(a.matched, a.reports, a.order), Collected(b.matched, b.reports, b.order));
  }

  lemma CollectedDistinct(run: Run)
    requires run.Valid() && DoneAt(run.reports, run.order)
    requires forall i, j :: 0 <= i < j < |run.matched| ==> run.matched[i] != run.matched[j]
    ensures DistinctRefs(SortedByRef(Collected(run.matched, run.reports, run.order)))
  {
    EveryWorkerDone(run);
    var n := |run.matched|;
    var plain := Collected(run.matched, run.reports, Identity(n));
    var sorted := SortedByRef(Collected(run.matched, run.reports, run.order));
    assert forall i :: 0 <= i < n ==> plain[i].ref == run.matched[i];
    DistinctPermutes(plain, sorted);
  }

  lemma DistinctPermutes(a: seq<Outcome>, b: seq<Outcome>)
    requires DistinctRefs(a) && multiset(a) == multiset(b)
    ensures DistinctRefs(b)
  {
    forall i, j | 0 <= i < j < |b| ensures b[i].ref != b[j].ref {
      assert b[i] in multiset(a) && b[j] in multiset(a);
      var p :| 0 <= p < |a| && a[p] == b[i];
      var q :| 0 <= q < |a| && a[q] == b[j];
      if p == q {
        CountedOnce(a, p);
        CountedTwice(b, i, j);
      }
    }
  }

  lemma CountedOnce(a: seq<Outcome>, p: nat)
    requires DistinctRefs(a) && p < |a|
    ensures multiset(a)[a[p]] == 1
  {
    assert a == a[..p] + [a[p]] + a[p + 1..];
    assert a[p] !in a[..p] && a[p] !in a[p + 1..];
    assert a[p] !in multiset(a[..p]) && a[p] !in multiset(a[p + 1..]);
  }

  lemma CountedTwice(b: seq<Outcome>, i: nat, j: nat)
    requires i < j < |b| && b[i] == b[j]
    ensures multiset(b)[b[i]] >= 2
  {
    assert b == b[..i] + [b[i]] + b[i + 1..j] + [b[j]] + b[j + 1..];
  }

  /** A finished run records a promotion exactly when it is ok and something really passed. */
  lemma PromotedMeansOk(run: Run, result: RunResult)
    requires run.Valid() && Complete(run, result) && result.outcomes != []
    ensures var phases := TerminalPhases(run.stage, RunVerdict(Verdicts(result.outcomes), Success(run.stage)));
      (Promoted in phases || RolloutOk in phases)
      <==> result.Ok() && exists i :: 0 <= i < |result.outcomes| && result.outcomes[i].verdict != SkippedSuspended
  {
    var vs := Verdicts(result.outcomes);
    GreenPhases(run.stage, vs);
    OkMeansAllPassing(result);
    SuspendedOutcomes(result.outcomes);
  }

  lemma SuspendedOutcomes(outcomes: seq<Outcome>)
    requires outcomes != []
    ensures AllSuspended(Verdicts(outcomes))
      <==> forall i :: 0 <= i < |outcomes| ==> outcomes[i].verdict == SkippedSuspended
  {
    var vs := Verdicts(outcomes);
    forall i | 0 <= i < |outcomes| ensures outcomes[i].verdict in vs {
      assert vs[i] in vs;
    }
    if !AllSuspended(vs) {
      var v :| v in vs && v != SkippedSuspended;
      var i :| 0 <= i < |vs| && vs[i] == v;
      assert outcomes[i].verdict == v;
    }
  }

  /** `ok`, no failures counted and a passing run verdict are one and the same. */
  lemma OkMeansAllPassing(result: RunResult)
    requires result.outcomes != []
    ensures result.Ok() <==> AllPassing(Verdicts(result.outcomes))
    ensures result.Ok() <==> CountFailures(result.outcomes) == 0
    ensures forall stage :: RunVerdict(Verdicts(result.outcomes), Success(stage)) in PASSING_VERDICTS <==> result.Ok()
  {
    var vs := Verdicts(result.outcomes);
    forall i | 0 <= i < |vs| ensures result.outcomes[i].verdict in vs {
      assert vs[i] in vs;
    }
    if v :| v in vs && v !in PASSING_VERDICTS {
      var i :| 0 <= i < |vs| && vs[i] == v;
      assert result.outcomes[i].verdict == v;
    }
    NoFailures(result.outcomes);
    PassingRun(vs, Success(Rollout));
    PassingRun(vs, Success(HelmTest));
  }

  lemma {:induction false} NoFailures(outcomes: seq<Outcome>)
    ensures CountFailures(outcomes) == 0
      <==> forall i :: 0 <= i < |outcomes| ==> outcomes[i].verdict in PASSING_VERDICTS
  {
    if outcomes != [] {
      NoFailures(outcomes[1..]);
      assert outcomes == [outcomes[0]] + outcomes[1..];
    }
  }

  /** Which outcomes make fail-fast abandon the peers: a release that failed, not one that was skipped. */
  function FailFast(enabled: bool): Verdict -> bool {
    (v: Verdict) => enabled && (v == Failed || v == TimedOut)
  }

  /** Inside its deadline, a run is cut short exactly when fail-fast is on and some release really failed. */
  lemma CutExactlyOnFailure(run: Run, result: RunResult, enabled: bool)
    requires run.Valid() && Complete(run, result) && run.cancelOn == FailFast(enabled)
    requires forall k :: !run.late(k)
    ensures result.totalTimedOut <==>
      enabled && exists i :: 0 <= i < |result.outcomes| && result.outcomes[i].verdict in {Failed, TimedOut}
  {
    var collected := Collected(run.matched, run.reports, run.order);
    assert multiset(result.outcomes) == multiset(collected);
    if result.totalTimedOut {
      var k :| 0 <= k < |run.order| && Trouble(run.reports, run.order, run.late, run.cancelOn, k);
      assert collected[k] in multiset(result.outcomes);
      var i :| 0 <= i < |result.outcomes| && result.outcomes[i] == collected[k];
      assert result.outcomes[i].verdict in {Failed, TimedOut};
    }
    if i :| enabled && 0 <= i < |result.outcomes| && result.outcomes[i].verdict in {Failed, TimedOut} {
      assert result.outcomes[i] in multiset(collected);
      var k :| 0 <= k < |collected| && collected[k] == result.outcomes[i];
      assert Trouble(run.reports, run.order, run.late, run.cancelOn, k);
    }
  }
}
