/** How long a whole monitor run can take, when a bounded pool of workers watches its releases. */
module PromotionTiming {
  import opened Classify
  import opened Monitor

  /** When each watch begins and ends, in the order in which the pool takes them up. */
  datatype Schedule = Schedule(starts: seq<real>, ends: seq<real>)

  /**
   A pool of `workers` leaves no worker idle while a watch waits: watch `i` begins at once when it is
   among the first, and otherwise at the latest when all but the last `workers - 1` before it have ended.
   */
  ghost predicate Pooled(s: Schedule, workers: nat, begun: real) {
    && workers > 0 && |s.starts| == |s.ends|
    && forall i :: 0 <= i < |s.starts| ==> TakenUp(s, workers, begun, i)
  }

  ghost predicate TakenUp(s: Schedule, workers: nat, begun: real, i: nat)
    requires workers > 0 && i < |s.starts| == |s.ends|
  {
    s.starts[i] <= begun || exists j :: 0 <= j <= i - workers && s.starts[i] <= s.ends[j]
  }

  /** Every watch ends within `grace` of the limit, or of its own start when it starts later. */
  ghost predicate WatchesEnd(s: Schedule, limit: real, grace: real) {
    |s.starts| == |s.ends| && forall i :: 0 <= i < |s.starts| ==> s.ends[i] <= Max(s.starts[i], limit) + grace
  }

  /** The rounds of the pool up to the one that watch `i` is in: ceil((i + 1) / workers). */
  function Round(i: nat, workers: nat): nat
    requires workers > 0
  {
    if i < workers then 1 else 1 + Round(i - workers, workers)
  }

  lemma {:induction false} RoundIsCeiling(i: nat, workers: nat)
    requires workers > 0
    ensures (Round(i, workers) - 1) * workers < i + 1 <= Round(i, workers) * workers
  {
    if i >= workers {
      RoundIsCeiling(i - workers, workers);
    }
  }

  /** A grace for every round. */
  function Graces(i: nat, workers: nat, grace: real): real
    requires workers > 0
  {
    if i < workers then grace else grace + Graces(i - workers, workers, grace)
  }

  lemma {:induction false} GracesAre(i: nat, workers: nat, grace: real)
    requires workers > 0
    ensures Graces(i, workers, grace) == Round(i, workers) as real * grace
  {
    if i >= workers {
      GracesAre(i - workers, workers, grace);
      var rounds := Round(i - workers, workers);
      assert (1 + rounds) as real * grace == grace + rounds as real * grace;
    }
  }

  lemma {:induction false} GracesGrow(j: nat, i: nat, workers: nat, grace: real)
    requires workers > 0 && 0.0 <= grace && j <= i
    ensures grace <= Graces(j, workers, grace) <= Graces(i, workers, grace)
    decreases i
  {
    if i >= workers {
      GracesGrow(if j < workers then 0 else j - workers, i - workers, workers, grace);
    }
  }

  lemma {:induction false} EndsInRound(s: Schedule, workers: nat, begun: real, limit: real, grace: real, i: nat)
    requires Pooled(s, workers, begun) && WatchesEnd(s, limit, grace) && 0.0 <= grace && i < |s.starts|
    ensures s.ends[i] <= Max(begun, limit) + Graces(i, workers, grace)
  {
    assert TakenUp(s, workers, begun, i);
    GracesGrow(0, i, workers, grace);
    if s.starts[i] > begun {
      var j :| 0 <= j <= i - workers && s.starts[i] <= s.ends[j];
      EndsInRound(s, workers, begun, limit, grace, j);
      GracesGrow(j, i - workers, workers, grace);
    }
  }

  /**
   Whatever the cluster answers, a fan-out over `n` releases with `workers` workers is over no later than
   ceil(n / workers) graces after its total deadline, and after any moment by which it was cancelled.
   */
  lemma RunEnds(s: Schedule, budgets: Budgets, workers: nat, begun: real, limit: real, i: nat)
    requires Pooled(s, workers, begun) && WatchesEnd(s, limit, WorkerGrace(budgets)) && 0.0 <= budgets.perPoll
    requires i < |s.ends|
    ensures s.ends[i] <= Max(begun, limit) + Round(|s.ends| - 1, workers) as real * WorkerGrace(budgets)
  {
    var last := |s.ends| - 1;
    WorkerGraceIs(budgets);
    EndsInRound(s, workers, begun, limit, WorkerGrace(budgets), i);
    GracesGrow(i, last, workers, WorkerGrace(budgets));
    GracesAre(last, workers, WorkerGrace(budgets));
  }

  /** One release as the pool is handed it. */
  datatype Target = Target(initial: Status, namespace: string, world: World)

  /** One worker's watch, from the moment the pool takes it up until the worker is free. */
  method WatchOne(target: Target, requested: string, start: real, budgets: Budgets, totalDeadline: real,
                  ghost cut: real)
    returns (end: real)
    requires 0.0 <= budgets.perHr && Prompt(target.world, budgets.perPoll)
    ensures end <= Max(start, totalDeadline) + WorkerGrace(budgets)
    ensures CancelledFrom(target.world, cut) ==> end <= Max(start, cut) + WorkerGrace(budgets)
  {
    var session := new Session(target.world, start);
    var outcome, evaluations, ended :=
      Watch(target.initial, requested, target.namespace, session, budgets, totalDeadline, cut);
    WorkerFree(budgets, ended, session.now, |session.asked|, Max(start, totalDeadline));
    if CancelledFrom(target.world, cut) {
      WorkerFree(budgets, ended, session.now, |session.asked|, Max(start, cut));
    }
    return session.now;
  }

  /**
   Every watch of a run, whenever the pool takes it up, frees its worker within the grace of the
   deadline and of a cancellation.
   */
  method WatchAll(targets: seq<Target>, requested: string, starts: seq<real>, budgets: Budgets, totalDeadline: real,
                  ghost cut: real)
    returns (ends: seq<real>)
    requires |targets| == |starts| && 0.0 <= budgets.perHr
    requires forall i :: 0 <= i < |targets| ==> Prompt(targets[i].world, budgets.perPoll)
    ensures WatchesEnd(Schedule(starts, ends), totalDeadline, WorkerGrace(budgets))
    ensures (forall i :: 0 <= i < |targets| ==> CancelledFrom(targets[i].world, cut)) ==>
      WatchesEnd(Schedule(starts, ends), cut, WorkerGrace(budgets))
  {
    ends := [];
    for i := 0 to |starts|
      invariant |ends| == i
      invariant forall j :: 0 <= j < i ==> ends[j] <= Max(starts[j], totalDeadline) + WorkerGrace(budgets)
      invariant forall j :: 0 <= j < i && CancelledFrom(targets[j].world, cut) ==>
        ends[j] <= Max(starts[j], cut) + WorkerGrace(budgets)
    {
      var end := WatchOne(targets[i], requested, starts[i], budgets, totalDeadline, cut);
      ends := ends + [end];
    }
  }
}
