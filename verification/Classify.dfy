/** Reading one HelmRelease status: is the release done, and if not, what is it waiting on? */
module Classify {
  import opened Wrappers
  import opened PromotionState

  /** One status condition; `status` is "True", "False" or "Unknown". */
  datatype Condition = Condition(kind: string, status: string, reason: string)

  datatype Status = Status(suspended: bool, generation: int, observedGeneration: int,
                           historyVersion: Option<string>, conditions: seq<Condition>)

  /** An owned workload, named kind/namespace/name. */
  datatype Workload = Workload(name: string, converged: bool)

  datatype PhaseName =
    | Suspended | Stalled | ReadyFalse(reason: string) | TestSuccessFalse
    | GenerationLag | HistoryLag | WaitingForReady(reason: string) | WaitingForWorkloads(pending: nat) | ReadyPhase
    | TimedOutPhase | Cancelled | Disappeared | PollError | WorkloadsPollError

  /** The dedupe key of a recorded transition. */
  datatype Signature =
    | NoSignature
    | WaitingOn(readyStatus: string, readyReason: string, observedGeneration: int, pending: set<string>)
    | PollFailed(stderr: string)
    | ListingFailed(stderr: string)

  datatype Decision =
    | Terminal(verdict: Verdict, reason: string, phase: PhaseName)
    | Waiting(phase: PhaseName, signature: Signature, needsWorkloads: bool)

  /** `Ready=False` reasons that Flux will not retry out of. */
  const TERMINAL_READY_REASONS: set<string> :=
    {"InstallFailed", "UpgradeFailed", "ReconciliationFailed", "ArtifactFailed", "RetryExhausted"}

  /** The first condition of a kind. */
  function Find(conditions: seq<Condition>, kind: string): Option<Condition> {
    if conditions == [] then None
    else if conditions[0].kind == kind then Some(conditions[0])
    else Find(conditions[1..], kind)
  }

  predicate Is(status: Status, kind: string, value: string) {
    var c := Find(status.conditions, kind);
    c.Some? && c.value.status == value
  }

  function Names(workloads: seq<Workload>): seq<string> {
    if workloads == [] then []
    else (if workloads[0].converged then [] else [workloads[0].name]) + Names(workloads[1..])
  }

  function Classify(status: Status, requested: string, workloads: Option<seq<Workload>>): Decision {
    var stalled := Find(status.conditions, "Stalled");
    var ready := Find(status.conditions, "Ready");
    var test := Find(status.conditions, "TestSuccess");
    var released := Find(status.conditions, "Released");
    if status.suspended then
      Terminal(SkippedSuspended, "Suspended", Suspended)
    else if stalled.Some? && stalled.value.status == "True" then
      Terminal(Failed, "Stalled", Stalled)
    else if ready.Some? && ready.value.status == "False" && ready.value.reason in TERMINAL_READY_REASONS then
      Terminal(Failed, ready.value.reason, ReadyFalse(ready.value.reason))
    else if test.Some? && test.value.status == "False" && released.Some? && released.value.status == "True" then
      Terminal(Failed, if test.value.reason != "" then test.value.reason else "TestFailed", TestSuccessFalse)
    else
      var readyStatus := if ready.Some? then ready.value.status else "Unknown";
      var readyReason := if ready.Some? then ready.value.reason else "";
      var genCaughtUp := status.observedGeneration == status.generation;
      var historyMatches := status.historyVersion == Some(requested);
      var convergedHr := genCaughtUp && historyMatches && ready.Some? && ready.value.status == "True";
      var pending := if convergedHr && workloads.Some? then Names(workloads.value) else [];
      if convergedHr && workloads.Some? && pending == [] then
        Terminal(Ready, "Ready", ReadyPhase)
      else
        Waiting(PhaseLabel(readyStatus, readyReason, genCaughtUp, historyMatches, |pending|),
                WaitingOn(readyStatus, readyReason, status.observedGeneration, set n | n in pending),
                convergedHr && workloads.None?)
  }

  function PhaseLabel(readyStatus: string, readyReason: string, genCaughtUp: bool, historyMatches: bool,
                      pending: nat): PhaseName
  {
    if !genCaughtUp then GenerationLag
    else if !historyMatches then HistoryLag
    else if readyStatus != "True" then WaitingForReady(readyReason)
    else if pending > 0 then WaitingForWorkloads(pending)
    else ReadyPhase
  }

  /** The release itself reports the requested version, reconciled and ready. */
  predicate Converged(status: Status, requested: string) {
    status.observedGeneration == status.generation && status.historyVersion == Some(requested)
      && Is(status, "Ready", "True")
  }

  predicate AllConverged(workloads: seq<Workload>) {
    forall i :: 0 <= i < |workloads| ==> workloads[i].converged
  }

  /** Flux will not bring this release up without help. */
  predicate Broken(status: Status) {
    || Is(status, "Stalled", "True")
    || (Is(status, "Ready", "False") && Find(status.conditions, "Ready").value.reason in TERMINAL_READY_REASONS)
    || (Is(status, "TestSuccess", "False") && Is(status, "Released", "True"))
  }

  lemma {:induction false} NoNamesMeansConverged(workloads: seq<Workload>)
    ensures Names(workloads) == [] <==> AllConverged(workloads)
  {
    if workloads != [] {
      NoNamesMeansConverged(workloads[1..]);
      if AllConverged(workloads) {
        forall i | 0 <= i < |workloads[1..]| ensures workloads[1..][i].converged {
          assert workloads[i + 1].converged;
        }
      } else if workloads[0].converged {
        var i :| 0 <= i < |workloads| && !workloads[i].converged;
        assert !workloads[1..][i - 1].converged;
      }
    }
  }

  /** Which statuses end the watch, and how: each verdict exactly. */
  lemma VerdictsExactly(status: Status, requested: string, workloads: Option<seq<Workload>>)
    ensures var d := Classify(status, requested, workloads);
      && (d.Terminal? && d.verdict == SkippedSuspended <==> status.suspended)
      && (d.Terminal? && d.verdict == Failed <==> !status.suspended && Broken(status))
      && (d.Terminal? && d.verdict == Ready <==>
            !status.suspended && !Broken(status) && Converged(status, requested)
            && workloads.Some? && AllConverged(workloads.value))
      && (d.Terminal? ==> d.verdict in {SkippedSuspended, Failed, Ready})
  {
    if workloads.Some? {
      NoNamesMeansConverged(workloads.value);
    }
  }

  /**
   Workloads are read exactly when nothing but them is missing, and reading them can only end in Ready or
   more waiting.
   */
  lemma WorkloadsDecideLast(status: Status, requested: string, workloads: seq<Workload>)
    ensures var d := Classify(status, requested, None);
      && (d.Waiting? && d.needsWorkloads <==> !status.suspended && !Broken(status) && Converged(status, requested))
      && (d.Waiting? && d.needsWorkloads ==>
            var e := Classify(status, requested, Some(workloads));
            if e.Terminal? then e.verdict == Ready
            else e.phase.WaitingForWorkloads? && e.phase.pending > 0 && !e.needsWorkloads)
      && (!(d.Waiting? && d.needsWorkloads) ==> Classify(status, requested, Some(workloads)) == d)
  {
  }

  /** A transition is skipped when its dedupe key repeats; the key does not settle the phase. */
  lemma SameSignatureOtherPhase()
    ensures exists a, b: Status, v ::
      var x, y := Classify(a, v, None), Classify(b, v, None);
      x.Waiting? && y.Waiting? && x.signature == y.signature && x.phase != y.phase
  {
    var a := Status(false, 1, 1, None, []);
    var b := Status(false, 2, 1, None, []);
    var x, y := Classify(a, "1", None), Classify(b, "1", None);
    assert x.phase == HistoryLag && y.phase == GenerationLag;
    assert x.signature == y.signature;
  }

  /** The workloads a waiting decision counts. */
  function Pending(status: Status, requested: string, workloads: Option<seq<Workload>>): seq<string> {
    if workloads.Some? && Converged(status, requested) then Names(workloads.value) else []
  }

  predicate CaughtUp(status: Status) { status.observedGeneration == status.generation }

  predicate HasVersion(status: Status, requested: string) { status.historyVersion == Some(requested) }

  /** What else must agree, beside the key, for two waiting statuses to be in one phase: no more and no less. */
  lemma SamePhaseExactly(a: Status, b: Status, requested: string, v: Option<seq<Workload>>, w: Option<seq<Workload>>)
    requires var x, y := Classify(a, requested, v), Classify(b, requested, w);
      x.Waiting? && y.Waiting? && x.signature == y.signature
    ensures Classify(a, requested, v).phase == Classify(b, requested, w).phase <==>
      && CaughtUp(a) == CaughtUp(b)
      && (CaughtUp(a) ==> HasVersion(a, requested) == HasVersion(b, requested))
      && |Pending(a, requested, v)| == |Pending(b, requested, w)|
  {
    var x, y := Pending(a, requested, v), Pending(b, requested, w);
    assert (set n | n in x) == Classify(a, requested, v).signature.pending;
    assert (set n | n in y) == Classify(b, requested, w).signature.pending;
    BothEmpty(x, y);
    BothEmpty(y, x);
  }

  lemma BothEmpty(x: seq<string>, y: seq<string>)
    requires (set n | n in x) == (set n | n in y)
    ensures y == [] ==> x == []
  {
    var elements := set n | n in x;
    assert x != [] ==> x[0] in elements;
    assert x != [] ==> x[0] in y;
  }

  /** When each workload is listed once, only the generation can part them, and after it the history. */
  lemma SignatureSettlesPhase(a: Status, b: Status, requested: string, v: Option<seq<Workload>>,
                              w: Option<seq<Workload>>)
    requires var x, y := Classify(a, requested, v), Classify(b, requested, w);
      x.Waiting? && y.Waiting? && x.signature == y.signature
    requires v.Some? ==> Distinct(Names(v.value))
    requires w.Some? ==> Distinct(Names(w.value))
    ensures Classify(a, requested, v).phase == Classify(b, requested, w).phase <==>
      CaughtUp(a) == CaughtUp(b) && (CaughtUp(a) ==> HasVersion(a, requested) == HasVersion(b, requested))
  {
    var x, y := Pending(a, requested, v), Pending(b, requested, w);
    assert (set n | n in x) == Classify(a, requested, v).signature.pending;
    assert (set n | n in y) == Classify(b, requested, w).signature.pending;
    SameElementsSameLength(x, y);
    SamePhaseExactly(a, b, requested, v, w);
  }

  ghost predicate Distinct(names: seq<string>) {
    forall i, j :: 0 <= i < j < |names| ==> names[i] != names[j]
  }

  lemma SameElementsSameLength(x: seq<string>, y: seq<string>)
    requires Distinct(x) && Distinct(y) && (set n | n in x) == (set n | n in y)
    ensures |x| == |y|
  {
    DistinctSize(x);
    DistinctSize(y);
  }

  lemma {:induction false} DistinctSize(x: seq<string>)
    requires Distinct(x)
    ensures |set n | n in x| == |x|
  {
    if x != [] {
      var front, last := x[..|x| - 1], x[|x| - 1];
      DistinctSize(front);
      assert x == front + [last];
      assert (set n | n in x) == (set n | n in front) + {last};
    }
  }
}
