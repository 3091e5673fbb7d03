/** The verdict of one release, the verdict of a run, and the lifecycle phases a run records. */
module PromotionState {
  datatype Verdict = Ready | Passed | Failed | TimedOut | SkippedSuspended | SkippedNotReady | NoMatch

  datatype Stage = Rollout | HelmTest

  datatype Phase =
    | WaitingRollout | RolloutOk
    | HelmTestRun | HelmTestOk | HelmTestFailed
    | Promoted | Abandoned

  /** A skip of a suspended release is not a failure; SkippedNotReady is. */
  const PASSING_VERDICTS: set<Verdict> := {Ready, Passed, SkippedSuspended}

  /** Worst first. */
  const SEVERITY: seq<Verdict> := [Failed, TimedOut, NoMatch, SkippedNotReady]

  /** The verdict an all-green run of this stage reports. */
  function Success(stage: Stage): Verdict {
    match stage
    case Rollout => Ready
    case HelmTest => Passed
  }

  function StartPhase(stage: Stage): Phase {
    match stage
    case Rollout => WaitingRollout
    case HelmTest => HelmTestRun
  }

  function TerminalPhases(stage: Stage, verdict: Verdict): seq<Phase> {
    match (stage, verdict)
    case (Rollout, Ready) => [RolloutOk]
    case (Rollout, Failed) => [Abandoned]
    case (Rollout, TimedOut) => [Abandoned]
    case (HelmTest, Passed) => [HelmTestOk, Promoted]
    case (HelmTest, Failed) => [HelmTestFailed]
    case (HelmTest, TimedOut) => [HelmTestFailed]
    case _ => []
  }

  function Seen(verdicts: seq<Verdict>): set<Verdict> { set v | v in verdicts }

  /** The first of `order` that was seen. */
  function Worst(order: seq<Verdict>, seen: set<Verdict>, otherwise: Verdict): Verdict {
    if order == [] then otherwise
    else if order[0] in seen then order[0]
    else Worst(order[1..], seen, otherwise)
  }

  function RunVerdict(verdicts: seq<Verdict>, success: Verdict): Verdict {
    var seen := Seen(verdicts);
    var otherwise := if seen != {} && seen <= {SkippedSuspended} then SkippedSuspended else success;
    Worst(SEVERITY, seen, otherwise)
  }

  /** Scan the severities, then look for a run of nothing but suspended releases. */
  method FoldVerdicts(verdicts: seq<Verdict>, success: Verdict) returns (v: Verdict)
    ensures v == RunVerdict(verdicts, success)
  {
    var seen := Seen(verdicts);
    var otherwise := if seen != {} && seen <= {SkippedSuspended} then SkippedSuspended else success;
    for i := 0 to |SEVERITY|
      invariant Worst(SEVERITY, seen, otherwise) == Worst(SEVERITY[i..], seen, otherwise)
    {
      if SEVERITY[i] in seen {
        return SEVERITY[i];
      }
      assert SEVERITY[i..][1..] == SEVERITY[i + 1..];
    }
    return otherwise;
  }

  predicate AllPassing(verdicts: seq<Verdict>) {
    forall v :: v in verdicts ==> v in PASSING_VERDICTS
  }

  predicate AllSuspended(verdicts: seq<Verdict>) {
    verdicts != [] && forall v :: v in verdicts ==> v == SkippedSuspended
  }

  lemma WorstOfFour(seen: set<Verdict>, otherwise: Verdict)
    ensures Worst(SEVERITY, seen, otherwise) ==
      if Failed in seen then Failed else if TimedOut in seen then TimedOut
      else if NoMatch in seen then NoMatch else if SkippedNotReady in seen then SkippedNotReady else otherwise
  {
    var s1, s2, s3, s4 := [TimedOut, NoMatch, SkippedNotReady], [NoMatch, SkippedNotReady], [SkippedNotReady], [];
    assert SEVERITY[1..] == s1 && s1[1..] == s2 && s2[1..] == s3 && s3[1..] == s4;
    assert Worst(s3, seen, otherwise)
      == if SkippedNotReady in seen then SkippedNotReady else Worst(s4, seen, otherwise);
    assert Worst(s2, seen, otherwise) == if NoMatch in seen then NoMatch else Worst(s3, seen, otherwise);
    assert Worst(s1, seen, otherwise) == if TimedOut in seen then TimedOut else Worst(s2, seen, otherwise);
  }

  /** What each run verdict says about the releases, exactly. */
  lemma RunVerdictMeaning(verdicts: seq<Verdict>, success: Verdict)
    requires success == Ready || success == Passed
    ensures var v := RunVerdict(verdicts, success);
      && (v == Failed <==> Failed in verdicts)
      && (v == TimedOut <==> TimedOut in verdicts && Failed !in verdicts)
      && (v == NoMatch <==> NoMatch in verdicts && Failed !in verdicts && TimedOut !in verdicts)
      && (v == SkippedNotReady
        <==> SkippedNotReady in verdicts && Failed !in verdicts && TimedOut !in verdicts && NoMatch !in verdicts)
      && (v == SkippedSuspended <==> AllSuspended(verdicts))
      && (v == success <==> AllPassing(verdicts) && !AllSuspended(verdicts))
  {
    var seen := Seen(verdicts);
    WorstOfFour(seen, if seen != {} && seen <= {SkippedSuspended} then SkippedSuspended else success);
    assert forall v: Verdict :: v in seen <==> v in verdicts;
    if verdicts != [] {
      assert verdicts[0] in seen;
    }
    if AllSuspended(verdicts) {
      assert forall v :: v in verdicts ==> v == SkippedSuspended;
    }
  }

  /** A run is reported green exactly when it has outcomes and all of them pass. */
  lemma PassingRun(verdicts: seq<Verdict>, success: Verdict)
    requires verdicts != [] && (success == Ready || success == Passed)
    ensures RunVerdict(verdicts, success) in PASSING_VERDICTS <==> AllPassing(verdicts)
  {
    RunVerdictMeaning(verdicts, success);
    if !AllPassing(verdicts) {
      var v :| v in verdicts && v !in PASSING_VERDICTS;
      assert v in {Failed, TimedOut, NoMatch, SkippedNotReady};
    }
  }

  lemma VerdictOrderIrrelevant(a: seq<Verdict>, b: seq<Verdict>, success: Verdict)
    requires multiset(a) == multiset(b)
    ensures RunVerdict(a, success) == RunVerdict(b, success)
  {
    forall v: Verdict ensures v in Seen(a) <==> v in Seen(b) {
      assert v in a <==> v in multiset(a);
      assert v in b <==> v in multiset(b);
    }
    assert Seen(a) == Seen(b);
  }

  /**
   Folding two batches and then their verdicts is folding everything at once, except when one batch
   is empty and the other is all suspended: an empty batch reports success.
   */
  lemma VerdictsCompose(a: seq<Verdict>, b: seq<Verdict>, success: Verdict)
    requires success == Ready || success == Passed
    ensures RunVerdict(a + b, success) == RunVerdict([RunVerdict(a, success), RunVerdict(b, success)], success)
      <==> !(a == [] && AllSuspended(b)) && !(b == [] && AllSuspended(a))
  {
    var both := [RunVerdict(a, success), RunVerdict(b, success)];
    RunVerdictMeaning(a, success);
    RunVerdictMeaning(b, success);
    RunVerdictMeaning(a + b, success);
    RunVerdictMeaning(both, success);
    assert forall v: Verdict :: v in a + b <==> v in a || v in b;
    assert both[0] in both && both[1] in both;
    assert a != [] ==> a[0] in a;
    assert b != [] ==> b[0] in b;
    assert AllSuspended(a + b) <==>
      a + b != [] && (a == [] || AllSuspended(a)) && (b == [] || AllSuspended(b));
    assert AllSuspended(both) <==> both[0] == SkippedSuspended && both[1] == SkippedSuspended;
  }

  /** The exception is real: next to a suspended release an empty batch would read as green. */
  lemma EmptyBatchDoesNotCompose(success: Verdict)
    requires success == Ready || success == Passed
    ensures RunVerdict([SkippedSuspended] + [], success)
         != RunVerdict([RunVerdict([SkippedSuspended], success), RunVerdict([], success)], success)
  {
    var one, none: seq<Verdict> := [SkippedSuspended], [];
    assert AllSuspended(one);
    VerdictsCompose(one, none, success);
  }

  /** The lifecycle records a promotion (or a good rollout) only for a run that is green and did something. */
  lemma GreenPhases(stage: Stage, verdicts: seq<Verdict>)
    requires verdicts != []
    ensures (exists p ::
        p in {RolloutOk, HelmTestOk, Promoted} && p in TerminalPhases(stage, RunVerdict(verdicts, Success(stage))))
      <==> AllPassing(verdicts) && exists v :: v in verdicts && (v == Ready || v == Passed)
    ensures Promoted in TerminalPhases(stage, RunVerdict(verdicts, Success(stage)))
      <==> stage == HelmTest && AllPassing(verdicts) && !AllSuspended(verdicts)
    ensures RolloutOk in TerminalPhases(stage, RunVerdict(verdicts, Success(stage)))
      <==> stage == Rollout && AllPassing(verdicts) && !AllSuspended(verdicts)
  {
    RunVerdictMeaning(verdicts, Success(stage));
    var v := RunVerdict(verdicts, Success(stage));
    assert RolloutOk in TerminalPhases(Rollout, Ready) by { assert TerminalPhases(Rollout, Ready)[0] == RolloutOk; }
    assert TerminalPhases(HelmTest, Passed)[1] == Promoted;
    if exists p :: p in {RolloutOk, HelmTestOk, Promoted} && p in TerminalPhases(stage, v) {
      assert v == Success(stage);
    }
    if AllPassing(verdicts) && !AllSuspended(verdicts) {
      var w :| w in verdicts && w != SkippedSuspended;
      assert w == Ready || w == Passed;
    }
  }
}
