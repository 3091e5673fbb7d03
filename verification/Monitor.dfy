/**
 Watching one HelmRelease until it converges, fails, disappears or runs out of budget.
 Time only passes in sleeps and kubectl calls; each call takes at most the per-poll budget.
 */
module Monitor {
  import opened Wrappers
  import opened PromotionState
  import opened Classify

  const POLL_INTERVAL: real := 3.0
  const TRANSITIONS_MAX: nat := 5
  const SIGNATURE_MAX: nat := 80
  const DIAGNOSTICS_WORKLOAD_CAP: nat := 5

  datatype PollReply = Fresh(status: Status) | PollFlaked(stderr: string) | PollBroke
  datatype ListReply = Listed(workloads: seq<Workload>) | ListFlaked(stderr: string) | ListBroke

  /**
   Everything the watcher cannot see coming: replies, how long they take, and whether the shared flag
   is set when it checks it for the k-th time, at some moment.
   */
  datatype World = World(jitter: real, poll: nat -> PollReply, pollTime: nat -> real,
                         list: nat -> ListReply, listTime: nat -> real, cancelled: (nat, real) -> bool,
                         eventTime: nat -> real)

  /** What the diagnostics of a failed release ask the cluster for; a failing answer is quoted like any other. */
  datatype EventQuery = NamespaceEvents(namespace: string) | WorkloadEvents(workload: string)

  ghost predicate Prompt(world: World, perPoll: real) {
    && 0.0 <= world.jitter <= POLL_INTERVAL && 0.0 <= perPoll
    && (forall k :: 0.0 <= world.pollTime(k) <= perPoll)
    && (forall k :: 0.0 <= world.listTime(k) <= perPoll)
    && (forall k :: 0.0 <= world.eventTime(k) <= perPoll)
  }

  /** A peer has set the flag by `cut`, and nothing clears it. */
  ghost predicate CancelledFrom(world: World, cut: real) {
    forall k, time :: time >= cut ==> world.cancelled(k, time)
  }

  predicate At(s: string, part: string, i: int) {
    0 <= i <= |s| - |part| && s[i..i + |part|] == part
  }

  predicate Contains(s: string, part: string) {
    exists i :: 0 <= i <= |s| - |part| && At(s, part, i)
  }

  /** kubectl says that the release is gone. */
  predicate SaysNotFound(stderr: string) { Contains(stderr, "NotFound") || Contains(stderr, "not found") }

  function Clip(s: string): string { if |s| <= SIGNATURE_MAX then s else s[..SIGNATURE_MAX] }

  function LastOf(s: seq<PhaseName>): seq<PhaseName> {
    if |s| <= TRANSITIONS_MAX then s else s[|s| - TRANSITIONS_MAX..]
  }

  /** The cluster and the clock, as one watcher meets them. */
  class Session {
    const world: World
    var now: real
    var polls: nat
    var lists: nat
    var checks: nat
    var asked: seq<EventQuery>

    constructor (world: World, now: real)
      ensures this.world == world && this.now == now && polls == lists == checks == 0 && asked == []
    {
      this.world, this.now := world, now;
      polls, lists, checks := 0, 0, 0;
      asked := [];
    }

    method Sleep(d: real)
      modifies this`now
      ensures now == old(now) + d
    {
      now := now + d;
    }

    method IsCancelled() returns (r: bool)
      modifies this`checks
      ensures checks == old(checks) + 1 && r == world.cancelled(old(checks), now)
    {
      r := world.cancelled(checks, now);
      checks := checks + 1;
    }

    method GetStatus() returns (r: PollReply)
      modifies this`polls, this`now
      ensures polls == old(polls) + 1 && r == world.poll(old(polls)) && now == old(now) + world.pollTime(old(polls))
    {
      r := world.poll(polls);
      now := now + world.pollTime(polls);
      polls := polls + 1;
    }

    method ListOwnedWorkloads() returns (r: ListReply)
      modifies this`lists, this`now
      ensures lists == old(lists) + 1 && r == world.list(old(lists)) && now == old(now) + world.listTime(old(lists))
    {
      r := world.list(lists);
      now := now + world.listTime(lists);
      lists := lists + 1;
    }

    method GetEvents(query: EventQuery)
      modifies this`asked, this`now
      ensures asked == old(asked) + [query] && now == old(now) + world.eventTime(|old(asked)|)
    {
      now := now + world.eventTime(|asked|);
      asked := asked + [query];
    }
  }

  class WatchState {
    var transitions: seq<PhaseName>
    var lastStatus: Status
    var lastWorkloads: seq<Workload>
    var prevSignature: Signature
    /** Every transition the progress callback heard. */
    var heard: seq<PhaseName>

    ghost predicate Valid()
      reads this
    {
      transitions == LastOf(heard)
    }

    constructor (initial: Status)
      ensures Valid() && heard == [] && lastStatus == initial && prevSignature == NoSignature
    {
      transitions, heard, lastWorkloads := [], [], [];
      lastStatus, prevSignature := initial, NoSignature;
    }

    /** Append to the bounded buffer, dropping the oldest transition when it is full. */
    method Record(phase: PhaseName)
      requires Valid()
      modifies this`transitions, this`heard
      ensures Valid() && heard == old(heard) + [phase]
    {
      heard := heard + [phase];
      transitions := transitions + [phase];
      if |transitions| > TRANSITIONS_MAX {
        transitions := transitions[1..];
      }
    }

    method RecordDeduped(signature: Signature, phase: PhaseName)
      requires Valid()
      modifies this`transitions, this`heard, this`prevSignature
      ensures Valid() && prevSignature == signature
      ensures heard == old(heard) + Note(old(prevSignature), signature, phase)
    {
      if signature != prevSignature {
        Record(phase);
        prevSignature := signature;
      }
    }
  }

  /** A transition is recorded unless the previous one had the same dedupe key. */
  function Note(prev: Signature, signature: Signature, phase: PhaseName): seq<PhaseName> {
    if signature == prev then [] else [phase]
  }

  /** What one look records when the workloads could not be listed. */
  function ListingFailure(prev: Signature, decision: Decision, stderr: string): seq<PhaseName>
    requires decision.Waiting?
  {
    var failed := ListingFailed(Clip(stderr));
    Note(prev, failed, WorkloadsPollError) + Note(failed, decision.signature, decision.phase)
  }

  datatype Verdicts = Ended(verdict: Verdict, reason: string) | Undecided | Raised

  /** The watcher has looked at the last status it read, and it is not done yet. */
  ghost predicate StillWaiting(world: World, lists: nat, status: Status, requested: string) {
    var d := Classify.Classify(status, requested, None);
    d.Waiting? && (d.needsWorkloads ==>
      lists > 0 && (world.list(lists - 1).ListFlaked?
        || (world.list(lists - 1).Listed? && !AllConverged(world.list(lists - 1).workloads))))
  }

  /** What a verdict read off a status says about the status and about the workloads just listed. */
  ghost predicate Earned(world: World, lists: nat, state: WatchState, requested: string, verdict: Verdict)
    reads state
  {
    var status := state.lastStatus;
    match verdict
    case SkippedSuspended => status.suspended
    case Failed => !status.suspended && Broken(status)
    case Ready =>
      && !status.suspended && !Broken(status) && Converged(status, requested)
      && lists > 0 && world.list(lists - 1) == Listed(state.lastWorkloads) && AllConverged(state.lastWorkloads)
    case _ => false
  }

  /** What `status` comes to when no workload is left to wait for. */
  function Final(status: Status, requested: string): Decision {
    Classify.Classify(status, requested, Some([]))
  }

  /** Classify one poll and record what it showed. */
  method Evaluate(status: Status, requested: string, state: WatchState, session: Session, ghost perPoll: real)
    returns (r: Verdicts)
    requires state.Valid() && state.lastStatus == status && Prompt(session.world, perPoll)
    modifies state`transitions, state`heard, state`prevSignature, state`lastWorkloads, session`now, session`lists
    ensures state.Valid() && old(session.now) <= session.now <= old(session.now) + perPoll
    ensures r.Ended? ==> Earned(session.world, session.lists, state, requested, r.verdict)
    ensures r.Ended? ==> state.heard != [] && state.heard[|state.heard| - 1] == Final(status, requested).phase
    ensures r.Ended? ==> Final(status, requested) == Terminal(r.verdict, r.reason, Final(status, requested).phase)
    ensures r.Undecided? ==> StillWaiting(session.world, session.lists, status, requested)
    ensures r.Undecided? && session.lists == old(session.lists) ==>
      var d := Classify.Classify(status, requested, None);
      && state.heard == old(state.heard) + Note(old(state.prevSignature), d.signature, d.phase)
      && state.prevSignature == d.signature
    ensures r.Undecided? && session.lists > old(session.lists) && session.world.list(session.lists - 1).ListFlaked? ==>
      var d := Classify.Classify(status, requested, None);
      var notes := ListingFailure(old(state.prevSignature), d, session.world.list(session.lists - 1).stderr);
      state.heard == old(state.heard) + notes && state.prevSignature == d.signature
    ensures r.Raised? ==> session.lists > 0 && session.world.list(session.lists - 1).ListBroke?
  {
    VerdictsExactly(status, requested, None);
    WorkloadsDecideLast(status, requested, []);
    var decision := Classify.Classify(status, requested, None);
    if decision.Waiting? && decision.needsWorkloads {
      var listed := session.ListOwnedWorkloads();
      match listed {
        case ListBroke =>
          return Raised;
        case ListFlaked(stderr) =>
          state.RecordDeduped(ListingFailed(Clip(stderr)), WorkloadsPollError);
        case Listed(workloads) =>
          state.lastWorkloads := workloads;
          WorkloadsDecideLast(status, requested, workloads);
          VerdictsExactly(status, requested, Some(workloads));
          decision := Classify.Classify(status, requested, Some(workloads));
      }
    }
    if decision.Terminal? {
      state.Record(decision.phase);
      return Ended(decision.verdict, decision.reason);
    }
    state.RecordDeduped(decision.signature, decision.phase);
    return Undecided;
  }

  datatype Polled = Read(status: Status) | Gone | Flaked | Broke

  /** Re-read the release: a fresh status, an end when it is gone, or nothing when the read flaked. */
  method Poll(state: WatchState, session: Session, ghost perPoll: real) returns (r: Polled)
    requires state.Valid() && Prompt(session.world, perPoll)
    modifies state`transitions, state`heard, state`prevSignature, session`now, session`polls
    ensures state.Valid() && session.polls == old(session.polls) + 1
    ensures old(session.now) <= session.now <= old(session.now) + perPoll
    ensures var reply := session.world.poll(old(session.polls));
      match r
      case Read(status) => reply == Fresh(status) && state.heard == old(state.heard)
        && state.prevSignature == old(state.prevSignature)
      case Gone => reply.PollFlaked? && SaysNotFound(reply.stderr) && state.heard == old(state.heard) + [Disappeared]
      case Flaked => reply.PollFlaked? && !SaysNotFound(reply.stderr)
        && state.prevSignature == PollFailed(Clip(reply.stderr))
        && state.heard == old(state.heard) + Note(old(state.prevSignature), PollFailed(Clip(reply.stderr)), PollError)
      case Broke => reply.PollBroke?
  {
    var reply := session.GetStatus();
    match reply
    case PollBroke =>
      return Broke;
    case Fresh(status) =>
      return Read(status);
    case PollFlaked(stderr) =>
      if SaysNotFound(stderr) {
        state.Record(Disappeared);
        return Gone;
      }
      state.RecordDeduped(PollFailed(Clip(stderr)), PollError);
      return Flaked;
  }

  function Max(a: real, b: real): real { if a < b then b else a }
  function Min(a: real, b: real): real { if a < b then a else b }
  function Ceil(x: real): int { -((-x).Floor) }

  /** `rounds` deadline checks have let the watch go on. */
  ghost predicate OnBudget(start: real, hrDeadline: real, perPoll: real, now: real, rounds: nat) {
    && start + POLL_INTERVAL * rounds as real <= now <= Max(start, hrDeadline) + POLL_INTERVAL + perPoll
    && (rounds > 0 ==> start + POLL_INTERVAL * (rounds - 1) as real < hrDeadline)
  }

  lemma NextRound(start: real, hrDeadline: real, perPoll: real, before: real, check: real, after: real, rounds: nat)
    requires 0.0 <= perPoll && OnBudget(start, hrDeadline, perPoll, before, rounds)
    requires before <= check < hrDeadline && check + POLL_INTERVAL <= after <= check + POLL_INTERVAL + perPoll
    ensures OnBudget(start, hrDeadline, perPoll, after, rounds + 1)
  {
    assert POLL_INTERVAL * (rounds + 1) as real == POLL_INTERVAL * rounds as real + POLL_INTERVAL;
  }

  /** A budget of `perHr` pays for one look at the first status and one after each interval. */
  lemma RoundsBounded(start: real, hrDeadline: real, perHr: real, perPoll: real, now: real, rounds: nat)
    requires OnBudget(start, hrDeadline, perPoll, now, rounds) && hrDeadline <= start + perHr && 0.0 <= perHr
    ensures rounds <= Ceil(perHr / POLL_INTERVAL)
  {
  }

  datatype WatchResult = Outcome(verdict: Verdict, reason: string) | Crashed

  /** The status is the last thing kubectl answered, or the one matching started from. */
  ghost predicate Newest(session: Session, initial: Status, status: Status)
    reads session
  {
    if session.polls == 0 then status == initial else session.world.poll(session.polls - 1) == Fresh(status)
  }

  /** A crash is kubectl failing in a way that is no answer about the release. */
  ghost predicate CrashExplained(session: Session)
    reads session
  {
    || (session.lists > 0 && session.world.list(session.lists - 1).ListBroke?)
    || (session.polls > 0 && session.world.poll(session.polls - 1).PollBroke?)
  }

  /** The last transition kept is the last one recorded, and it is `phase`. */
  ghost predicate LastRecorded(state: WatchState, phase: PhaseName)
    reads state
  {
    state.Valid() && state.heard != [] && state.heard[|state.heard| - 1] == phase
  }

  ghost predicate EarnedOutcome(session: Session, state: WatchState, initial: Status, requested: string,
                                verdict: Verdict, reason: string)
    reads session, state
  {
    var d := Final(state.lastStatus, requested);
    && Newest(session, initial, state.lastStatus)
    && Earned(session.world, session.lists, state, requested, verdict)
    && d.Terminal? && d.verdict == verdict && d.reason == reason && LastRecorded(state, d.phase)
  }

  ghost predicate CancelledOutcome(session: Session, state: WatchState, reason: string)
    reads session, state
  {
    && session.checks > 0 && session.world.cancelled(session.checks - 1, session.now)
    && reason == "TotalBudgetExhausted" && LastRecorded(state, Cancelled)
  }

  ghost predicate ExpiredOutcome(session: Session, state: WatchState, hrDeadline: real, totalDeadline: real,
                                 reason: string)
    reads session, state
  {
    && hrDeadline <= session.now && LastRecorded(state, TimedOutPhase)
    && reason == if session.now >= totalDeadline then "TotalBudgetExhausted" else "PerHRBudgetExhausted"
  }

  ghost predicate DisappearedOutcome(session: Session, state: WatchState, reason: string)
    reads session, state
  {
    && session.polls > 0 && session.world.poll(session.polls - 1).PollFlaked?
    && SaysNotFound(session.world.poll(session.polls - 1).stderr)
    && reason == "Disappeared" && LastRecorded(state, Disappeared)
  }

  /** Why the watch ended as it did. */
  ghost predicate Explained(session: Session, state: WatchState, initial: Status, requested: string,
                            hrDeadline: real, totalDeadline: real, r: WatchResult)
    reads session, state
  {
    match r
    case Crashed => CrashExplained(session)
    case Outcome(verdict, reason) =>
      match verdict
      case TimedOut =>
        CancelledOutcome(session, state, reason) || ExpiredOutcome(session, state, hrDeadline, totalDeadline, reason)
      case Failed =>
        DisappearedOutcome(session, state, reason) || EarnedOutcome(session, state, initial, requested, Failed, reason)
      case _ => EarnedOutcome(session, state, initial, requested, verdict, reason)
  }

  method Cancel(state: WatchState) returns (r: WatchResult)
    requires state.Valid()
    modifies state`transitions, state`heard
    ensures LastRecorded(state, Cancelled) && r == Outcome(TimedOut, "TotalBudgetExhausted")
  {
    state.Record(Cancelled);
    return Outcome(TimedOut, "TotalBudgetExhausted");
  }

  method Expire(state: WatchState, session: Session, totalDeadline: real) returns (r: WatchResult)
    requires state.Valid()
    modifies state`transitions, state`heard
    ensures LastRecorded(state, TimedOutPhase)
    ensures r == Outcome(TimedOut,
                         if session.now >= totalDeadline then "TotalBudgetExhausted" else "PerHRBudgetExhausted")
  {
    state.Record(TimedOutPhase);
    return Outcome(TimedOut, if session.now >= totalDeadline then "TotalBudgetExhausted" else "PerHRBudgetExhausted");
  }

  /** Between two looks: the status to look at next is the newest one, and the last look decided nothing. */
  ghost predicate Watching(session: Session, state: WatchState, initial: Status, requested: string,
                           status: Option<Status>, evaluations: nat)
    reads session, state
  {
    && state.Valid()
    && (status.Some? ==> Newest(session, initial, status.value))
    && (status.None? ==> evaluations > 0)
    && (evaluations > 0 ==> StillWaiting(session.world, session.lists, state.lastStatus, requested))
  }

  /** Look at the status that was read, if one was. */
  method Look(status: Option<Status>, initial: Status, requested: string, state: WatchState, session: Session,
              ghost perPoll: real, ghost evaluations: nat)
    returns (r: Option<WatchResult>)
    requires Watching(session, state, initial, requested, status, evaluations) && Prompt(session.world, perPoll)
    modifies state, session`now, session`lists
    ensures old(session.now) <= session.now <= old(session.now) + perPoll
    ensures r.None? ==> state.Valid() && StillWaiting(session.world, session.lists, state.lastStatus, requested)
    ensures r.Some? ==> match r.value
      case Crashed => CrashExplained(session)
      case Outcome(verdict, reason) =>
        verdict != TimedOut && EarnedOutcome(session, state, initial, requested, verdict, reason)
  {
    if status.None? {
      return None;
    }
    state.lastStatus := status.value;
    var looked := Evaluate(status.value, requested, state, session, perPoll);
    match looked
    case Raised => return Some(Crashed);
    case Ended(verdict, reason) => return Some(Outcome(verdict, reason));
    case Undecided => return None;
  }

  /** Check for cancellation and the budget, sleep, check again, and read the release once more. */
  method Pause(state: WatchState, session: Session, initial: Status, requested: string, ghost perPoll: real,
               hrDeadline: real, totalDeadline: real, ghost cut: real)
    returns (r: Option<WatchResult>, status: Option<Status>)
    requires state.Valid() && Prompt(session.world, perPoll)
    modifies state`transitions, state`heard, state`prevSignature, session`now, session`polls, session`checks
    ensures r.Some? ==> session.now <= Max(old(session.now), hrDeadline + POLL_INTERVAL + perPoll)
    ensures r.Some? ==> Explained(session, state, initial, requested, hrDeadline, totalDeadline, r.value)
    ensures r.None? ==> state.Valid() && old(session.now) < hrDeadline
    ensures r.None? ==> old(session.now) + POLL_INTERVAL <= session.now <= old(session.now) + POLL_INTERVAL + perPoll
    ensures r.None? && status.Some? ==> Newest(session, initial, status.value)
    ensures CancelledFrom(session.world, cut) ==>
      session.now <= if r.Some? then Max(old(session.now), cut + POLL_INTERVAL + perPoll) else cut + perPoll
  {
    status := None;
    var cancelled := session.IsCancelled();
    if cancelled {
      var stopped := Cancel(state);
      return Some(stopped), None;
    }
    if session.now >= hrDeadline {
      var expired := Expire(state, session, totalDeadline);
      return Some(expired), None;
    }
    session.Sleep(POLL_INTERVAL);
    cancelled := session.IsCancelled();
    if cancelled {
      var stopped := Cancel(state);
      return Some(stopped), None;
    }
    var polled := Poll(state, session, perPoll);
    match polled
    case Broke => return Some(Crashed), None;
    case Gone => return Some(Outcome(Failed, "Disappeared")), None;
    case Flaked => return None, None;
    case Read(next) => return None, Some(next);
  }

  /** A suspended release is not watched; any other is, after a jittered pause and a check for cancellation. */
  method Begin(initial: Status, requested: string, state: WatchState, session: Session, hrDeadline: real,
               totalDeadline: real, ghost perPoll: real)
    returns (r: Option<WatchResult>)
    requires state.Valid() && state.lastStatus == initial && Prompt(session.world, perPoll)
    requires session.polls == session.lists == session.checks == 0
    modifies state`transitions, state`heard, session`now, session`checks
    ensures old(session.now) <= session.now <= old(session.now) + POLL_INTERVAL
    ensures r.Some? ==> Explained(session, state, initial, requested, hrDeadline, totalDeadline, r.value)
    ensures r.None? ==> Watching(session, state, initial, requested, Some(initial), 0)
  {
    VerdictsExactly(initial, requested, None);
    var first := Classify.Classify(initial, requested, None);
    if first.Terminal? && first.verdict == SkippedSuspended {
      state.Record(first.phase);
      return Some(Outcome(first.verdict, first.reason));
    }
    session.Sleep(session.world.jitter);
    var cancelled := session.IsCancelled();
    if cancelled {
      var stopped := Cancel(state);
      return Some(stopped);
    }
    return None;
  }

  /** Poll, classify, record, check the budget, until something is terminal. */
  method PollUntilTerminal(initial: Status, requested: string, state: WatchState, session: Session,
                           ghost perPoll: real, hrDeadline: real, totalDeadline: real, ghost perHr: real,
                           ghost cut: real)
    returns (r: WatchResult, ghost evaluations: nat)
    requires state.Valid() && state.lastStatus == initial && Prompt(session.world, perPoll)
    requires session.polls == session.lists == session.checks == 0
    requires 0.0 <= perHr && hrDeadline <= session.now + perHr
    modifies state, session`now, session`polls, session`lists, session`checks
    ensures Explained(session, state, initial, requested, hrDeadline, totalDeadline, r)
    ensures evaluations <= Ceil(perHr / POLL_INTERVAL) + 1
    ensures session.now <= Max(old(session.now), hrDeadline) + POLL_INTERVAL + perPoll + perPoll
    ensures CancelledFrom(session.world, cut) ==>
      session.now <= Max(old(session.now), cut) + POLL_INTERVAL + perPoll + perPoll
    ensures r.Outcome? && r.verdict == TimedOut && evaluations > 0 ==>
      StillWaiting(session.world, session.lists, state.lastStatus, requested)
  {
    evaluations := 0;
    ghost var start := session.now;
    RoundsBounded(start, hrDeadline, perHr, perPoll, start, 0);
    var begun := Begin(initial, requested, state, session, hrDeadline, totalDeadline, perPoll);
    if begun.Some? {
      return begun.value, evaluations;
    }
    var status := Some(initial);
    ghost var rounds := 0;
    while true
      invariant Watching(session, state, initial, requested, status, evaluations)
      invariant OnBudget(start, hrDeadline, perPoll, session.now, rounds) && evaluations <= rounds
      invariant CancelledFrom(session.world, cut) ==> session.now <= Max(start, cut) + POLL_INTERVAL + perPoll
      decreases hrDeadline - session.now
    {
      RoundsBounded(start, hrDeadline, perHr, perPoll, session.now, rounds);
      ghost var before := session.now;
      var ended := Look(status, initial, requested, state, session, perPoll, evaluations);
      evaluations := if status.Some? then evaluations + 1 else evaluations;
      if ended.Some? {
        return ended.value, evaluations;
      }
      ghost var check := session.now;
      ended, status := Pause(state, session, initial, requested, perPoll, hrDeadline, totalDeadline, cut);
      if ended.Some? {
        return ended.value, evaluations;
      }
      NextRound(start, hrDeadline, perPoll, before, check, session.now, rounds);
      rounds := rounds + 1;
    }
  }

  datatype Budgets = Budgets(perPoll: real, perHr: real, total: real)

  /** How long a watch may take to notice a deadline or a cancellation. */
  function Grace(budgets: Budgets): real { POLL_INTERVAL + budgets.perPoll + budgets.perPoll }

  /** How long `n` calls of at most `d` each may take. */
  function Calls(n: nat, d: real): real { if n == 0 then 0.0 else Calls(n - 1, d) + d }

  lemma {:induction false} CallsAre(n: nat, d: real)
    ensures Calls(n, d) == n as real * d
  {
    if n > 0 {
      CallsAre(n - 1, d);
      assert n as real * d == (n - 1) as real * d + d;
    }
  }

  lemma {:induction false} CallsGrow(m: nat, n: nat, d: real)
    requires 0.0 <= d && m <= n
    ensures Calls(m, d) <= Calls(n, d)
    decreases n
  {
    if m < n {
      CallsGrow(m, n - 1, d);
    }
  }

  /** How long it may then keep its worker: six calls more. */
  function WorkerGrace(budgets: Budgets): real {
    Grace(budgets) + Calls(DIAGNOSTICS_WORKLOAD_CAP + 1, budgets.perPoll)
  }

  function Unconverged(workloads: seq<Workload>): seq<string> {
    var names := Names(workloads);
    if |names| <= DIAGNOSTICS_WORKLOAD_CAP then names else names[..DIAGNOSTICS_WORKLOAD_CAP]
  }

  /** The namespace's events, unless no namespace is known, and those of the first workloads still pending. */
  function Queries(namespace: string, workloads: seq<Workload>): (r: seq<EventQuery>)
    ensures |r| <= DIAGNOSTICS_WORKLOAD_CAP + 1
  {
    var names := Unconverged(workloads);
    (if namespace == "" then [] else [NamespaceEvents(namespace)])
    + seq(|names|, i requires 0 <= i < |names| => WorkloadEvents(names[i]))
  }

  /** Ask for the events that the report quotes. */
  method ComposeDiagnostics(state: WatchState, session: Session, namespace: string, ghost perPoll: real)
    requires Prompt(session.world, perPoll)
    modifies session`now, session`asked
    ensures session.asked == old(session.asked) + Queries(namespace, state.lastWorkloads)
    ensures old(session.now) <= session.now
         <= old(session.now) + Calls(|Queries(namespace, state.lastWorkloads)|, perPoll)
  {
    ghost var before, start := session.asked, session.now;
    var queries := Queries(namespace, state.lastWorkloads);
    for i := 0 to |queries|
      invariant session.asked == before + queries[..i]
      invariant start <= session.now <= start + Calls(i, perPoll)
    {
      session.GetEvents(queries[i]);
      assert queries[..i + 1] == queries[..i] + [queries[i]];
    }
    assert queries[..|queries|] == queries;
  }

  /** A watched release's outcome; the text of its diagnostics is left out. */
  datatype MonitorOutcome = MonitorOutcome(verdict: Verdict, reason: string, lastStatus: Status,
                                           lastWorkloads: seq<Workload>, transitions: seq<PhaseName>, duration: real)

  /**
   Watch one release from its matched status, within what is left of the run's budget, and explain a
   failure. The loop is over at `ended`; its worker is free again when the events have been read.
   */
  method Watch(initial: Status, requested: string, namespace: string, session: Session, budgets: Budgets,
               totalDeadline: real, ghost cut: real)
    returns (r: Option<MonitorOutcome>, ghost evaluations: nat, ghost ended: real)
    requires Prompt(session.world, budgets.perPoll) && 0.0 <= budgets.perHr
    requires session.polls == session.lists == session.checks == 0 && session.asked == []
    modifies session
    ensures r.None? ==> CrashExplained(session)
    ensures r.Some? && r.value.verdict == Ready ==>
      && Converged(r.value.lastStatus, requested) && !r.value.lastStatus.suspended && !Broken(r.value.lastStatus)
      && session.lists > 0 && session.world.list(session.lists - 1) == Listed(r.value.lastWorkloads)
      && AllConverged(r.value.lastWorkloads) && Newest(session, initial, r.value.lastStatus)
    ensures r.Some? ==> 1 <= |r.value.transitions| <= TRANSITIONS_MAX
    ensures evaluations <= Ceil(budgets.perHr / POLL_INTERVAL) + 1
    ensures ended <= Max(old(session.now), Min(old(session.now) + budgets.perHr, totalDeadline)) + Grace(budgets)
    ensures CancelledFrom(session.world, cut) ==> ended <= Max(old(session.now), cut) + Grace(budgets)
    ensures r.Some? ==> r.value.duration == ended - old(session.now)
    ensures session.asked == if r.None? || r.value.verdict in PASSING_VERDICTS then []
                             else Queries(namespace, r.value.lastWorkloads)
    ensures session.asked == [] ==> session.now == ended
    ensures ended <= session.now <= ended + Calls(|session.asked|, budgets.perPoll)
  {
    var started := session.now;
    var state := new WatchState(initial);
    var watched;
    watched, evaluations := PollUntilTerminal(initial, requested, state, session, budgets.perPoll,
      Min(started + budgets.perHr, totalDeadline), totalDeadline, budgets.perHr, cut);
    ended := session.now;
    if watched.Crashed? {
      return None, evaluations, ended;
    }
    var duration := session.now - started;
    if watched.verdict !in PASSING_VERDICTS {
      ComposeDiagnostics(state, session, namespace, budgets.perPoll);
    }
    return Some(MonitorOutcome(watched.verdict, watched.reason, state.lastStatus, state.lastWorkloads,
                               state.transitions, duration)), evaluations, ended;
  }

  /** Six calls at most come after the loop, so the worker is free within its grace of whatever bounded the loop. */
  lemma WorkerFree(budgets: Budgets, ended: real, freed: real, asked: nat, limit: real)
    requires 0.0 <= budgets.perPoll && asked <= DIAGNOSTICS_WORKLOAD_CAP + 1
    requires ended <= limit + Grace(budgets) && freed <= ended + Calls(asked, budgets.perPoll)
    ensures freed <= limit + WorkerGrace(budgets)
  {
    CallsGrow(asked, DIAGNOSTICS_WORKLOAD_CAP + 1, budgets.perPoll);
  }

  lemma WorkerGraceIs(budgets: Budgets)
    ensures WorkerGrace(budgets) == POLL_INTERVAL + 8.0 * budgets.perPoll
  {
    CallsAre(DIAGNOSTICS_WORKLOAD_CAP + 1, budgets.perPoll);
  }

  /** What `n` looks in a row record when status and listing failure stay the same. */
  function ListingFailures(prev: Signature, decision: Decision, stderr: string, n: nat): seq<PhaseName>
    requires decision.Waiting?
    decreases n
  {
    if n == 0 then [] else
      ListingFailure(prev, decision, stderr) + ListingFailures(decision.signature, decision, stderr, n - 1)
  }

  /** What `n` polls in a row record when each fails with the same message. */
  function PollFailures(prev: Signature, stderr: string, n: nat): seq<PhaseName>
    decreases n
  {
    if n == 0 then [] else
      Note(prev, PollFailed(Clip(stderr)), PollError) + PollFailures(PollFailed(Clip(stderr)), stderr, n - 1)
  }

  lemma {:induction false} PollFailuresRecordedOnce(prev: Signature, stderr: string, n: nat)
    ensures |PollFailures(prev, stderr, n)| <= 1
    ensures prev == PollFailed(Clip(stderr)) ==> PollFailures(prev, stderr, n) == []
    decreases n
  {
    if n > 0 {
      PollFailuresRecordedOnce(PollFailed(Clip(stderr)), stderr, n - 1);
    }
  }

  /**
   A listing that keeps failing is not recorded once: the wait it interrupts has another key, so
   each look records both again, and three looks fill the bounded buffer.
   */
  lemma {:induction false} ListingFailuresFillTheBuffer(status: Status, requested: string, prev: Signature,
                                                        stderr: string, n: nat)
    requires var d := Classify.Classify(status, requested, None); d.Waiting? && d.needsWorkloads
    requires !prev.ListingFailed?
    ensures |ListingFailures(prev, Classify.Classify(status, requested, None), stderr, n)| == 2 * n
    decreases n
  {
    if n > 0 {
      var d := Classify.Classify(status, requested, None);
      ListingFailuresFillTheBuffer(status, requested, d.signature, stderr, n - 1);
    }
  }
}
