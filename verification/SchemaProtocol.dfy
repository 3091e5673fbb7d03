/**
 Concurrent `schemas sync` and `schemas sync --update` processes over one store and one
 committed lock file, as interleaved steps with a crash possible between any two of them.
 */
module SchemaProtocol {
  import opened Wrappers
  import opened RepositorySnapshot
  import opened SchemaStore

  type Pid = nat

  /** How far a process has come. `update` tells a process that will rewrite the lock file. */
  datatype Process =
    | Idle
    | Queued(lock: Lock, update: bool)
    | Scanning(lock: Lock, update: bool, index: nat)
    | Hydrating(lock: Lock, update: bool, index: nat, stage: Checkout)
    | Checked(lock: Lock, update: bool, index: nat, stage: Checkout)
    | Synced(lock: Lock)
    | LockDrafted(lock: Lock)
    | Done
    | Failed
    | Crashed

  datatype State = State(
    snapshots: map<Destination, Checkout>,
    holder: Option<Pid>,
    lockFile: Option<Lock>,
    policy: Policy,
    processes: map<Pid, Process>,
    committed: set<Lock>
  )

  datatype Action =
    | ReadLock
    | ResolvePins(kubernetesCommit: string, catalogCommit: string)
    | Acquire
    | FindPresent
    | FindCorrupt
    | StartStaging
    | Hydrate(stage: Checkout)
    | FailStaging
    | PassInspection
    | Publish
    | Release
    | DraftLock
    | ReplaceLock
    | Crash
    | EditPolicy(policy: Policy)

  /** The process is inside `serialized_sync`. */
  predicate Critical(p: Process) {
    p.Scanning? || p.Hydrating? || p.Checked?
  }

  function At(p: Process): Destination
    requires Critical(p) && p.index < 2
  {
    Repositories(p.lock)[p.index]
  }

  ghost predicate Enabled(workspace: string, s: State, pid: Pid, a: Action)
  {
    pid in s.processes &&
    var p := s.processes[pid];
    match a
    case ReadLock => p.Idle? && s.lockFile.Some? && Matches(workspace, s.policy, s.lockFile.value)
    case ResolvePins(_, _) => p.Idle?
    case Acquire => p.Queued? && s.holder.None?
    case FindPresent => p.Scanning? && p.index < 2 && At(p) in s.snapshots && Verified(At(p), s.snapshots[At(p)])
    case FindCorrupt => p.Scanning? && p.index < 2 && At(p) in s.snapshots && !Verified(At(p), s.snapshots[At(p)])
    case StartStaging => p.Scanning? && p.index < 2 && At(p) !in s.snapshots
    case Hydrate(_) => p.Hydrating?
    case FailStaging => p.Hydrating?
    case PassInspection => p.Hydrating? && p.index < 2 && Verified(At(p), p.stage)
    case Publish => p.Checked? && p.index < 2
    case Release => p.Scanning? && p.index == 2
    case DraftLock => p.Synced?
    case ReplaceLock => p.LockDrafted?
    case Crash => !p.Crashed?
    case EditPolicy(_) => true
  }

  /** The kernel drops a file lock with the process that held it. */
  function Unlocked(s: State, pid: Pid): Option<Pid> {
    if s.holder == Some(pid) then None else s.holder
  }

  function Become(s: State, pid: Pid, p: Process): State {
    s.(processes := s.processes[pid := p])
  }

  const EMPTY_STAGE := Checkout(false, None, None, map[], {})

  ghost function Apply(workspace: string, s: State, pid: Pid, a: Action): State
    requires Enabled(workspace, s, pid, a)
  {
    var p := s.processes[pid];
    match a
    case ReadLock => Become(s, pid, Queued(s.lockFile.value, false))
    case ResolvePins(k, c) => Become(s, pid, Queued(BuildLock(workspace, s.policy, k, c), true))
    case Acquire => Become(s, pid, Scanning(p.lock, p.update, 0)).(holder := Some(pid))
    case FindPresent => Become(s, pid, Scanning(p.lock, p.update, p.index + 1))
    case FindCorrupt => Become(s, pid, Failed).(holder := Unlocked(s, pid))
    case StartStaging => Become(s, pid, Hydrating(p.lock, p.update, p.index, EMPTY_STAGE))
    case Hydrate(stage) => Become(s, pid, Hydrating(p.lock, p.update, p.index, stage))
    case FailStaging => Become(s, pid, Failed).(holder := Unlocked(s, pid))
    case PassInspection => Become(s, pid, Checked(p.lock, p.update, p.index, p.stage))
    case Publish =>
      Become(s, pid, Scanning(p.lock, p.update, p.index + 1)).(snapshots := s.snapshots[At(p) := p.stage])
    case Release => Become(s, pid, if p.update then Synced(p.lock) else Done).(holder := Unlocked(s, pid))
    case DraftLock => Become(s, pid, LockDrafted(p.lock))
    case ReplaceLock => Become(s, pid, Done).(lockFile := Some(p.lock), committed := s.committed + {p.lock})
    case Crash => Become(s, pid, Crashed).(holder := Unlocked(s, pid))
    case EditPolicy(policy) => s.(policy := policy)
  }

  ghost predicate Step(workspace: string, s: State, t: State) {
    exists pid, a :: Enabled(workspace, s, pid, a) && t == Apply(workspace, s, pid, a)
  }

  /** Before anything runs: no process started, no lock held, and what is stored was verified. */
  ghost predicate Initial(s: State) {
    && (forall pid :: pid in s.processes ==> s.processes[pid].Idle?)
    && s.holder.None? && s.committed == {}
    && forall at :: at in s.snapshots ==> Verified(at, s.snapshots[at])
  }

  ghost predicate StepFrom(workspace: string, run: seq<State>, i: nat)
    requires i + 1 < |run|
  {
    Step(workspace, run[i], run[i + 1])
  }

  ghost predicate Run(workspace: string, run: seq<State>) {
    && |run| > 0 && Initial(run[0])
    && forall i :: 0 <= i < |run| - 1 ==> StepFrom(workspace, run, i)
  }

  // ---- the invariant ------------------------------------------------------------------

  /** The first `n` snapshots of the lock are in the store. */
  ghost predicate Stored(s: State, lock: Lock, n: nat)
    requires n <= 2
  {
    forall i :: 0 <= i < n ==> Repositories(lock)[i] in s.snapshots
  }

  ghost predicate ProcessOk(s: State, p: Process) {
    match p
    case Scanning(lock, _, n) => n <= 2 && Stored(s, lock, n)
    case Hydrating(lock, _, n, _) => n < 2 && Stored(s, lock, n) && Repositories(lock)[n] !in s.snapshots
    case Checked(lock, _, n, stage) =>
      n < 2 && Stored(s, lock, n) && Repositories(lock)[n] !in s.snapshots && Verified(Repositories(lock)[n], stage)
    case Synced(lock) => Stored(s, lock, 2)
    case LockDrafted(lock) => Stored(s, lock, 2)
    case _ => true
  }

  ghost predicate Inv(s: State) {
    && (forall at :: at in s.snapshots ==> Verified(at, s.snapshots[at]))
    && (forall pid :: pid in s.processes && Critical(s.processes[pid]) ==> s.holder == Some(pid))
    && (s.holder.Some? ==> s.holder.value in s.processes && Critical(s.processes[s.holder.value]))
    && (forall pid :: pid in s.processes ==> ProcessOk(s, s.processes[pid]))
    && (forall lock :: lock in s.committed ==> Stored(s, lock, 2))
  }

  lemma InitialInv(s: State)
    requires Initial(s)
    ensures Inv(s)
  {
  }

  /** One process moves; the store stays, and the file lock follows the process. */
  lemma Moved(s: State, t: State, pid: Pid)
    requires Inv(s) && pid in s.processes && pid in t.processes
    requires t.processes == s.processes[pid := t.processes[pid]]
    requires t.snapshots == s.snapshots && forall lock :: lock in t.committed ==> Stored(s, lock, 2)
    requires ProcessOk(s, t.processes[pid])
    requires if Critical(t.processes[pid]) then t.holder == Some(pid) && s.holder in {None, Some(pid)}
             else t.holder == Unlocked(s, pid)
    ensures Inv(t)
  {
    forall q | q in t.processes
      ensures ProcessOk(t, t.processes[q])
      ensures Critical(t.processes[q]) ==> t.holder == Some(q)
    {
      assert ProcessOk(s, t.processes[q]);
    }
  }

  /** Any other step of a process keeps what that process has established. */
  lemma OwnProcess(workspace: string, s: State, pid: Pid, a: Action)
    requires Inv(s) && Enabled(workspace, s, pid, a) && !a.Publish? && !a.EditPolicy?
    ensures var t := Apply(workspace, s, pid, a);
      && pid in t.processes && t.processes == s.processes[pid := t.processes[pid]] && t.snapshots == s.snapshots
      && ProcessOk(s, t.processes[pid])
  {
    assert ProcessOk(s, s.processes[pid]);
  }

  lemma OwnLocks(workspace: string, s: State, pid: Pid, a: Action)
    requires Inv(s) && Enabled(workspace, s, pid, a) && !a.Publish? && !a.EditPolicy?
    ensures var t := Apply(workspace, s, pid, a);
      if Critical(t.processes[pid]) then t.holder == Some(pid) && s.holder in {None, Some(pid)}
      else t.holder == Unlocked(s, pid)
    ensures forall lock :: lock in Apply(workspace, s, pid, a).committed ==> Stored(s, lock, 2)
  {
    assert ProcessOk(s, s.processes[pid]);
  }

  /** A step that publishes nothing. */
  lemma QuietStep(workspace: string, s: State, pid: Pid, a: Action)
    requires Inv(s) && Enabled(workspace, s, pid, a) && !a.Publish?
    ensures Inv(Apply(workspace, s, pid, a))
  {
    if a.EditPolicy? {
      PolicyStep(s, a.policy);
    } else {
      OwnProcess(workspace, s, pid, a);
      OwnLocks(workspace, s, pid, a);
      Moved(s, Apply(workspace, s, pid, a), pid);
    }
  }

  lemma PolicyStep(s: State, policy: Policy)
    requires Inv(s)
    ensures Inv(s.(policy := policy))
  {
  }

  /** Publishing adds one verified snapshot, and only the publisher was after it. */
  lemma PublishStep(workspace: string, s: State, pid: Pid)
    requires Inv(s) && Enabled(workspace, s, pid, Publish)
    ensures Inv(Apply(workspace, s, pid, Publish))
  {
    var t := Apply(workspace, s, pid, Publish);
    assert ProcessOk(s, s.processes[pid]);
    forall q | q in t.processes ensures ProcessOk(t, t.processes[q]) {
      assert q in s.processes && ProcessOk(s, s.processes[q]);
      if q != pid {
        assert !Critical(s.processes[q]);
      }
    }
  }

  /** Snapshots and committed locks are only ever added, and only `update` writes the lock file. */
  ghost predicate Grown(s: State, t: State) {
    && s.snapshots.Keys <= t.snapshots.Keys
    && (forall at :: at in s.snapshots ==> t.snapshots[at] == s.snapshots[at])
    && s.committed <= t.committed
    && (t.lockFile == s.lockFile || (t.lockFile.Some? && t.lockFile.value in t.committed))
  }

  lemma StepGrows(workspace: string, s: State, pid: Pid, a: Action)
    requires Inv(s) && Enabled(workspace, s, pid, a)
    ensures Grown(s, Apply(workspace, s, pid, a))
  {
    assert ProcessOk(s, s.processes[pid]);
  }

  lemma StepInv(workspace: string, s: State, t: State)
    requires Inv(s) && Step(workspace, s, t)
    ensures Inv(t) && Grown(s, t)
  {
    var pid, a :| Enabled(workspace, s, pid, a) && t == Apply(workspace, s, pid, a);
    StepGrows(workspace, s, pid, a);
    if a.Publish? {
      PublishStep(workspace, s, pid);
    } else {
      QuietStep(workspace, s, pid, a);
    }
  }

  // ---- whole runs ---------------------------------------------------------------------

  lemma {:induction false} RunInv(workspace: string, run: seq<State>, i: nat)
    requires Run(workspace, run) && i < |run|
    ensures Inv(run[i])
  {
    if i == 0 {
      InitialInv(run[0]);
    } else {
      RunInv(workspace, run, i - 1);
      NextInv(workspace, run, i - 1);
    }
  }

  lemma NextInv(workspace: string, run: seq<State>, i: nat)
    requires Run(workspace, run) && i + 1 < |run| && Inv(run[i])
    ensures Inv(run[i + 1]) && Grown(run[i], run[i + 1])
  {
    assert StepFrom(workspace, run, i);
    StepInv(workspace, run[i], run[i + 1]);
  }

  /** Whatever is interleaved and wherever processes crash, only verified snapshots are visible. */
  lemma OnlyVerifiedVisible(workspace: string, run: seq<State>, i: nat, at: Destination)
    requires Run(workspace, run) && i < |run| && at in run[i].snapshots
    ensures Verified(at, run[i].snapshots[at])
  {
    RunInv(workspace, run, i);
  }

  /** A snapshot, once visible, is there for good and never changes. */
  lemma {:induction false} SnapshotsImmutable(workspace: string, run: seq<State>, i: nat, j: nat, at: Destination)
    requires Run(workspace, run) && i <= j < |run| && at in run[i].snapshots
    ensures at in run[j].snapshots && run[j].snapshots[at] == run[i].snapshots[at]
  {
    if i < j {
      SnapshotsImmutable(workspace, run, i, j - 1, at);
      RunInv(workspace, run, j - 1);
      NextInv(workspace, run, j - 1);
    }
  }

  /** At most one process is between taking and dropping the file lock. */
  lemma OneHydratesAtATime(workspace: string, run: seq<State>, i: nat, p: Pid, q: Pid)
    requires Run(workspace, run) && i < |run|
    requires p in run[i].processes && Critical(run[i].processes[p])
    requires q in run[i].processes && Critical(run[i].processes[q])
    ensures p == q
  {
    RunInv(workspace, run, i);
  }

  /** No process ever meets a corrupt snapshot that another one published. */
  lemma SyncNeverReportsCorruption(workspace: string, run: seq<State>, i: nat, pid: Pid)
    requires Run(workspace, run) && i < |run|
    ensures !Enabled(workspace, run[i], pid, FindCorrupt)
  {
    RunInv(workspace, run, i);
    assert pid in run[i].processes ==> ProcessOk(run[i], run[i].processes[pid]);
  }

  /** The file lock is free, or its live holder can take its next step: nobody waits forever on a corpse. */
  lemma LockNeverAbandoned(workspace: string, run: seq<State>, i: nat)
    requires Run(workspace, run) && i < |run| && run[i].holder.Some?
    ensures exists a: Action ::
      (a.FindPresent? || a.StartStaging? || a.FailStaging? || a.Publish? || a.Release?)
      && Enabled(workspace, run[i], run[i].holder.value, a)
  {
    RunInv(workspace, run, i);
    var s := run[i];
    var pid := s.holder.value;
    var p := s.processes[pid];
    assert ProcessOk(s, p);
    var a :=
      if p.Hydrating? then FailStaging
      else if p.Checked? then Publish
      else if p.index == 2 then Release
      else if At(p) in s.snapshots then FindPresent
      else StartStaging;
    assert Enabled(workspace, s, pid, a);
  }

  lemma {:induction false} LockFileCommitted(workspace: string, run: seq<State>, i: nat)
    requires Run(workspace, run) && i < |run|
    ensures run[i].lockFile == run[0].lockFile || (run[i].lockFile.Some? && run[i].lockFile.value in run[i].committed)
  {
    if i > 0 {
      LockFileCommitted(workspace, run, i - 1);
      RunInv(workspace, run, i - 1);
      NextInv(workspace, run, i - 1);
    }
  }

  /**
   The lock file is the one the run started with, or one that `update` wrote; and whenever
   it is one that `update` wrote and the policy still matches, validation can be served.
   */
  lemma CommittedLockServes(workspace: string, run: seq<State>, i: nat)
    requires Run(workspace, run) && i < |run|
    ensures
      var s := run[i];
      && (s.lockFile == run[0].lockFile || (s.lockFile.Some? && s.lockFile.value in s.committed))
      && (s.lockFile.Some? && s.lockFile.value in s.committed && Matches(workspace, s.policy, s.lockFile.value) ==>
            Locations(workspace, Some(s.policy), s.lockFile, s.snapshots) == Ok(Repositories(s.lockFile.value)))
  {
    LockFileCommitted(workspace, run, i);
    RunInv(workspace, run, i);
    var s := run[i];
    if s.lockFile.Some? && s.lockFile.value in s.committed {
      var lock := s.lockFile.value;
      assert Stored(s, lock, 2);
      assert Repositories(lock) == [Repositories(lock)[0], Repositories(lock)[1]];
      assert Serves(s.snapshots, lock);
    }
  }
}
