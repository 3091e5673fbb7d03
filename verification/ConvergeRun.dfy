/**
 Converging resolved releases onto the cluster: bootstrap stops at its first failure; the
 target's releases are tried one by one, and a failed release is recorded while the rest carry on.
 */
module ConvergeRun {
  import opened Wrappers

  /** A Helm release to converge, with the label its row carries. */
  datatype Planned = Planned(namespace: string, name: string, caption: string)

  type ReleaseKey = (string, string)

  /** What the cluster says when asked to converge a release. */
  datatype Reply = Applied | Unchanged | Failing

  datatype Bucket = AppliedRow | NoChangeRow | FailedRow

  function KeyOf(p: Planned): ReleaseKey { (p.namespace, p.name) }

  /** One run: the planned releases, the cluster's reply to each, and whether installed ones are skipped. */
  datatype Run = Run(planned: seq<Planned>, replies: seq<Reply>, skip: bool, listed: set<ReleaseKey>) {

    ghost predicate Valid() { |replies| == |planned| }

    /** The keys known to be installed when release `n` comes up. */
    ghost function Known(n: nat): set<ReleaseKey>
      requires Valid() && n <= |planned|
      decreases n, 0
    {
      if n == 0 then listed
      else if Asked(n - 1) && !replies[n - 1].Failing? then Known(n - 1) + {KeyOf(planned[n - 1])}
      else Known(n - 1)
    }

    ghost predicate Asked(i: nat)
      requires Valid() && i < |planned|
      decreases i, 1
    {
      !(skip && KeyOf(planned[i]) in Known(i))
    }

    ghost function Row(i: nat): Bucket
      requires Valid() && i < |planned|
    {
      if !Asked(i) || replies[i].Unchanged? then NoChangeRow
      else if replies[i].Applied? then AppliedRow
      else FailedRow
    }

    /** The releases among the first `n` that end in this bucket, in planned order. */
    ghost function Rows(b: Bucket, n: nat): seq<Planned>
      requires Valid() && n <= |planned|
    {
      if n == 0 then [] else if Row(n - 1) == b then Rows(b, n - 1) + [planned[n - 1]] else Rows(b, n - 1)
    }

    /** The releases the cluster is asked to converge, in planned order. */
    ghost function Calls(n: nat): seq<Planned>
      requires Valid() && n <= |planned|
    {
      if n == 0 then [] else if Asked(n - 1) then Calls(n - 1) + [planned[n - 1]] else Calls(n - 1)
    }
  }

  function Count(xs: seq<Planned>, x: Planned): nat { multiset(xs)[x] }

  lemma CountAdded(xs: seq<Planned>, y: Planned, x: Planned)
    ensures Count(xs + [y], x) == Count(xs, x) + if x == y then 1 else 0
  {
  }

  /** How often `x` is among the first `n` releases that end in `b`. */
  ghost function Tally(run: Run, b: Bucket, n: nat, x: Planned): nat
    requires run.Valid() && n <= |run.planned|
  {
    if n == 0 then 0 else Tally(run, b, n - 1, x) + if run.Row(n - 1) == b && run.planned[n - 1] == x then 1 else 0
  }

  ghost function PrefixTally(xs: seq<Planned>, n: nat, x: Planned): nat
    requires n <= |xs|
  {
    if n == 0 then 0 else PrefixTally(xs, n - 1, x) + if xs[n - 1] == x then 1 else 0
  }

  lemma {:induction false} RowsTallied(run: Run, b: Bucket, n: nat, x: Planned)
    requires run.Valid() && n <= |run.planned|
    ensures Count(run.Rows(b, n), x) == Tally(run, b, n, x)
  {
    if n > 0 {
      RowsTallied(run, b, n - 1, x);
      CountAdded(run.Rows(b, n - 1), run.planned[n - 1], x);
    }
  }

  lemma {:induction false} PrefixTallied(xs: seq<Planned>, n: nat, x: Planned)
    requires n <= |xs|
    ensures Count(xs[..n], x) == PrefixTally(xs, n, x)
  {
    if n > 0 {
      PrefixTallied(xs, n - 1, x);
      CountAdded(xs[..n - 1], xs[n - 1], x);
      assert xs[..n] == xs[..n - 1] + [xs[n - 1]];
    }
  }

  lemma {:induction false} TalliesAddUp(run: Run, n: nat, x: Planned)
    requires run.Valid() && n <= |run.planned|
    ensures Tally(run, AppliedRow, n, x) + Tally(run, NoChangeRow, n, x) + Tally(run, FailedRow, n, x)
         == PrefixTally(run.planned, n, x)
  {
    if n > 0 {
      TalliesAddUp(run, n - 1, x);
    }
  }

  /** Every planned release ends in exactly one bucket, however many fail. */
  lemma EveryReleaseOnce(run: Run)
    requires run.Valid()
    ensures var n := |run.planned|;
      multiset(run.Rows(AppliedRow, n)) + multiset(run.Rows(NoChangeRow, n)) + multiset(run.Rows(FailedRow, n))
      == multiset(run.planned)
  {
    var n := |run.planned|;
    var all := multiset(run.Rows(AppliedRow, n)) + multiset(run.Rows(NoChangeRow, n))
      + multiset(run.Rows(FailedRow, n));
    assert run.planned[..n] == run.planned;
    forall x: Planned ensures all[x] == multiset(run.planned)[x] {
      RowsTallied(run, AppliedRow, n, x);
      RowsTallied(run, NoChangeRow, n, x);
      RowsTallied(run, FailedRow, n, x);
      TalliesAddUp(run, n, x);
      PrefixTallied(run.planned, n, x);
    }
  }

  /** Installed means: listed before the run, or converged by it. */
  lemma {:induction false} KnownMeansInstalled(run: Run, n: nat, k: ReleaseKey)
    requires run.Valid() && n <= |run.planned|
    ensures k in run.Known(n) <==>
      k in run.listed
        || exists j :: 0 <= j < n && run.Asked(j) && !run.replies[j].Failing? && KeyOf(run.planned[j]) == k
  {
    if n > 0 {
      KnownMeansInstalled(run, n - 1, k);
      if k in run.Known(n) && k !in run.Known(n - 1) {
        assert run.Asked(n - 1) && KeyOf(run.planned[n - 1]) == k;
      }
    }
  }

  /** With `--skip-installed`, a release is tried again only when every earlier try failed. */
  lemma TriedAgainOnlyAfterFailure(run: Run, i: nat, j: nat)
    requires run.Valid() && run.skip && i < j < |run.planned|
    requires KeyOf(run.planned[i]) == KeyOf(run.planned[j]) && run.Asked(j)
    ensures run.Asked(i) && run.replies[i].Failing? && run.Row(i) == FailedRow
  {
    var k := KeyOf(run.planned[j]);
    KnownMeansInstalled(run, j, k);
    KnownMeansInstalled(run, i, k);
  }

  /** Without it every release is tried, and its bucket is what the cluster said. */
  lemma {:induction false} EverythingTried(run: Run, n: nat)
    requires run.Valid() && !run.skip && n <= |run.planned|
    ensures run.Calls(n) == run.planned[..n]
  {
    if n > 0 {
      EverythingTried(run, n - 1);
      assert run.planned[..n] == run.planned[..n - 1] + [run.planned[n - 1]];
    }
  }

  function Answered(planned: seq<Planned>, replies: seq<Reply>): (r: seq<(Planned, Reply)>)
    requires |replies| == |planned|
    ensures |r| == |planned|
  {
    seq(|planned|, i requires 0 <= i < |planned| => (planned[i], replies[i]))
  }

  /** The first release that fails stops bootstrap: nothing after it is tried. */
  method Bootstrap(planned: seq<Planned>, replies: seq<Reply>)
    returns (outcomes: Result<seq<(Planned, Reply)>, Planned>, tried: nat)
    requires |replies| == |planned|
    ensures tried <= |planned|
    ensures outcomes.Ok? <==> forall i :: 0 <= i < |planned| ==> !replies[i].Failing?
    ensures outcomes.Ok? ==> tried == |planned| && outcomes.value == Answered(planned, replies)
    ensures outcomes.Err? ==> tried > 0 && replies[tried - 1].Failing? && outcomes.error == planned[tried - 1]
    ensures outcomes.Err? ==> forall i :: 0 <= i < tried - 1 ==> !replies[i].Failing?
  {
    var done: seq<(Planned, Reply)> := [];
    for i := 0 to |planned|
      invariant |done| == i
      invariant forall j :: 0 <= j < i ==> done[j] == (planned[j], replies[j]) && !replies[j].Failing?
    {
      if replies[i].Failing? {
        return Err(planned[i]), i + 1;
      }
      done := done + [(planned[i], replies[i])];
    }
    return Ok(done), |planned|;
  }

  class RunSummary {
    var applied: seq<Planned>
    var noChange: seq<Planned>
    var failed: seq<Planned>
    var installed: set<ReleaseKey>
    /** What the cluster was asked to converge, in order. */
    var calls: seq<Planned>

    constructor (listed: set<ReleaseKey>)
      ensures applied == noChange == failed == calls == [] && installed == listed
    {
      applied, noChange, failed, calls := [], [], [], [];
      installed := listed;
    }

    /** This summary is what the first `n` releases of `run` come to, on top of what bootstrap left. */
    ghost predicate After(run: Run, n: nat, boot: seq<Planned>, bootApplied: seq<Planned>, bootUnchanged: seq<Planned>)
      requires run.Valid() && n <= |run.planned|
      reads this
    {
      && applied == bootApplied + run.Rows(AppliedRow, n)
      && noChange == bootUnchanged + run.Rows(NoChangeRow, n)
      && failed == run.Rows(FailedRow, n)
      && installed == run.Known(n)
      && calls == boot + run.Calls(n)
    }

    method ConvergeOne(ghost run: Run, ghost n: nat, release: Planned, reply: Reply, skip: bool,
                       ghost boot: seq<Planned>, ghost bootApplied: seq<Planned>, ghost bootUnchanged: seq<Planned>)
      requires run.Valid() && n < |run.planned| && After(run, n, boot, bootApplied, bootUnchanged)
      requires release == run.planned[n] && reply == run.replies[n] && skip == run.skip
      modifies this
      ensures After(run, n + 1, boot, bootApplied, bootUnchanged)
    {
      var key := KeyOf(release);
      if skip && key in installed {
        noChange := noChange + [release];
        return;
      }
      calls := calls + [release];
      if reply.Failing? {
        failed := failed + [release];
        return;
      }
      if reply.Applied? {
        applied := applied + [release];
      } else {
        noChange := noChange + [release];
      }
      installed := installed + {key};
    }

    /** Record what bootstrap converged. */
    method RecordBootstrap(outcomes: seq<(Planned, Reply)>)
      requires applied == noChange == failed == calls == []
      modifies this
      ensures AfterBootstrap(outcomes, |outcomes|, old(installed))
    {
      ghost var listed := installed;
      for i := 0 to |outcomes|
        invariant AfterBootstrap(outcomes, i, listed)
      {
        var (release, reply) := outcomes[i];
        if reply.Applied? {
          applied := applied + [release];
        } else {
          noChange := noChange + [release];
        }
        calls := calls + [release];
        installed := installed + {KeyOf(release)};
      }
    }

    /** Converge the target's releases one by one. */
    method ConvergeTarget(run: Run, ghost boot: seq<Planned>)
      requires run.Valid() && failed == [] && calls == boot && installed == run.listed
      requires multiset(applied) + multiset(noChange) == multiset(boot)
      modifies this
      ensures Accounts(boot, run)
    {
      ghost var bootApplied, bootUnchanged := applied, noChange;
      for i := 0 to |run.planned|
        invariant After(run, i, boot, bootApplied, bootUnchanged)
      {
        ConvergeOne(run, i, run.planned[i], run.replies[i], run.skip, boot, bootApplied, bootUnchanged);
      }
      Accounted(run, boot, bootApplied, bootUnchanged);
    }

    /** Every planned release is in one bucket; the failures and the calls made are exactly the run's. */
    ghost predicate Accounts(boot: seq<Planned>, run: Run)
      requires run.Valid()
      reads this
    {
      && multiset(applied) + multiset(noChange) + multiset(failed) == multiset(boot) + multiset(run.planned)
      && failed == run.Rows(FailedRow, |run.planned|)
      && calls == boot + run.Calls(|run.planned|)
      && installed == run.Known(|run.planned|)
    }

    lemma Accounted(run: Run, boot: seq<Planned>, bootApplied: seq<Planned>, bootUnchanged: seq<Planned>)
      requires run.Valid() && After(run, |run.planned|, boot, bootApplied, bootUnchanged)
      requires multiset(bootApplied) + multiset(bootUnchanged) == multiset(boot)
      ensures Accounts(boot, run)
    {
      EveryReleaseOnce(run);
    }

    ghost predicate AfterBootstrap(outcomes: seq<(Planned, Reply)>, n: nat, listed: set<ReleaseKey>)
      requires n <= |outcomes|
      reads this
    {
      && failed == [] && calls == Releases(outcomes, n)
      && applied == RowsOf(outcomes, true, n) && noChange == RowsOf(outcomes, false, n)
      && installed == KeysAfter(outcomes, n, listed)
    }
  }

  ghost function Releases(outcomes: seq<(Planned, Reply)>, n: nat): seq<Planned>
    requires n <= |outcomes|
  {
    if n == 0 then [] else Releases(outcomes, n - 1) + [outcomes[n - 1].0]
  }

  ghost function RowsOf(outcomes: seq<(Planned, Reply)>, applied: bool, n: nat): seq<Planned>
    requires n <= |outcomes|
  {
    if n == 0 then [] else
      var before := RowsOf(outcomes, applied, n - 1);
      if outcomes[n - 1].1.Applied? == applied then before + [outcomes[n - 1].0] else before
  }

  ghost function KeysAfter(outcomes: seq<(Planned, Reply)>, n: nat, listed: set<ReleaseKey>): set<ReleaseKey>
    requires n <= |outcomes|
  {
    if n == 0 then listed else KeysAfter(outcomes, n - 1, listed) + {KeyOf(outcomes[n - 1].0)}
  }

  function Keys(planned: seq<Planned>): set<ReleaseKey> {
    set p | p in planned :: KeyOf(p)
  }

  ghost function BootstrapTally(outcomes: seq<(Planned, Reply)>, applied: bool, n: nat, x: Planned): nat
    requires n <= |outcomes|
  {
    if n == 0 then 0 else
      var here := if outcomes[n - 1].1.Applied? == applied && outcomes[n - 1].0 == x then 1 else 0;
      BootstrapTally(outcomes, applied, n - 1, x) + here
  }

  lemma {:induction false} BootstrapTallied(outcomes: seq<(Planned, Reply)>, applied: bool, n: nat, x: Planned)
    requires n <= |outcomes|
    ensures Count(RowsOf(outcomes, applied, n), x) == BootstrapTally(outcomes, applied, n, x)
  {
    if n > 0 {
      BootstrapTallied(outcomes, applied, n - 1, x);
      CountAdded(RowsOf(outcomes, applied, n - 1), outcomes[n - 1].0, x);
    }
  }

  lemma {:induction false} BootstrapCounted(outcomes: seq<(Planned, Reply)>, n: nat, x: Planned)
    requires n <= |outcomes|
    ensures BootstrapTally(outcomes, true, n, x) + BootstrapTally(outcomes, false, n, x)
      == Count(Releases(outcomes, n), x)
  {
    if n > 0 {
      BootstrapCounted(outcomes, n - 1, x);
      CountAdded(Releases(outcomes, n - 1), outcomes[n - 1].0, x);
    }
  }

  lemma {:induction false} BootstrapRecorded(planned: seq<Planned>, replies: seq<Reply>, n: nat,
                                             listed: set<ReleaseKey>)
    requires |replies| == |planned| && n <= |planned|
    ensures Releases(Answered(planned, replies), n) == planned[..n]
    ensures KeysAfter(Answered(planned, replies), n, listed) == listed + Keys(planned[..n])
  {
    if n > 0 {
      BootstrapRecorded(planned, replies, n - 1, listed);
      assert planned[..n] == planned[..n - 1] + [planned[n - 1]];
      KeysAdded(planned[..n - 1], planned[n - 1]);
    }
  }

  lemma BootstrapBuckets(outcomes: seq<(Planned, Reply)>)
    ensures var n := |outcomes|;
      multiset(RowsOf(outcomes, true, n)) + multiset(RowsOf(outcomes, false, n)) == multiset(Releases(outcomes, n))
  {
    var n := |outcomes|;
    var all := multiset(RowsOf(outcomes, true, n)) + multiset(RowsOf(outcomes, false, n));
    forall x: Planned ensures all[x] == multiset(Releases(outcomes, n))[x] {
      BootstrapTallied(outcomes, true, n, x);
      BootstrapTallied(outcomes, false, n, x);
      BootstrapCounted(outcomes, n, x);
    }
  }

  lemma KeysAdded(planned: seq<Planned>, p: Planned)
    ensures Keys(planned + [p]) == Keys(planned) + {KeyOf(p)}
  {
  }

  /**
   Bootstrap, then the target. A bootstrap failure raises before any target release is tried;
   otherwise every planned release is in exactly one bucket of the summary.
   */
  method Converge(boot: seq<Planned>, bootReplies: seq<Reply>, target: seq<Planned>, replies: seq<Reply>,
                  listed: set<ReleaseKey>, skip: bool)
    returns (r: Result<RunSummary, Planned>)
    requires |bootReplies| == |boot| && |replies| == |target|
    ensures r.Ok? <==> forall i :: 0 <= i < |boot| ==> !bootReplies[i].Failing?
    ensures r.Ok? ==> fresh(r.value) && r.value.Accounts(boot, Run(target, replies, skip, listed + Keys(boot)))
  {
    var summary := new RunSummary(listed);
    var outcomes, tried := Bootstrap(boot, bootReplies);
    if outcomes.Err? {
      return Err(outcomes.error);
    }
    summary.RecordBootstrap(outcomes.value);
    BootstrapRecorded(boot, bootReplies, |boot|, listed);
    BootstrapBuckets(outcomes.value);
    assert boot[..|boot|] == boot;
    summary.ConvergeTarget(Run(target, replies, skip, listed + Keys(boot)), boot);
    return Ok(summary);
  }
}
