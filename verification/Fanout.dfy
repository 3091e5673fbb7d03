/**
 One promotion stage over its matched releases: a worker each, outcomes collected as they
 land, peers cancelled on trouble, and a telemetry interval around the whole run.
 */
module Fanout {
  import opened Wrappers
  import opened Ordering
  import opened PromotionState

  datatype Ref = Ref(namespace: string, name: string)
  datatype Outcome = Outcome(ref: Ref, verdict: Verdict)

  /** How a worker can raise: our own errors unwrapped, any other exception wrapped, or an interrupt. */
  datatype Crash = Infrastructure | WorkerCrashed | Interrupted

  datatype Report = Done(verdict: Verdict) | Raises(crash: Crash)

  /** The clock is past the total deadline when the k-th completion lands. */
  type Lateness = nat -> bool

  const NO_MATCH_REF := Ref("", "<no-match>")

  class CancelEvent {
    var isSet: bool

    constructor ()
      ensures !isSet
    {
      isSet := false;
    }

    /** The only operation: nothing clears the flag. */
    method Set()
      modifies this
      ensures isSet
    {
      isSet := true;
    }
  }

  class Collector {
    var outcomes: seq<Outcome>

    constructor ()
      ensures outcomes == []
    {
      outcomes := [];
    }
  }

  function Identity(n: nat): seq<nat> { seq(n, i => i) }

  /** The workers finish in this order. */
  ghost predicate CompletionOrder(order: seq<nat>, n: nat) {
    multiset(order) == multiset(Identity(n))
  }

  lemma OrderInRange(order: seq<nat>, n: nat)
    requires CompletionOrder(order, n)
    ensures |order| == n && forall k :: 0 <= k < n ==> order[k] < n
  {
    assert |multiset(order)| == |order| && |multiset(Identity(n))| == |Identity(n)|;
    forall k | 0 <= k < |order| ensures order[k] < n {
      assert order[k] in multiset(order);
      assert order[k] in Identity(n);
    }
  }

  function OutcomeOf(matched: seq<Ref>, reports: seq<Report>, i: nat): Outcome
    requires i < |matched| == |reports| && reports[i].Done?
  {
    Outcome(matched[i], reports[i].verdict)
  }

  ghost predicate AllDone(reports: seq<Report>) {
    forall i :: 0 <= i < |reports| ==> reports[i].Done?
  }

  ghost predicate DoneAt(reports: seq<Report>, order: seq<nat>) {
    forall k :: 0 <= k < |order| ==> order[k] < |reports| && reports[order[k]].Done?
  }

  /** The outcomes of these workers, in this order. */
  ghost function Collected(matched: seq<Ref>, reports: seq<Report>, order: seq<nat>): (r: seq<Outcome>)
    requires |matched| == |reports| && DoneAt(reports, order)
    ensures |r| == |order|
  {
    seq(|order|, k requires 0 <= k < |order| => OutcomeOf(matched, reports, order[k]))
  }

  /** The flag is set by an outcome the stage will not go on after, by the deadline, or by a crash. */
  ghost predicate Cancels(matched: seq<Ref>, reports: seq<Report>, order: seq<nat>, late: Lateness,
                          cancelOn: Verdict -> bool, n: nat)
    requires n <= |order| && DoneAt(reports, order[..n])
  {
    exists k :: 0 <= k < n && Trouble(reports, order, late, cancelOn, k)
  }

  ghost predicate Trouble(reports: seq<Report>, order: seq<nat>, late: Lateness, cancelOn: Verdict -> bool, k: nat)
    requires k < |order| && order[k] < |reports| && reports[order[k]].Done?
  {
    cancelOn(reports[order[k]].verdict) || late(k)
  }

  /** Collect outcomes as workers finish; the first worker that raises ends the run. */
  method RunFanout(matched: seq<Ref>, reports: seq<Report>, order: seq<nat>, late: Lateness, cancelOn: Verdict -> bool,
                   cancel: CancelEvent, collector: Collector)
    returns (raised: Option<Crash>, ghost landed: nat)
    requires |reports| == |matched| && CompletionOrder(order, |matched|)
    requires collector.outcomes == [] && !cancel.isSet
    modifies cancel, collector
    ensures landed <= |order| && DoneAt(reports, order[..landed])
    ensures collector.outcomes == Collected(matched, reports, order[..landed])
    ensures raised.None? ==> landed == |order|
    ensures raised.Some? ==>
      landed < |order| == |matched| && order[landed] < |matched| && reports[order[landed]] == Raises(raised.value)
    ensures cancel.isSet <==> raised.Some? || Cancels(matched, reports, order, late, cancelOn, landed)
  {
    OrderInRange(order, |matched|);
    landed := 0;
    for k := 0 to |order|
      invariant landed == k && DoneAt(reports, order[..k])
      invariant collector.outcomes == Collected(matched, reports, order[..k])
      invariant cancel.isSet <==> Cancels(matched, reports, order, late, cancelOn, k)
    {
      var report := reports[order[k]];
      if report.Raises? {
        cancel.Set();
        return Some(report.crash), landed;
      }
      assert order[..k + 1] == order[..k] + [order[k]];
      assert order[..k + 1][..k] == order[..k];
      assert Collected(matched, reports, order[..k + 1])
          == Collected(matched, reports, order[..k]) + [OutcomeOf(matched, reports, order[k])];
      collector.outcomes := collector.outcomes + [Outcome(matched[order[k]], report.verdict)];
      if cancelOn(report.verdict) {
        cancel.Set();
      }
      if late(k) {
        cancel.Set();
      }
      MoreTrouble(matched, reports, order, late, cancelOn, k);
      landed := k + 1;
    }
    return None, landed;
  }

  lemma MoreTrouble(matched: seq<Ref>, reports: seq<Report>, order: seq<nat>, late: Lateness,
                    cancelOn: Verdict -> bool, k: nat)
    requires k < |order| && DoneAt(reports, order[..k]) && order[k] < |reports| && reports[order[k]].Done?
    ensures DoneAt(reports, order[..k + 1])
    ensures Cancels(matched, reports, order, late, cancelOn, k + 1)
      <==> Cancels(matched, reports, order, late, cancelOn, k) || Trouble(reports, order, late, cancelOn, k)
  {
    assert order[..k + 1] == order[..k] + [order[k]];
  }

  // ---- one outcome per release, whatever the completion order -----------------------------

  lemma CollectedRemove(matched: seq<Ref>, reports: seq<Report>, order: seq<nat>, j: nat)
    requires |matched| == |reports| && DoneAt(reports, order) && j < |order|
    ensures DoneAt(reports, order[..j] + order[j + 1..])
    ensures multiset(Collected(matched, reports, order))
         == multiset(Collected(matched, reports, order[..j] + order[j + 1..]))
           + multiset{OutcomeOf(matched, reports, order[j])}
  {
    var all := Collected(matched, reports, order);
    assert Collected(matched, reports, order[..j] + order[j + 1..]) == all[..j] + all[j + 1..];
    Remove(all, j);
  }

  /** Two completion orders of the same workers collect the same outcomes. */
  lemma {:induction false} CollectedPermutes(matched: seq<Ref>, reports: seq<Report>, a: seq<nat>, b: seq<nat>)
    requires |matched| == |reports| && DoneAt(reports, a) && DoneAt(reports, b) && multiset(a) == multiset(b)
    ensures multiset(Collected(matched, reports, a)) == multiset(Collected(matched, reports, b))
    decreases |a|
  {
    assert |a| == |multiset(a)| == |multiset(b)| == |b|;
    if a != [] {
      assert a[0] in multiset(b);
      var j :| 0 <= j < |b| && b[j] == a[0];
      RemoveSame(a, b, 0, j);
      CollectedRemove(matched, reports, a, 0);
      CollectedRemove(matched, reports, b, j);
      CollectedPermutes(matched, reports, a[..0] + a[1..], b[..j] + b[j + 1..]);
    }
  }

  /** `(namespace, name)`, compared as Python compares tuples of strings. */
  function SortKey(o: Outcome): seq<string> { [o.ref.namespace, o.ref.name] }

  predicate RefLe(a: Outcome, b: Outcome) { !StringsLess(SortKey(b), SortKey(a)) }
  predicate RefLess(a: Outcome, b: Outcome) { StringsLess(SortKey(a), SortKey(b)) }

  function SortedByRef(outcomes: seq<Outcome>): (r: seq<Outcome>)
    ensures multiset(r) == multiset(outcomes)
  {
    Sort(RefLe, outcomes)
  }

  lemma RefLeTotal()
    ensures TotalPreorder(RefLe)
    ensures forall a, b, c :: RefLess(a, b) && RefLess(b, c) ==> RefLess(a, c)
    ensures forall a :: !RefLess(a, a)
  {
    StringsLessStrictTotal();
    assert StrictTotal(StringsLess);
    forall a, b, c | RefLe(a, b) && RefLe(b, c) ensures RefLe(a, c) {
      assert SortKey(a) == SortKey(b) || StringsLess(SortKey(a), SortKey(b));
    }
  }

  ghost predicate DistinctRefs(outcomes: seq<Outcome>) {
    forall a, b :: 0 <= a < b < |outcomes| ==> outcomes[a].ref != outcomes[b].ref
  }

  /** Sorting distinct releases leaves no trace of the completion order. */
  lemma SortedUnique(xs: seq<Outcome>, ys: seq<Outcome>)
    requires multiset(xs) == multiset(ys)
    requires DistinctRefs(SortedByRef(xs)) && DistinctRefs(SortedByRef(ys))
    ensures SortedByRef(xs) == SortedByRef(ys)
  {
    RefLeTotal();
    StrictByRef(xs);
    StrictByRef(ys);
    forall o: Outcome ensures o in SortedByRef(xs) <==> o in SortedByRef(ys) {
      assert o in SortedByRef(xs) <==> o in multiset(SortedByRef(xs));
      assert o in SortedByRef(ys) <==> o in multiset(SortedByRef(ys));
    }
    StrictlySortedUnique(RefLess, SortedByRef(xs), SortedByRef(ys));
  }

  lemma StrictByRef(xs: seq<Outcome>)
    requires DistinctRefs(SortedByRef(xs))
    ensures StrictlySorted(RefLess, SortedByRef(xs))
  {
    RefLeTotal();
    StringsLessStrictTotal();
    SortSorted(RefLe, xs);
    var s := SortedByRef(xs);
    forall i, j | 0 <= i < j < |s| ensures RefLess(s[i], s[j]) {
      assert RefLe(s[i], s[j]) && s[i].ref != s[j].ref;
      assert SortKey(s[i])[0] == s[i].ref.namespace && SortKey(s[i])[1] == s[i].ref.name;
      assert SortKey(s[i]) != SortKey(s[j]);
    }
  }
}
