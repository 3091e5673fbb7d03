/**
 The parallel validate runner: row threads sharing one schema load under `schemas_lock`,
 and one dependency update per chart under that chart's own lock. A load renders CRD
 providers, so it takes dependency locks while it holds the schema lock. When a row raises,
 the rows that the pool has not begun may be cancelled.
 */
module ValidateRunner {
  import opened Wrappers

  type Chart = string
  type Tid = nat

  /** On whose behalf a chart is rendered: the thread's own row, or the load it is running. */
  datatype Purpose = ForRow | ForLoad(todo: seq<Chart>)

  /** An exception: a `SpecError`, any other `ChartManagerError`, or anything else. */
  datatype Trouble = Configuration | Known(error: string) | Unknown

  /** What `_schemas` remembers. */
  datatype Memo = NotLoaded | Loaded(schemas: int) | LoadFailed(error: Trouble)

  /** A row ends with a result, which may report a configuration error, or raises, or is never begun. */
  datatype Ending = Done | Raised | Cancelled

  function EndOf(trouble: Trouble): Ending { if trouble.Configuration? then Done else Raised }

  /** Where one row thread stands. The suffix of `todo` is what a load still has to render. */
  datatype Pc =
    | Pending
    | Begun
    | WantDependencies(why: Purpose)
    | HoldDependencies(why: Purpose)
    | Updating(why: Purpose)
    | DependenciesReady(why: Purpose)
    | Templating(why: Purpose)
    | Rendered(manifests: bool)
    | WantSchemas
    | HoldSchemas
    | Loading(todo: seq<Chart>)
    | Checking
    | Finished(how: Ending)

  datatype State = State(
    threads: seq<Pc>,
    schemaHolder: Option<Tid>,
    chartHolders: map<Chart, Tid>,
    ready: set<Chart>,
    memo: Memo,
    // What has happened so far.
    attempts: nat,
    aborted: nat,
    checks: map<Chart, nat>,
    templated: set<Chart>,
    seen: map<Tid, Memo>
  )

  /** The rows to check, the size of the thread pool, and a bound on what one load renders. */
  datatype Job = Job(rows: seq<Chart>, workers: nat, maxRenders: nat)

  /** A row outside its locks. */
  datatype RowAction =
    | Start
    | CancelRow                    // the caller has met a row that raised
    | Reject(trouble: Trouble)     // before anything is locked
    | Request
    | SkipSchemas
    | AskSchemas
    | EndRow(last: Option<Trouble>)

  /** Rendering one chart, for the row or for the load. */
  datatype RenderAction =
    | LockChart
    | SkipUpdate
    | BeginUpdate
    | UpdateSucceeds
    | UpdateFails                  // any command error but a missing tool: recorded, work goes on
    | UpdateRaises(trouble: Trouble)
    | BeginTemplate
    | EndTemplate(manifests: bool)
    | TemplateRaises(trouble: Trouble)

  /** Getting the schemas. */
  datatype LoadAction =
    | LockSchemas
    | UseMemo
    | BeginLoad(todo: seq<Chart>)
    | RequestNext
    | PassOver                     // a provider that cannot be rendered at all
    | EndLoad(memo: Memo)
    | AbortLoad                    // an exception that is not a ChartManagerError

  datatype Action = Row(row: RowAction) | Render(render: RenderAction) | Load(load: LoadAction)

  function ChartOf(job: Job, t: Tid, why: Purpose): Chart
    requires t < |job.rows|
  {
    match why
    case ForRow => job.rows[t]
    case ForLoad(todo) => if todo == [] then job.rows[t] else todo[0]
  }

  predicate IsActive(pc: Pc) { !pc.Pending? && !pc.Finished? }

  function Active(threads: seq<Pc>): nat {
    if threads == [] then 0 else Active(threads[1..]) + if IsActive(threads[0]) then 1 else 0
  }

  predicate HasWhy(pc: Pc) {
    pc.WantDependencies? || pc.HoldDependencies? || pc.Updating? || pc.DependenciesReady? || pc.Templating?
  }

  /** Inside `with self.schemas_lock`. */
  predicate InSchemas(pc: Pc) {
    pc.HoldSchemas? || pc.Loading? || (HasWhy(pc) && pc.why.ForLoad?)
  }

  /** Inside `with self.dependency_locks[...]`. */
  predicate InChart(pc: Pc) {
    pc.HoldDependencies? || pc.Updating?
  }

  /** The pool takes rows in order. */
  predicate NextRow(threads: seq<Pc>, t: Tid) {
    t < |threads| && threads[t].Pending? && forall u :: 0 <= u < t ==> !threads[u].Pending?
  }

  predicate RaisedFirst(threads: seq<Pc>, u: Tid) {
    u < |threads| && threads[u] == Finished(Raised) && forall w :: 0 <= w < u ==> threads[w] == Finished(Done)
  }

  /** Collecting the results in order, the caller has come to a row that raised. */
  predicate GivenUp(threads: seq<Pc>) {
    exists u :: 0 <= u < |threads| && RaisedFirst(threads, u)
  }

  predicate RowEnabled(job: Job, s: State, t: Tid, a: RowAction)
    requires t < |s.threads|
  {
    var pc := s.threads[t];
    match a
    case Start => NextRow(s.threads, t) && Active(s.threads) < job.workers
    case CancelRow => pc.Pending? && GivenUp(s.threads)
    case Reject(_) => pc.Begun?
    case Request => pc.Begun?
    case SkipSchemas => pc.Rendered?
    case AskSchemas => pc.Rendered? && pc.manifests
    case EndRow(_) => pc.Checking?
  }

  predicate RenderEnabled(job: Job, s: State, t: Tid, a: RenderAction)
    requires t < |s.threads| && t < |job.rows|
  {
    var pc := s.threads[t];
    match a
    case LockChart => pc.WantDependencies? && ChartOf(job, t, pc.why) !in s.chartHolders
    case SkipUpdate => pc.HoldDependencies? && ChartOf(job, t, pc.why) in s.ready
    case BeginUpdate => pc.HoldDependencies? && ChartOf(job, t, pc.why) !in s.ready
    case UpdateSucceeds => pc.Updating?
    case UpdateFails => pc.Updating?
    case UpdateRaises(_) => pc.Updating?
    case BeginTemplate => pc.DependenciesReady?
    case EndTemplate(_) => pc.Templating?
    case TemplateRaises(_) => pc.Templating?
  }

  predicate LoadEnabled(job: Job, s: State, t: Tid, a: LoadAction)
    requires t < |s.threads|
  {
    var pc := s.threads[t];
    match a
    case LockSchemas => pc.WantSchemas? && s.schemaHolder.None?
    case UseMemo => pc.HoldSchemas? && s.memo != NotLoaded
    case BeginLoad(todo) => pc.HoldSchemas? && s.memo == NotLoaded && |todo| <= job.maxRenders
    case RequestNext => pc.Loading? && pc.todo != []
    case PassOver => pc.Loading? && pc.todo != []
    case EndLoad(memo) =>
      && pc.Loading? && memo != NotLoaded
      && (memo.Loaded? ==> pc.todo == []) && (memo.LoadFailed? ==> !memo.error.Unknown?)
    case AbortLoad => pc.Loading?
  }

  predicate Enabled(job: Job, s: State, t: Tid, a: Action) {
    t < |s.threads| && t < |job.rows| &&
    match a
    case Row(r) => RowEnabled(job, s, t, r)
    case Render(r) => RenderEnabled(job, s, t, r)
    case Load(l) => LoadEnabled(job, s, t, l)
  }

  function Goto(s: State, t: Tid, pc: Pc): State
    requires t < |s.threads|
  {
    s.(threads := s.threads[t := pc])
  }

  function Rest(todo: seq<Chart>): seq<Chart> { if todo == [] then [] else todo[1..] }

  /** The render for `why` is over: the row goes on, or the load takes its next chart. */
  function AfterRender(why: Purpose, manifests: bool): Pc {
    match why
    case ForRow => Rendered(manifests)
    case ForLoad(todo) => Loading(Rest(todo))
  }

  /** The load is over, or is remembered: every row gets the schemas or the error. */
  function AfterMemo(memo: Memo): Pc {
    if memo.LoadFailed? then Finished(EndOf(memo.error)) else Checking
  }

  function Remember(s: State, t: Tid, memo: Memo): State
    requires t < |s.threads|
  {
    Goto(s, t, AfterMemo(memo)).(schemaHolder := None, memo := memo, seen := s.seen[t := memo])
  }

  function Abort(s: State, t: Tid): State
    requires t < |s.threads|
  {
    Goto(s, t, Finished(Raised)).(schemaHolder := None, aborted := s.aborted + 1)
  }

  /**
   A render raises. For the row, that ends it. A load notes a configuration error and takes its next
   chart, remembers any other known error, and remembers nothing of an unknown one.
   */
  function Raise(s: State, t: Tid, why: Purpose, trouble: Trouble): State
    requires t < |s.threads|
  {
    match why
    case ForRow => Goto(s, t, Finished(EndOf(trouble)))
    case ForLoad(todo) =>
      match trouble
      case Configuration => Goto(s, t, Loading(Rest(todo)))
      case Known(_) => Remember(s, t, LoadFailed(trouble))
      case Unknown => Abort(s, t)
  }

  function Count(checks: map<Chart, nat>, c: Chart): nat {
    if c in checks then checks[c] else 0
  }

  /** Only thread `t` moves. */
  ghost predicate Moved(s: State, s': State, t: Tid)
    requires t < |s.threads|
  {
    |s'.threads| == |s.threads| && s'.threads == s.threads[t := s'.threads[t]]
  }

  function ApplyRow(job: Job, s: State, t: Tid, a: RowAction): (s': State)
    requires t < |s.threads| && RowEnabled(job, s, t, a)
    ensures Moved(s, s', t)
  {
    match a
    case Start => Goto(s, t, Begun)
    case CancelRow => Goto(s, t, Finished(Cancelled))
    case Reject(trouble) => Goto(s, t, Finished(EndOf(trouble)))
    case Request => Goto(s, t, WantDependencies(ForRow))
    case SkipSchemas => Goto(s, t, Checking)
    case AskSchemas => Goto(s, t, WantSchemas)
    case EndRow(last) => Goto(s, t, Finished(if last.Some? then EndOf(last.value) else Done))
  }

  function ApplyRender(job: Job, s: State, t: Tid, a: RenderAction): (s': State)
    requires t < |s.threads| && t < |job.rows| && RenderEnabled(job, s, t, a)
    ensures Moved(s, s', t)
  {
    var why := s.threads[t].why;
    var c := ChartOf(job, t, why);
    match a
    case LockChart => Goto(s, t, HoldDependencies(why)).(chartHolders := s.chartHolders[c := t])
    case SkipUpdate => Goto(s, t, DependenciesReady(why)).(chartHolders := s.chartHolders - {c})
    case BeginUpdate => Goto(s, t, Updating(why))
    case UpdateSucceeds =>
      Goto(s, t, DependenciesReady(why)).(
        chartHolders := s.chartHolders - {c}, ready := s.ready + {c}, checks := s.checks[c := Count(s.checks, c) + 1])
    case UpdateFails => Goto(s, t, AfterRender(why, false)).(chartHolders := s.chartHolders - {c})
    case UpdateRaises(trouble) => Raise(s.(chartHolders := s.chartHolders - {c}), t, why, trouble)
    case BeginTemplate => Goto(s, t, Templating(why)).(templated := s.templated + {c})
    case EndTemplate(manifests) => Goto(s, t, AfterRender(why, manifests))
    case TemplateRaises(trouble) => Raise(s, t, why, trouble)
  }

  function ApplyLoad(job: Job, s: State, t: Tid, a: LoadAction): (s': State)
    requires t < |s.threads| && LoadEnabled(job, s, t, a)
    ensures Moved(s, s', t)
  {
    var pc := s.threads[t];
    match a
    case LockSchemas => Goto(s, t, HoldSchemas).(schemaHolder := Some(t))
    case UseMemo => Remember(s, t, s.memo)
    case BeginLoad(todo) => Goto(s, t, Loading(todo)).(attempts := s.attempts + 1)
    case RequestNext => Goto(s, t, WantDependencies(ForLoad(pc.todo)))
    case PassOver => Goto(s, t, Loading(Rest(pc.todo)))
    case EndLoad(memo) => Remember(s, t, memo)
    case AbortLoad => Abort(s, t)
  }

  function Apply(job: Job, s: State, t: Tid, a: Action): (s': State)
    requires Enabled(job, s, t, a)
    ensures Moved(s, s', t)
  {
    match a
    case Row(r) => ApplyRow(job, s, t, r)
    case Render(r) => ApplyRender(job, s, t, r)
    case Load(l) => ApplyLoad(job, s, t, l)
  }

  predicate Initial(job: Job, s: State) {
    && |s.threads| == |job.rows|
    && (forall t :: 0 <= t < |s.threads| ==> s.threads[t].Pending?)
    && s.schemaHolder.None? && s.chartHolders == map[] && s.ready == {} && s.memo == NotLoaded
    && s.attempts == 0 && s.aborted == 0 && s.checks == map[] && s.templated == {} && s.seen == map[]
  }

  ghost predicate Step(job: Job, s: State, s': State) {
    exists t, a :: Enabled(job, s, t, a) && s' == Apply(job, s, t, a)
  }

  ghost predicate StepFrom(job: Job, run: seq<State>, i: nat)
    requires i + 1 < |run|
  {
    Step(job, run[i], run[i + 1])
  }

  ghost predicate Run(job: Job, run: seq<State>) {
    && |run| > 0 && Initial(job, run[0])
    && forall i :: 0 <= i < |run| - 1 ==> StepFrom(job, run, i)
  }

  // ---- the invariant ------------------------------------------------------------------

  /** One thread against the shared state. */
  predicate ThreadOk(job: Job, s: State, t: Tid)
    requires t < |s.threads| == |job.rows|
  {
    var pc := s.threads[t];
    && (InSchemas(pc) <==> s.schemaHolder == Some(t))
    && (HasWhy(pc) && pc.why.ForLoad? ==> pc.why.todo != [] && |pc.why.todo| <= job.maxRenders)
    && (pc.Loading? ==> |pc.todo| <= job.maxRenders)
    && (InChart(pc) ==> ChartOf(job, t, pc.why) in s.chartHolders && s.chartHolders[ChartOf(job, t, pc.why)] == t)
    && (pc.Updating? ==> ChartOf(job, t, pc.why) !in s.ready)
    && (pc.DependenciesReady? || pc.Templating? ==> ChartOf(job, t, pc.why) in s.ready)
    && (InSchemas(pc) && !pc.HoldSchemas? ==> s.memo == NotLoaded)
    && (t in s.seen ==> (pc.Checking? || pc.Finished?) && s.seen[t] == s.memo != NotLoaded)
  }

  predicate ThreadsOk(job: Job, s: State)
    requires |s.threads| == |job.rows|
  {
    forall t :: 0 <= t < |s.threads| ==> ThreadOk(job, s, t)
  }

  predicate HolderOk(job: Job, s: State, c: Chart)
    requires |s.threads| == |job.rows|
    requires c in s.chartHolders
  {
    var t := s.chartHolders[c];
    t < |s.threads| && InChart(s.threads[t]) && ChartOf(job, t, s.threads[t].why) == c
  }

  /** A load is running. */
  predicate LoadRunning(s: State) {
    s.schemaHolder.Some? && s.schemaHolder.value < |s.threads| && !s.threads[s.schemaHolder.value].HoldSchemas?
  }

  /** Charts are ready after one check and rendered when ready; the load is attempted once but for the aborted ones. */
  ghost predicate CountsOk(s: State) {
    && (forall t :: t in s.seen ==> t < |s.threads|)
    && s.templated <= s.ready
    && (forall c :: Count(s.checks, c) == if c in s.ready then 1 else 0)
    && s.attempts == s.aborted + (if s.memo != NotLoaded || LoadRunning(s) then 1 else 0)
    && (s.schemaHolder.Some? ==> s.schemaHolder.value < |s.threads|)
  }

  ghost predicate Inv(job: Job, s: State) {
    && |s.threads| == |job.rows| && ThreadsOk(job, s)
    && (forall c :: c in s.chartHolders ==> HolderOk(job, s, c))
    && CountsOk(s)
  }

  lemma InitialInv(job: Job, s: State)
    requires Initial(job, s)
    ensures Inv(job, s)
  {
  }

  /** Outside its locks, a row changes nothing but where it stands. */
  lemma RowInv(job: Job, s: State, t: Tid, a: RowAction)
    requires Inv(job, s) && t < |s.threads| && RowEnabled(job, s, t, a)
    ensures Inv(job, ApplyRow(job, s, t, a))
  {
    var s' := ApplyRow(job, s, t, a);
    assert ThreadOk(job, s, t);
    RowOthers(job, s, t, s'.threads[t]);
  }

  lemma RowOthers(job: Job, s: State, t: Tid, pc: Pc)
    requires Inv(job, s) && t < |s.threads|
    requires !InSchemas(s.threads[t]) && !InChart(s.threads[t]) && !InSchemas(pc) && !InChart(pc)
    requires ThreadOk(job, Goto(s, t, pc), t)
    ensures Inv(job, Goto(s, t, pc))
  {
    var s' := Goto(s, t, pc);
    forall u: Tid | u < |s'.threads| ensures ThreadOk(job, s', u) {
      assert ThreadOk(job, s, u);
    }
    forall c | c in s'.chartHolders ensures HolderOk(job, s', c) {
      assert HolderOk(job, s, c);
    }
    if s.schemaHolder.Some? {
      assert ThreadOk(job, s, s.schemaHolder.value);
    }
  }

  lemma RenderOwn(job: Job, s: State, t: Tid, a: RenderAction)
    requires Inv(job, s) && t < |s.threads| && RenderEnabled(job, s, t, a)
    ensures ThreadOk(job, ApplyRender(job, s, t, a), t)
  {
    assert ThreadOk(job, s, t);
  }

  lemma RenderOthers(job: Job, s: State, t: Tid, a: RenderAction, u: Tid)
    requires Inv(job, s) && t < |s.threads| && RenderEnabled(job, s, t, a) && u < |s.threads| && u != t
    ensures ThreadOk(job, ApplyRender(job, s, t, a), u)
  {
    assert ThreadOk(job, s, t) && ThreadOk(job, s, u);
    var s' := ApplyRender(job, s, t, a);
    assert s'.threads[u] == s.threads[u];
    assert u in s'.seen <==> u in s.seen;
  }

  lemma RenderHolders(job: Job, s: State, t: Tid, a: RenderAction, c: Chart)
    requires Inv(job, s) && t < |s.threads| && RenderEnabled(job, s, t, a)
    requires c in ApplyRender(job, s, t, a).chartHolders
    ensures HolderOk(job, ApplyRender(job, s, t, a), c)
  {
    assert ThreadOk(job, s, t);
    if c in s.chartHolders {
      assert HolderOk(job, s, c);
    }
  }

  lemma RenderTallies(job: Job, s: State, t: Tid, a: RenderAction)
    requires Inv(job, s) && t < |s.threads| && RenderEnabled(job, s, t, a)
    ensures var s' := ApplyRender(job, s, t, a);
      && (forall u :: u in s'.seen ==> u < |s'.threads|)
      && s'.templated <= s'.ready
      && (forall c :: Count(s'.checks, c) == if c in s'.ready then 1 else 0)
  {
    assert ThreadOk(job, s, t);
  }

  lemma RenderAttempts(job: Job, s: State, t: Tid, a: RenderAction)
    requires Inv(job, s) && t < |s.threads| && RenderEnabled(job, s, t, a)
    ensures var s' := ApplyRender(job, s, t, a);
      && s'.attempts == s'.aborted + (if s'.memo != NotLoaded || LoadRunning(s') then 1 else 0)
      && (s'.schemaHolder.Some? ==> s'.schemaHolder.value < |s'.threads|)
  {
    assert ThreadOk(job, s, t);
    if s.schemaHolder.Some? {
      assert ThreadOk(job, s, s.schemaHolder.value);
    }
  }

  /** Another thread's step only matters to a thread through the locks, and those it holds stay its own. */
  lemma RenderThreads(job: Job, s: State, t: Tid, a: RenderAction)
    requires Inv(job, s) && t < |s.threads| && RenderEnabled(job, s, t, a)
    ensures ThreadsOk(job, ApplyRender(job, s, t, a))
  {
    var s' := ApplyRender(job, s, t, a);
    forall u: Tid | u < |s'.threads| ensures ThreadOk(job, s', u) {
      if u == t { RenderOwn(job, s, t, a); } else { RenderOthers(job, s, t, a, u); }
    }
  }

  lemma RenderInv(job: Job, s: State, t: Tid, a: RenderAction)
    requires Inv(job, s) && t < |s.threads| && RenderEnabled(job, s, t, a)
    ensures Inv(job, ApplyRender(job, s, t, a))
  {
    RenderThreads(job, s, t, a);
    forall c | c in ApplyRender(job, s, t, a).chartHolders ensures HolderOk(job, ApplyRender(job, s, t, a), c) {
      RenderHolders(job, s, t, a, c);
    }
    RenderTallies(job, s, t, a);
    RenderAttempts(job, s, t, a);
  }

  lemma LoadOwn(job: Job, s: State, t: Tid, a: LoadAction)
    requires Inv(job, s) && t < |s.threads| && LoadEnabled(job, s, t, a)
    ensures ThreadOk(job, ApplyLoad(job, s, t, a), t) && CountsOk(ApplyLoad(job, s, t, a))
  {
    assert ThreadOk(job, s, t);
  }

  lemma LoadOthers(job: Job, s: State, t: Tid, a: LoadAction, u: Tid)
    requires Inv(job, s) && t < |s.threads| && LoadEnabled(job, s, t, a) && u < |s.threads| && u != t
    ensures ThreadOk(job, ApplyLoad(job, s, t, a), u)
  {
    assert ThreadOk(job, s, t) && ThreadOk(job, s, u);
    var s' := ApplyLoad(job, s, t, a);
    assert s'.threads[u] == s.threads[u];
    assert u in s'.seen <==> u in s.seen;
  }

  lemma LoadInv(job: Job, s: State, t: Tid, a: LoadAction)
    requires Inv(job, s) && t < |s.threads| && LoadEnabled(job, s, t, a)
    ensures Inv(job, ApplyLoad(job, s, t, a))
  {
    var s' := ApplyLoad(job, s, t, a);
    LoadOwn(job, s, t, a);
    forall u: Tid | u < |s'.threads| && u != t ensures ThreadOk(job, s', u) {
      LoadOthers(job, s, t, a, u);
    }
    forall c | c in s'.chartHolders ensures HolderOk(job, s', c) {
      assert HolderOk(job, s, c);
    }
  }

  lemma StepInv(job: Job, s: State, t: Tid, a: Action)
    requires Inv(job, s) && Enabled(job, s, t, a)
    ensures Inv(job, Apply(job, s, t, a))
  {
    match a
    case Row(r) => RowInv(job, s, t, r);
    case Render(r) => RenderInv(job, s, t, r);
    case Load(l) => LoadInv(job, s, t, l);
  }

  // ---- whole runs ---------------------------------------------------------------------

  lemma StepAt(job: Job, run: seq<State>, i: nat) returns (t: Tid, a: Action)
    requires Run(job, run) && i + 1 < |run|
    ensures Enabled(job, run[i], t, a) && run[i + 1] == Apply(job, run[i], t, a)
  {
    assert StepFrom(job, run, i);
    t, a :| Enabled(job, run[i], t, a) && run[i + 1] == Apply(job, run[i], t, a);
  }

  /** Readiness, rendered charts and the remembered load only ever grow. */
  lemma StepKeeps(job: Job, s: State, t: Tid, a: Action)
    requires Inv(job, s) && Enabled(job, s, t, a)
    ensures s.ready <= Apply(job, s, t, a).ready && s.templated <= Apply(job, s, t, a).templated
    ensures s.memo != NotLoaded ==> Apply(job, s, t, a).memo == s.memo && Apply(job, s, t, a).attempts == s.attempts
  {
    assert ThreadOk(job, s, t);
  }

  lemma RunKeeps(job: Job, run: seq<State>, i: nat)
    requires Run(job, run) && i + 1 < |run|
    ensures run[i].ready <= run[i + 1].ready && run[i].templated <= run[i + 1].templated
    ensures run[i].memo != NotLoaded ==> run[i + 1].memo == run[i].memo && run[i + 1].attempts == run[i].attempts
  {
    RunInv(job, run, i);
    var t, a := StepAt(job, run, i);
    StepKeeps(job, run[i], t, a);
  }

  lemma {:induction false} RunInv(job: Job, run: seq<State>, i: nat)
    requires Run(job, run) && i < |run|
    ensures Inv(job, run[i])
  {
    if i == 0 {
      InitialInv(job, run[0]);
    } else {
      RunInv(job, run, i - 1);
      var t, a := StepAt(job, run, i - 1);
      StepInv(job, run[i - 1], t, a);
    }
  }

  /**
   The load is attempted once for the result that is remembered or under way, and once for every
   attempt that an unexpected exception cut short; so it is attempted at most once exactly until the
   first such exception is followed by another attempt. Every row that asked sees the remembered result.
   */
  lemma LoadedOnce(job: Job, run: seq<State>, i: nat, t: Tid, u: Tid)
    requires Run(job, run) && i < |run|
    ensures var s := run[i];
      && s.attempts == s.aborted + (if s.memo != NotLoaded || LoadRunning(s) then 1 else 0)
      && (s.attempts <= 1 <==> s.aborted == 0 || (s.aborted == 1 && s.memo == NotLoaded && !LoadRunning(s)))
    ensures t in run[i].seen && u in run[i].seen ==> run[i].seen[t] == run[i].seen[u] == run[i].memo
  {
    RunInv(job, run, i);
    assert t in run[i].seen ==> ThreadOk(job, run[i], t);
    assert u in run[i].seen ==> ThreadOk(job, run[i], u);
  }

  /** The run goes on with one more step. */
  lemma Extended(job: Job, run: seq<State>, t: Tid, a: Action) returns (longer: seq<State>)
    requires Run(job, run) && Enabled(job, run[|run| - 1], t, a)
    ensures longer == run + [Apply(job, run[|run| - 1], t, a)] && Run(job, longer)
  {
    longer := run + [Apply(job, run[|run| - 1], t, a)];
    forall i: nat | i < |longer| - 1 ensures StepFrom(job, longer, i) {
      if i < |run| - 1 {
        assert StepFrom(job, run, i);
      }
    }
  }

  function Last(run: seq<State>): State
    requires run != []
  {
    run[|run| - 1]
  }

  /** A row whose chart nobody has prepared yet can update its dependencies. */
  lemma RowPrepares(job: Job, run: seq<State>, t: Tid) returns (longer: seq<State>)
    requires Run(job, run) && t < |job.rows| == |Last(run).threads| && Last(run).threads[t].Begun?
    requires Last(run).chartHolders == map[] && job.rows[t] !in Last(run).ready
    ensures Run(job, longer)
    ensures var s, c := Last(run), job.rows[t];
      Last(longer) == s.(threads := s.threads[t := DependenciesReady(ForRow)], ready := s.ready + {c},
                         checks := s.checks[c := Count(s.checks, c) + 1])
  {
    var s := Last(run);
    longer := Extended(job, run, t, Row(Request));
    longer := Extended(job, longer, t, Render(LockChart));
    longer := Extended(job, longer, t, Render(BeginUpdate));
    longer := Extended(job, longer, t, Render(UpdateSucceeds));
    assert Last(longer).threads == s.threads[t := DependenciesReady(ForRow)];
    assert Last(longer).chartHolders == s.chartHolders;
  }

  /** And then get as far as waiting for the schemas. */
  lemma RowAsks(job: Job, run: seq<State>, t: Tid) returns (longer: seq<State>)
    requires Run(job, run) && t < |job.rows| == |Last(run).threads| && Last(run).threads[t].Begun?
    requires Last(run).chartHolders == map[] && job.rows[t] !in Last(run).ready
    ensures Run(job, longer)
    ensures var s, c := Last(run), job.rows[t];
      Last(longer) == s.(threads := s.threads[t := WantSchemas], ready := s.ready + {c},
                         checks := s.checks[c := Count(s.checks, c) + 1], templated := s.templated + {c})
  {
    var s := Last(run);
    longer := RowPrepares(job, run, t);
    longer := Extended(job, longer, t, Render(BeginTemplate));
    longer := Extended(job, longer, t, Render(EndTemplate(true)));
    longer := Extended(job, longer, t, Row(AskSchemas));
    assert Last(longer).threads == s.threads[t := WantSchemas];
  }

  /** The schema lock is free and nothing is remembered: the waiting row starts a load. */
  lemma LoadBegins(job: Job, run: seq<State>, t: Tid) returns (longer: seq<State>)
    requires Run(job, run) && t < |job.rows| == |Last(run).threads| && Last(run).threads[t].WantSchemas?
    requires Last(run).schemaHolder.None? && Last(run).memo == NotLoaded
    ensures Run(job, longer)
    ensures var s := Last(run);
      Last(longer) == s.(threads := s.threads[t := Loading([])], schemaHolder := Some(t), attempts := s.attempts + 1)
  {
    var s := Last(run);
    longer := Extended(job, run, t, Load(LockSchemas));
    longer := Extended(job, longer, t, Load(BeginLoad([])));
    assert Last(longer).threads == s.threads[t := Loading([])];
  }

  /** Two workers have begun the two rows. */
  lemma BothBegin(job: Job) returns (run: seq<State>)
    requires |job.rows| == 2 && job.workers >= 2
    ensures Run(job, run)
    ensures Last(run) == State([Begun, Begun], None, map[], {}, NotLoaded, 0, 0, map[], {}, map[])
  {
    run := [State([Pending, Pending], None, map[], {}, NotLoaded, 0, 0, map[], {}, map[])];
    assert [Pending, Pending][1..] == [Pending] && [Begun, Pending][1..] == [Pending] && [Pending][1..] == [];
    run := Extended(job, run, 0, Row(Start));
    assert Last(run).threads == [Begun, Pending];
    run := Extended(job, run, 1, Row(Start));
    assert Last(run).threads == [Begun, Begun];
  }

  /**
   A load that ends in an unexpected exception is not remembered: a row that waited for the schema
   lock meanwhile loads again.
   */
  lemma LoadedTwice(a: Chart, b: Chart) returns (run: seq<State>)
    requires a != b
    ensures var job := Job([a, b], 2, 0);
      && Run(job, run) && Last(run).attempts == 2 && Last(run).aborted == 1 && Last(run).seen == map[]
      && Last(run).threads == [Finished(Raised), Loading([])]
  {
    var job := Job([a, b], 2, 0);
    run := BothBegin(job);
    run := RowAsks(job, run, 0);
    run := RowAsks(job, run, 1);
    run := LoadBegins(job, run, 0);
    run := Extended(job, run, 0, Load(AbortLoad));
    run := LoadBegins(job, run, 1);
  }

  /** Once loaded or failed, the result never changes and nothing is loaded again. */
  lemma {:induction false} MemoIsFinal(job: Job, run: seq<State>, i: nat, j: nat)
    requires Run(job, run) && i <= j < |run| && run[i].memo != NotLoaded
    ensures run[j].memo == run[i].memo && run[j].attempts == run[i].attempts
  {
    if i < j {
      MemoIsFinal(job, run, i, j - 1);
      RunKeeps(job, run, j - 1);
    }
  }

  /** Each chart's dependencies are checked successfully at most once. */
  lemma CheckedOnce(job: Job, run: seq<State>, i: nat, c: Chart)
    requires Run(job, run) && i < |run|
    ensures Count(run[i].checks, c) <= 1
  {
    RunInv(job, run, i);
  }

  /** The schema lock is never waited for while a dependency lock is held. */
  lemma LockOrder(job: Job, run: seq<State>, i: nat, t: Tid, c: Chart)
    requires Run(job, run) && i < |run| && t < |run[i].threads| && run[i].threads[t].WantSchemas?
    ensures !(c in run[i].chartHolders && run[i].chartHolders[c] == t)
  {
    RunInv(job, run, i);
    assert c in run[i].chartHolders ==> HolderOk(job, run[i], c);
  }

  lemma {:induction false} ReadyStays(job: Job, run: seq<State>, i: nat, j: nat)
    requires Run(job, run) && i <= j < |run|
    ensures run[i].ready <= run[j].ready && run[i].templated <= run[j].templated
  {
    if i < j {
      ReadyStays(job, run, i, j - 1);
      RunKeeps(job, run, j - 1);
    }
  }

  /** No template of a chart overlaps a dependency update of it, nor comes before one. */
  lemma TemplatesFollowUpdates(job: Job, run: seq<State>, i: nat, j: nat, u: Tid, c: Chart)
    requires Run(job, run) && i <= j < |run| && c in run[i].templated
    requires u < |run[j].threads| && u < |job.rows|
    ensures !(run[j].threads[u].Updating? && ChartOf(job, u, run[j].threads[u].why) == c)
  {
    RunInv(job, run, i);
    RunInv(job, run, j);
    ReadyStays(job, run, i, j);
    assert ThreadOk(job, run[j], u);
  }

  // ---- progress -----------------------------------------------------------------------

  ghost predicate CanStep(job: Job, s: State) {
    exists t, a :: Enabled(job, s, t, a)
  }

  lemma {:induction false} NoneActive(threads: seq<Pc>)
    requires forall t :: 0 <= t < |threads| ==> !IsActive(threads[t])
    ensures Active(threads) == 0
  {
    if threads != [] {
      NoneActive(threads[1..]);
    }
  }

  /** A thread that holds a chart's lock is never blocked. */
  lemma ChartHolderSteps(job: Job, s: State, t: Tid)
    requires Inv(job, s) && t < |s.threads| && InChart(s.threads[t])
    ensures CanStep(job, s)
  {
    var pc := s.threads[t];
    var a :=
      if pc.Updating? then Render(UpdateSucceeds)
      else if ChartOf(job, t, pc.why) in s.ready then Render(SkipUpdate) else Render(BeginUpdate);
    assert Enabled(job, s, t, a);
  }

  /** With every chart's lock free, a thread waits only for the schema lock. */
  lemma FreeThreadSteps(job: Job, s: State, t: Tid)
    requires Inv(job, s) && t < |s.threads| && IsActive(s.threads[t]) && s.chartHolders == map[]
    requires !InChart(s.threads[t])
    requires s.threads[t].WantSchemas? ==> s.schemaHolder.None?
    ensures CanStep(job, s)
  {
    assert ThreadOk(job, s, t);
    var pc := s.threads[t];
    var a :=
      match pc
      case Begun => Row(Request)
      case WantDependencies(_) => Render(LockChart)
      case DependenciesReady(_) => Render(BeginTemplate)
      case Templating(_) => Render(EndTemplate(true))
      case Rendered(_) => Row(SkipSchemas)
      case Checking => Row(EndRow(None))
      case WantSchemas => Load(LockSchemas)
      case HoldSchemas => if s.memo == NotLoaded then Load(BeginLoad([])) else Load(UseMemo)
      case Loading(todo) => if todo == [] then Load(EndLoad(Loaded(0))) else Load(RequestNext)
      case _ => Render(UpdateSucceeds);
    assert Enabled(job, s, t, a);
  }

  lemma {:induction false} FirstPending(threads: seq<Pc>, t: Tid) returns (u: Tid)
    requires t < |threads| && threads[t].Pending?
    ensures NextRow(threads, u)
  {
    u := t;
    if exists w :: 0 <= w < t && threads[w].Pending? {
      var w :| 0 <= w < t && threads[w].Pending?;
      u := FirstPending(threads, w);
    }
  }

  /** No deadlock: until every row is finished, some thread can take a step. */
  lemma NoDeadlock(job: Job, run: seq<State>, i: nat, t: Tid)
    requires Run(job, run) && i < |run| && job.workers >= 1
    requires t < |run[i].threads| && !run[i].threads[t].Finished?
    ensures CanStep(job, run[i])
  {
    RunInv(job, run, i);
    var s := run[i];
    if s.chartHolders != map[] {
      var c :| c in s.chartHolders;
      assert HolderOk(job, s, c);
      ChartHolderSteps(job, s, s.chartHolders[c]);
    } else if s.schemaHolder.Some? {
      var h := s.schemaHolder.value;
      assert ThreadOk(job, s, h);
      assert InSchemas(s.threads[h]);
      FreeThreadSteps(job, s, h);
    } else if exists u :: 0 <= u < |s.threads| && IsActive(s.threads[u]) {
      var u :| 0 <= u < |s.threads| && IsActive(s.threads[u]);
      assert ThreadOk(job, s, u);
      FreeThreadSteps(job, s, u);
    } else {
      assert !IsActive(s.threads[t]);
      NoneActive(s.threads);
      var next := FirstPending(s.threads, t);
      assert Enabled(job, s, next, Row(Start));
    }
  }

  /** Steps a thread can still take at most. */
  function Rank(job: Job, pc: Pc): nat {
    var load := 6 * job.maxRenders;
    match pc
    case Pending => load + 12
    case Begun => load + 11
    case WantDependencies(why) => RenderRank(job, why) + 5
    case HoldDependencies(why) => RenderRank(job, why) + 4
    case Updating(why) => RenderRank(job, why) + 3
    case DependenciesReady(why) => RenderRank(job, why) + 2
    case Templating(why) => RenderRank(job, why) + 1
    case Rendered(_) => load + 5
    case WantSchemas => load + 4
    case HoldSchemas => load + 3
    case Loading(todo) => 6 * |todo| + 2
    case Checking => 1
    case Finished(_) => 0
  }

  /** The rank after the render is over. */
  function RenderRank(job: Job, why: Purpose): nat {
    match why
    case ForRow => 6 * job.maxRenders + 5
    case ForLoad(todo) => if todo == [] then 2 else 6 * (|todo| - 1) + 2
  }

  function TotalRank(job: Job, threads: seq<Pc>): nat {
    if threads == [] then 0 else Rank(job, threads[0]) + TotalRank(job, threads[1..])
  }

  lemma {:induction false} RankUpdated(job: Job, threads: seq<Pc>, t: Tid, pc: Pc)
    requires t < |threads|
    ensures TotalRank(job, threads[t := pc]) == TotalRank(job, threads) - Rank(job, threads[t]) + Rank(job, pc)
  {
    if t > 0 {
      RankUpdated(job, threads[1..], t - 1, pc);
      assert threads[t := pc][1..] == threads[1..][t - 1 := pc];
    }
  }

  lemma OwnRankDrops(job: Job, s: State, t: Tid, a: Action)
    requires Inv(job, s) && Enabled(job, s, t, a)
    ensures Rank(job, Apply(job, s, t, a).threads[t]) < Rank(job, s.threads[t])
  {
    match a
    case Row(_) =>
    case Render(r) => RenderRankDrops(job, s, t, r);
    case Load(l) => LoadRankDrops(job, s, t, l);
  }

  lemma AfterRenderRank(job: Job, why: Purpose, manifests: bool)
    ensures Rank(job, AfterRender(why, manifests)) <= RenderRank(job, why)
  {
  }

  lemma RaiseRank(job: Job, s: State, t: Tid, why: Purpose, trouble: Trouble)
    requires t < |s.threads|
    ensures Rank(job, Raise(s, t, why, trouble).threads[t]) <= RenderRank(job, why)
  {
  }

  lemma RenderRankDrops(job: Job, s: State, t: Tid, a: RenderAction)
    requires t < |s.threads| && t < |job.rows| && RenderEnabled(job, s, t, a)
    ensures Rank(job, ApplyRender(job, s, t, a).threads[t]) < Rank(job, s.threads[t])
  {
    var why := s.threads[t].why;
    match a
    case UpdateFails => AfterRenderRank(job, why, false);
    case EndTemplate(manifests) => AfterRenderRank(job, why, manifests);
    case UpdateRaises(trouble) =>
      RaiseRank(job, s.(chartHolders := s.chartHolders - {ChartOf(job, t, why)}), t, why, trouble);
    case TemplateRaises(trouble) => RaiseRank(job, s, t, why, trouble);
    case _ =>
  }

  lemma LoadRankDrops(job: Job, s: State, t: Tid, a: LoadAction)
    requires Inv(job, s) && t < |s.threads| && LoadEnabled(job, s, t, a)
    ensures Rank(job, ApplyLoad(job, s, t, a).threads[t]) < Rank(job, s.threads[t])
  {
    assert ThreadOk(job, s, t);
  }

  lemma StepLowersRank(job: Job, s: State, t: Tid, a: Action)
    requires Inv(job, s) && Enabled(job, s, t, a)
    ensures TotalRank(job, Apply(job, s, t, a).threads) < TotalRank(job, s.threads)
  {
    OwnRankDrops(job, s, t, a);
    RankUpdated(job, s.threads, t, Apply(job, s, t, a).threads[t]);
  }

  lemma {:induction false} InitialRank(job: Job, threads: seq<Pc>)
    requires forall t :: 0 <= t < |threads| ==> threads[t].Pending?
    ensures TotalRank(job, threads) == |threads| * (6 * job.maxRenders + 12)
  {
    if threads != [] {
      InitialRank(job, threads[1..]);
    }
  }

  lemma {:induction false} RankAlong(job: Job, run: seq<State>, i: nat)
    requires Run(job, run) && i < |run|
    ensures TotalRank(job, run[i].threads) + i <= |job.rows| * (6 * job.maxRenders + 12)
  {
    if i == 0 {
      InitialRank(job, run[0].threads);
    } else {
      RankAlong(job, run, i - 1);
      RunInv(job, run, i - 1);
      var t, a := StepAt(job, run, i - 1);
      StepLowersRank(job, run[i - 1], t, a);
    }
  }

  /** Every interleaving ends, within a bound fixed by the rows and the renders of one load. */
  lemma RunsEnd(job: Job, run: seq<State>)
    requires Run(job, run)
    ensures |run| <= |job.rows| * (6 * job.maxRenders + 12) + 1
  {
    RankAlong(job, run, |run| - 1);
  }

  /** Rows are cancelled only when an earlier one has raised. */
  predicate CancelledOk(threads: seq<Pc>) {
    forall t :: 0 <= t < |threads| && threads[t] == Finished(Cancelled) ==> GivenUp(threads)
  }

  /** A row that has ended does not move, and only giving up cancels one. */
  lemma OnlyActiveMove(job: Job, s: State, t: Tid, a: Action)
    requires Enabled(job, s, t, a)
    ensures !s.threads[t].Finished?
    ensures Apply(job, s, t, a).threads[t] == Finished(Cancelled) ==> GivenUp(s.threads)
  {
    match a
    case Row(_) =>
    case Render(r) => RenderNeverCancels(job, s, t, r);
    case Load(l) => LoadNeverCancels(job, s, t, l);
  }

  lemma RenderNeverCancels(job: Job, s: State, t: Tid, a: RenderAction)
    requires t < |s.threads| && t < |job.rows| && RenderEnabled(job, s, t, a)
    ensures ApplyRender(job, s, t, a).threads[t] != Finished(Cancelled)
  {
  }

  lemma LoadNeverCancels(job: Job, s: State, t: Tid, a: LoadAction)
    requires t < |s.threads| && LoadEnabled(job, s, t, a)
    ensures ApplyLoad(job, s, t, a).threads[t] != Finished(Cancelled)
  {
  }

  lemma {:induction false} RunCancels(job: Job, run: seq<State>, i: nat)
    requires Run(job, run) && i < |run|
    ensures CancelledOk(run[i].threads)
  {
    if i > 0 {
      RunCancels(job, run, i - 1);
      var t, a := StepAt(job, run, i - 1);
      OnlyActiveMove(job, run[i - 1], t, a);
      if GivenUp(run[i - 1].threads) {
        GivenUpStays(run[i - 1].threads, run[i].threads);
      }
    }
  }

  lemma GivenUpStays(before: seq<Pc>, after: seq<Pc>)
    requires GivenUp(before) && |before| == |after|
    requires forall u :: 0 <= u < |before| && before[u].Finished? ==> after[u] == before[u]
    ensures GivenUp(after)
  {
    var u :| 0 <= u < |before| && RaisedFirst(before, u);
    assert RaisedFirst(after, u);
  }

  predicate AllDone(threads: seq<Pc>) {
    forall t :: 0 <= t < |threads| ==> threads[t] == Finished(Done)
  }

  lemma {:induction false} FirstOther(threads: seq<Pc>, t: Tid)
    requires forall u :: 0 <= u < |threads| ==> threads[u].Finished?
    requires t < |threads| && threads[t] != Finished(Done) && CancelledOk(threads)
    ensures GivenUp(threads)
  {
    if exists u :: 0 <= u < t && threads[u] != Finished(Done) {
      var u :| 0 <= u < t && threads[u] != Finished(Done);
      FirstOther(threads, u);
    } else if threads[t].how.Raised? {
      assert RaisedFirst(threads, t);
    }
  }

  /**
   A run that cannot go on has left every lock free, and either every row ended with a result, or the
   first of the others raised and only later rows were cancelled: that row's exception is the run's.
   */
  lemma StuckMeansDone(job: Job, run: seq<State>)
    requires Run(job, run) && job.workers >= 1 && !CanStep(job, run[|run| - 1])
    ensures var s := run[|run| - 1];
      && (forall t :: 0 <= t < |s.threads| ==> s.threads[t].Finished?)
      && s.schemaHolder.None? && s.chartHolders == map[]
      && (AllDone(s.threads) || GivenUp(s.threads))
  {
    var s := run[|run| - 1];
    RunInv(job, run, |run| - 1);
    forall t: Tid | t < |s.threads| ensures s.threads[t].Finished? {
      if !s.threads[t].Finished? {
        NoDeadlock(job, run, |run| - 1, t);
      }
    }
    RunCancels(job, run, |run| - 1);
    if t :| 0 <= t < |s.threads| && s.threads[t] != Finished(Done) {
      FirstOther(s.threads, t);
    }
    assert s.schemaHolder.Some? ==> ThreadOk(job, s, s.schemaHolder.value);
    forall c ensures c !in s.chartHolders {
      assert !(c in s.chartHolders && HolderOk(job, s, c));
    }
  }
}
