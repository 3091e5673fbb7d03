/** The rows (chart, environment) that a list of changed files selects, and why. */
module Select {
  import opened Wrappers
  import opened Ordering
  import opened Glob

  datatype TriggerValue = Basename | AllEnvironments | Environments(envs: seq<string>)

  /** A chart's validation settings. */
  datatype Spec = Spec(environments: set<string>, triggers: map<string, TriggerValue>,
                       triggerIgnores: seq<string>, unmatchedSelectsAll: bool)

  datatype Code = ValidationTrigger | HelmDependent | RepositoryPolicy | ValidationEngine

  /** Why a row was selected; the detail text is determined by the row, the code and the file. */
  datatype Reason = Reason(code: Code, changedFile: seq<string>)

  type Row = (string, string)

  const LIFECYCLE_FILENAME := "chart-lifecycle.yaml"
  const SCHEMA_LOCK_FILE: seq<string> := [".chart-manager", "schemas.lock.yaml"]
  const WORKSPACE_FILE: seq<string> := [".chart-manager", "workspace.yaml"]

  const DEFAULT_TRIGGERS: map<string, TriggerValue> := map[
    "values-ci.yaml" := Environments(["ci"]),
    "templates/**" := AllEnvironments,
    "tests/**" := Environments(["ci"]),
    "files/**" := AllEnvironments,
    "values.schema.json" := AllEnvironments,
    "Chart.lock" := AllEnvironments
  ]

  /** The repository at one checkout. `parts` splits a path; `stem` and `posix` read a relative one. */
  datatype Workspace = Workspace(specs: map<string, Spec>, dependents: map<string, set<string>>,
                                 chartsDir: seq<string>, policiesDir: seq<string>, fanout: seq<seq<string>>,
                                 parts: string -> seq<string>, posix: seq<string> -> string,
                                 stem: seq<string> -> string, fn: SegmentMatch)
  {
    /** Changes to these validate every configured environment. */
    function FanoutPatterns(): seq<seq<string>> { fanout + [policiesDir, SCHEMA_LOCK_FILE, WORKSPACE_FILE] }

    ghost predicate IsFanout(raw: string) {
      exists i :: 0 <= i < |FanoutPatterns()| && Means(fn, FanoutPatterns()[i], parts(raw))
    }

    /** The chart that owns a repository path: the segment right under the charts directory. */
    function Owner(raw: string): Option<string> {
      var p := parts(raw);
      if |p| <= |chartsDir| || p[..|chartsDir|] != chartsDir then None else Some(p[|chartsDir|])
    }

    /** The path inside its chart. */
    function Relative(raw: string): seq<string>
      requires Owner(raw).Some?
    {
      parts(raw)[|chartsDir| + 1..]
    }

    predicate Declared(row: Row) { row.0 in specs && row.1 in specs[row.0].environments }

    function FanoutReason(raw: string): Reason {
      var p := parts(raw);
      var policy := p == WORKSPACE_FILE || (|policiesDir| <= |p| && p[..|policiesDir|] == policiesDir);
      Reason(if policy then RepositoryPolicy else ValidationEngine, p)
    }
  }

  /** The chart directory itself, its Chart.yaml or lifecycle file, or anything under policies/. */
  predicate IsChartWide(relative: seq<string>) {
    relative == [] || relative[0] in ["Chart.yaml", LIFECYCLE_FILENAME, "policies"]
  }

  // ---- triggers ---------------------------------------------------------------------------

  /** An authored pattern replaces the default of the same spelling. */
  function Triggers(spec: Spec): map<string, TriggerValue> { DEFAULT_TRIGGERS + spec.triggers }

  function Picked(spec: Spec, value: TriggerValue, stem: string): set<string> {
    match value
    case Basename => {stem} * spec.environments
    case AllEnvironments => spec.environments
    case Environments(envs) => set e | e in envs && e in spec.environments
  }

  /** A trigger that matches the file. */
  predicate Hit(w: Workspace, spec: Spec, relative: seq<string>, pattern: string) {
    pattern in Triggers(spec) && w.fn(w.posix(relative), pattern)
  }

  /** An authored match counts even when it picks nothing, a default only when it picks something. */
  predicate Counts(w: Workspace, spec: Spec, relative: seq<string>, pattern: string) {
    Hit(w, spec, relative, pattern)
      && (pattern in spec.triggers || Picked(spec, Triggers(spec)[pattern], w.stem(relative)) != {})
  }

  predicate PickedBy(w: Workspace, spec: Spec, relative: seq<string>, pattern: string, env: string) {
    Hit(w, spec, relative, pattern) && env in Picked(spec, Triggers(spec)[pattern], w.stem(relative))
  }

  ghost predicate Matched(w: Workspace, spec: Spec, relative: seq<string>) {
    exists p :: Counts(w, spec, relative, p)
  }

  /** The environments that a chart file's triggers come to. */
  ghost predicate TriggerSelects(w: Workspace, spec: Spec, relative: seq<string>, env: string) {
    if !Matched(w, spec, relative) then spec.unmatchedSelectsAll && env in spec.environments
    else exists p :: PickedBy(w, spec, relative, p, env)
  }

  /** What the triggers looked at so far come to. */
  ghost predicate SoFar(w: Workspace, spec: Spec, relative: seq<string>, done: set<string>, envs: set<string>,
                        matched: bool)
  {
    && (matched <==> exists p :: p in done && Counts(w, spec, relative, p))
    && (forall env :: env in envs <==> exists p :: p in done && PickedBy(w, spec, relative, p, env))
  }

  lemma OneMoreTrigger(w: Workspace, spec: Spec, relative: seq<string>, done: set<string>, envs: set<string>,
                       matched: bool, pattern: string)
    requires SoFar(w, spec, relative, done, envs, matched) && pattern in Triggers(spec)
    ensures !w.fn(w.posix(relative), pattern) ==> SoFar(w, spec, relative, done + {pattern}, envs, matched)
    ensures w.fn(w.posix(relative), pattern) ==>
      var picked := Picked(spec, Triggers(spec)[pattern], w.stem(relative));
      SoFar(w, spec, relative, done + {pattern}, envs + picked, matched || pattern in spec.triggers || picked != {})
  {
  }

  method OneTrigger(w: Workspace, spec: Spec, relative: seq<string>, ghost done: set<string>,
                    envs: set<string>, matched: bool, pattern: string)
    returns (envs': set<string>, matched': bool)
    requires SoFar(w, spec, relative, done, envs, matched) && pattern in Triggers(spec) && envs <= spec.environments
    ensures SoFar(w, spec, relative, done + {pattern}, envs', matched') && envs' <= spec.environments
  {
    OneMoreTrigger(w, spec, relative, done, envs, matched, pattern);
    if !w.fn(w.posix(relative), pattern) {
      return envs, matched;
    }
    var picked := Picked(spec, Triggers(spec)[pattern], w.stem(relative));
    return envs + picked, matched || pattern in spec.triggers || picked != {};
  }

  lemma NothingLooked(w: Workspace, spec: Spec, relative: seq<string>)
    ensures SoFar(w, spec, relative, {}, {}, false)
  {
  }

  /** Go through the merged triggers, in whatever order. */
  method ScanTriggers(w: Workspace, spec: Spec, relative: seq<string>) returns (envs: set<string>, matched: bool)
    ensures SoFar(w, spec, relative, Triggers(spec).Keys, envs, matched)
    ensures envs <= spec.environments
  {
    envs, matched := {}, false;
    NothingLooked(w, spec, relative);
    var patterns := Triggers(spec).Keys;
    var left := patterns;
    ghost var done: set<string> := {};
    while left != {}
      invariant left + done == patterns && envs <= spec.environments
      invariant SoFar(w, spec, relative, done, envs, matched)
      decreases |left|
    {
      var pattern :| pattern in left;
      envs, matched := OneTrigger(w, spec, relative, done, envs, matched, pattern);
      done, left := done + {pattern}, left - {pattern};
    }
    assert done == patterns;
  }

  method Triggered(w: Workspace, spec: Spec, relative: seq<string>) returns (envs: set<string>, matched: bool)
    ensures matched <==> Matched(w, spec, relative)
    ensures forall env :: env in envs <==> TriggerSelects(w, spec, relative, env)
    ensures envs <= spec.environments
  {
    envs, matched := ScanTriggers(w, spec, relative);
    AllLooked(w, spec, relative, envs, matched);
    if !matched && spec.unmatchedSelectsAll {
      return spec.environments, false;
    }
  }

  lemma AllLooked(w: Workspace, spec: Spec, relative: seq<string>, envs: set<string>, matched: bool)
    requires SoFar(w, spec, relative, Triggers(spec).Keys, envs, matched)
    ensures matched <==> Matched(w, spec, relative)
    ensures !matched ==> envs == {}
    ensures matched ==> forall env :: env in envs <==> TriggerSelects(w, spec, relative, env)
  {
  }

  // ---- what one changed file contributes ----------------------------------------------------

  ghost predicate Ignored(w: Workspace, spec: Spec, relative: seq<string>) {
    exists i :: 0 <= i < |spec.triggerIgnores| && w.fn(w.posix(relative), spec.triggerIgnores[i])
  }

  /** A new lifecycle file of a chart without validation says nothing about anyone. */
  predicate Idle(w: Workspace, raw: string)
    requires w.Owner(raw).Some?
  {
    w.Relative(raw) == [LIFECYCLE_FILENAME] && w.Owner(raw).value !in w.specs
  }

  /** The file selects `row` as a file of its own chart. */
  ghost predicate OwnRow(w: Workspace, raw: string, row: Row)
    requires w.Owner(raw).Some?
  {
    var relative := w.Relative(raw);
    && row.0 == w.Owner(raw).value && w.Declared(row)
    && (IsChartWide(relative)
        || (!Ignored(w, w.specs[row.0], relative) && TriggerSelects(w, w.specs[row.0], relative, row.1)))
  }

  /** The file selects `row` because that chart depends on its chart. */
  predicate DependentRow(w: Workspace, raw: string, row: Row)
    requires w.Owner(raw).Some?
  {
    var owner := w.Owner(raw).value;
    owner in w.dependents && row.0 in w.dependents[owner] && w.Declared(row)
  }

  /** Why this one file selects this row, whatever else changed. */
  ghost function Contribution(w: Workspace, raw: string, row: Row): Option<Reason> {
    if w.IsFanout(raw) then (if w.Declared(row) then Some(w.FanoutReason(raw)) else None)
    else if w.Owner(raw).None? || Idle(w, raw) then None
    else if OwnRow(w, raw, row) then Some(Reason(ValidationTrigger, w.parts(raw)))
    else if DependentRow(w, raw, row) then Some(Reason(HelmDependent, w.parts(raw)))
    else None
  }

  // ---- accumulation -------------------------------------------------------------------------

  /** Per row, the reason each changed file gave. */
  type Files = map<Row, map<string, Reason>>

  function Get(files: Files, row: Row, raw: string): Option<Reason> {
    if row in files && raw in files[row] then Some(files[row][raw]) else None
  }

  /** Rows with no reason are not kept. */
  ghost predicate NoEmptyRow(files: Files) {
    forall row :: row in files ==> exists raw :: raw in files[row]
  }

  function Put(files: Files, row: Row, raw: string, reason: Reason): (r: Files)
    ensures forall x, y :: Get(r, x, y) == if x == row && y == raw then Some(reason) else Get(files, x, y)
    ensures NoEmptyRow(files) ==> NoEmptyRow(r)
  {
    var old_ := if row in files then files[row] else map[];
    assert raw in old_[raw := reason];
    files[row := old_[raw := reason]]
  }

  method SelectEnvs(files: Files, chart: string, envs: set<string>, raw: string, reason: Reason) returns (r: Files)
    requires NoEmptyRow(files)
    ensures NoEmptyRow(r)
    ensures forall x: Row, y ::
      Get(r, x, y) == if x.0 == chart && x.1 in envs && y == raw then Some(reason) else Get(files, x, y)
  {
    r := files;
    var left := envs;
    while left != {}
      invariant left <= envs && NoEmptyRow(r)
      invariant forall x: Row, y ::
        Get(r, x, y) == if x.0 == chart && x.1 in envs - left && y == raw then Some(reason) else Get(files, x, y)
      decreases |left|
    {
      var env :| env in left;
      r := Put(r, (chart, env), raw, reason);
      left := left - {env};
    }
  }

  method EveryEnv(w: Workspace, files: Files, chart: string, raw: string, reason: Reason) returns (r: Files)
    requires NoEmptyRow(files)
    ensures NoEmptyRow(r)
    ensures forall x: Row, y ::
      Get(r, x, y) == if x.0 == chart && w.Declared(x) && y == raw then Some(reason) else Get(files, x, y)
  {
    r := files;
    if chart in w.specs {
      r := SelectEnvs(files, chart, w.specs[chart].environments, raw, reason);
    }
  }

  method EveryDependent(w: Workspace, files: Files, owner: string, raw: string) returns (r: Files)
    requires NoEmptyRow(files) && w.Owner(raw) == Some(owner)
    ensures NoEmptyRow(r)
    ensures forall x: Row, y ::
      Get(r, x, y) == if y == raw && DependentRow(w, raw, x) then Some(Reason(HelmDependent, w.parts(raw)))
        else Get(files, x, y)
  {
    r := files;
    var all := if owner in w.dependents then w.dependents[owner] else {};
    var left := all;
    while left != {}
      invariant left <= all && NoEmptyRow(r)
      invariant forall x: Row, y ::
        Get(r, x, y) == if x.0 in all - left && w.Declared(x) && y == raw then Some(Reason(HelmDependent, w.parts(raw)))
          else Get(files, x, y)
      decreases |left|
    {
      var dependent :| dependent in left;
      r := EveryEnv(w, r, dependent, raw, Reason(HelmDependent, w.parts(raw)));
      left := left - {dependent};
    }
  }

  datatype Kind = Counted | IgnoredFile | UnmatchedFile

  /** How a chart file that is no fan-out path is reported. */
  ghost function KindOf(w: Workspace, raw: string): Kind {
    if w.IsFanout(raw) || w.Owner(raw).None? || Idle(w, raw) || IsChartWide(w.Relative(raw))
      || w.Owner(raw).value !in w.specs then Counted
    else if Ignored(w, w.specs[w.Owner(raw).value], w.Relative(raw)) then IgnoredFile
    else if !Matched(w, w.specs[w.Owner(raw).value], w.Relative(raw)) then UnmatchedFile
    else Counted
  }

  /** Add what a file that is not a fan-out path contributes. */
  method AddChange(w: Workspace, files: Files, raw: string) returns (r: Files, kind: Kind)
    requires NoEmptyRow(files) && !w.IsFanout(raw)
    requires forall x :: Get(files, x, raw) == None
    ensures NoEmptyRow(r) && kind == KindOf(w, raw)
    ensures forall x: Row, y :: Get(r, x, y) == if y == raw then Contribution(w, raw, x) else Get(files, x, y)
  {
    r, kind := files, Counted;
    var owner := w.Owner(raw);
    if owner.None? || Idle(w, raw) {
      return;
    }
    var chart, relative := owner.value, w.Relative(raw);
    r := EveryDependent(w, r, chart, raw);
    if IsChartWide(relative) {
      r := EveryEnv(w, r, chart, raw, Reason(ValidationTrigger, w.parts(raw)));
      return;
    }
    if chart !in w.specs {
      return;
    }
    var ignored := IsIgnored(w, w.specs[chart], relative);
    if ignored {
      return r, IgnoredFile;
    }
    var envs, matched := Triggered(w, w.specs[chart], relative);
    kind := if matched then Counted else UnmatchedFile;
    r := SelectEnvs(r, chart, envs, raw, Reason(ValidationTrigger, w.parts(raw)));
  }

  method IsIgnored(w: Workspace, spec: Spec, relative: seq<string>) returns (r: bool)
    ensures r <==> Ignored(w, spec, relative)
  {
    for i := 0 to |spec.triggerIgnores|
      invariant forall j :: 0 <= j < i ==> !w.fn(w.posix(relative), spec.triggerIgnores[j])
    {
      if w.fn(w.posix(relative), spec.triggerIgnores[i]) {
        return true;
      }
    }
    return false;
  }

  method IsFanoutPath(w: Workspace, raw: string) returns (r: bool)
    ensures r <==> w.IsFanout(raw)
  {
    var patterns := w.FanoutPatterns();
    for i := 0 to |patterns|
      invariant forall j :: 0 <= j < i ==> !Means(w.fn, patterns[j], w.parts(raw))
    {
      r := PatternMatches(w.fn, patterns[i], w.parts(raw));
      if r {
        return;
      }
    }
    return false;
  }

  // ---- the whole change list ----------------------------------------------------------------

  /** The changed paths, each once, in order; an empty name is no change. */
  function Paths(changes: seq<string>): seq<string> { SortedDistinct(NonEmpty(changes)) }

  function NonEmpty(changes: seq<string>): (r: seq<string>)
    ensures forall x :: x in r <==> x in changes && x != ""
  {
    if changes == [] then [] else
      assert changes == [changes[0]] + changes[1..];
      (if changes[0] == "" then [] else [changes[0]]) + NonEmpty(changes[1..])
  }

  /** The paths, in order, that select this row. */
  ghost function Chosen(w: Workspace, paths: seq<string>, row: Row): (r: seq<string>)
    ensures forall x :: x in r <==> x in paths && Contribution(w, x, row).Some?
  {
    if paths == [] then [] else
      assert paths == [paths[0]] + paths[1..];
      (if Contribution(w, paths[0], row).Some? then [paths[0]] else []) + Chosen(w, paths[1..], row)
  }

  /** The paths, in order, that are reported this way. */
  ghost function Reported(w: Workspace, paths: seq<string>, kind: Kind): seq<string> {
    if paths == [] then [] else
      var last := paths[|paths| - 1];
      var before := Reported(w, paths[..|paths| - 1], kind);
      if KindOf(w, last) == kind then before + [last] else before
  }

  /** The reasons of one row, each with the changed path that gave it. */
  type Items = seq<(string, Reason)>

  ghost function ItemsOf(w: Workspace, changes: seq<string>, row: Row): Items {
    var chosen := Chosen(w, Paths(changes), row);
    seq(|chosen|, i requires 0 <= i < |chosen| =>
      (assert chosen[i] in chosen; (chosen[i], Contribution(w, chosen[i], row).value)))
  }

  predicate ItemLess(a: (string, Reason), b: (string, Reason)) { StringLess(a.0, b.0) }

  lemma {:induction false} ChosenSorted(w: Workspace, paths: seq<string>, row: Row)
    requires StrictlySorted(StringLess, paths)
    ensures StrictlySorted(StringLess, Chosen(w, paths, row))
  {
    if paths != [] {
      ChosenSorted(w, paths[1..], row);
      var rest := Chosen(w, paths[1..], row);
      forall j | 0 <= j < |rest| ensures StringLess(paths[0], rest[j]) {
        assert rest[j] in paths[1..];
        var k :| 0 <= k < |paths[1..]| && paths[1..][k] == rest[j];
        assert paths[k + 1] == rest[j];
      }
    }
  }

  lemma ItemsSorted(w: Workspace, changes: seq<string>, row: Row)
    ensures StrictlySorted(ItemLess, ItemsOf(w, changes, row))
    ensures forall item :: item in ItemsOf(w, changes, row) <==>
      item.0 in changes && item.0 != "" && Contribution(w, item.0, row) == Some(item.1)
  {
    SortedDistinctSorted(NonEmpty(changes));
    ChosenSorted(w, Paths(changes), row);
    var chosen, items := Chosen(w, Paths(changes), row), ItemsOf(w, changes, row);
    forall item: (string, Reason) | item.0 in chosen && Contribution(w, item.0, row) == Some(item.1)
      ensures item in items
    {
      var i :| 0 <= i < |chosen| && chosen[i] == item.0;
      assert items[i] == item;
    }
    forall item | item in items ensures item.0 in chosen && Contribution(w, item.0, row) == Some(item.1) {
      var i :| 0 <= i < |items| && items[i] == item;
      assert chosen[i] in chosen;
    }
  }

  /** Two reason lists merged by changed path; a path both hold comes once. */
  function Merge(a: Items, b: Items): (r: Items)
    ensures forall x :: x in r ==> x in a || x in b
  {
    if a == [] then b
    else if b == [] then a
    else if StringLess(a[0].0, b[0].0) then [a[0]] + Merge(a[1..], b)
    else if a[0].0 == b[0].0 then [a[0]] + Merge(a[1..], b[1..])
    else [b[0]] + Merge(a, b[1..])
  }

  lemma {:induction false} MergeSorted(a: Items, b: Items)
    requires StrictTotal(StringLess)
    requires StrictlySorted(ItemLess, a) && StrictlySorted(ItemLess, b)
    ensures StrictlySorted(ItemLess, Merge(a, b))
  {
    if a != [] && b != [] {
      if StringLess(a[0].0, b[0].0) {
        MergeSorted(a[1..], b);
        HeadFirst(a[0], Merge(a[1..], b), a, b);
      } else if a[0].0 == b[0].0 {
        MergeSorted(a[1..], b[1..]);
        HeadFirst(a[0], Merge(a[1..], b[1..]), a, b);
      } else {
        MergeSorted(a, b[1..]);
        HeadFirst(b[0], Merge(a, b[1..]), a, b);
      }
    }
  }

  lemma HeadFirst(head: (string, Reason), tail: Items, a: Items, b: Items)
    requires StrictTotal(StringLess) && StrictlySorted(ItemLess, tail)
    requires StrictlySorted(ItemLess, a) && StrictlySorted(ItemLess, b) && a != [] && b != []
    requires || (head == a[0] && StringLess(a[0].0, b[0].0) && forall x :: x in tail ==> x in a[1..] || x in b)
             || (head == a[0] && a[0].0 == b[0].0 && forall x :: x in tail ==> x in a[1..] || x in b[1..])
             || (head == b[0] && StringLess(b[0].0, a[0].0) && forall x :: x in tail ==> x in a || x in b[1..])
    ensures StrictlySorted(ItemLess, [head] + tail)
  {
    forall j | 0 <= j < |tail| ensures ItemLess(head, tail[j]) {
      assert tail[j] in tail;
      if tail[j] in a {
        var k :| 0 <= k < |a| && a[k] == tail[j];
        assert k > 0 ==> ItemLess(a[0], a[k]);
      }
      if tail[j] in b {
        var k :| 0 <= k < |b| && b[k] == tail[j];
        assert k > 0 ==> ItemLess(b[0], b[k]);
      }
    }
  }

  /** When the lists agree on the paths they share, the merge loses nothing. */
  lemma {:induction false} MergeMembers(a: Items, b: Items, x: (string, Reason))
    requires forall p, q :: p in a && q in b && p.0 == q.0 ==> p == q
    ensures x in Merge(a, b) <==> x in a || x in b
  {
    if a != [] && b != [] {
      assert a == [a[0]] + a[1..] && b == [b[0]] + b[1..];
      if StringLess(a[0].0, b[0].0) {
        MergeMembers(a[1..], b, x);
      } else if a[0].0 == b[0].0 {
        MergeMembers(a[1..], b[1..], x);
        assert a[0] == b[0];
      } else {
        MergeMembers(a, b[1..], x);
      }
    }
  }

  /** Selecting is a union homomorphism: each row's reasons under A + B are the merge of those under A and under B. */
  lemma UnionHomomorphism(w: Workspace, a: seq<string>, b: seq<string>, row: Row)
    ensures ItemsOf(w, a + b, row) == Merge(ItemsOf(w, a, row), ItemsOf(w, b, row))
  {
    StringLessStrictTotal();
    ItemsSorted(w, a, row);
    ItemsSorted(w, b, row);
    ItemsSorted(w, a + b, row);
    var x, y, xy := ItemsOf(w, a, row), ItemsOf(w, b, row), ItemsOf(w, a + b, row);
    MergeSorted(x, y);
    forall item ensures item in xy <==> item in Merge(x, y) {
      MergeMembers(x, y, item);
      assert item.0 in a + b <==> item.0 in a || item.0 in b;
    }
    StrictlySortedUnique(ItemLess, xy, Merge(x, y));
  }

  /** Neither order nor repetition of the change list matters. */
  lemma OrderIrrelevant(w: Workspace, a: seq<string>, b: seq<string>, row: Row)
    requires forall x :: x in a <==> x in b
    ensures ItemsOf(w, a, row) == ItemsOf(w, b, row)
  {
    StringLessStrictTotal();
    ItemsSorted(w, a, row);
    ItemsSorted(w, b, row);
    StrictlySortedUnique(ItemLess, ItemsOf(w, a, row), ItemsOf(w, b, row));
  }

  /** The accumulated reasons are those of the paths taken in so far, fan-out paths set aside. */
  ghost predicate Accumulated(w: Workspace, done: seq<string>, files: Files, fanout: map<string, Reason>) {
    && NoEmptyRow(files)
    && (forall row, raw ::
      Get(files, row, raw) == if raw in done && !w.IsFanout(raw) then Contribution(w, raw, row) else None)
    && (forall raw :: raw in fanout <==> raw in done && w.IsFanout(raw))
    && (forall raw :: raw in fanout ==> fanout[raw] == w.FanoutReason(raw))
  }

  method Accumulate(w: Workspace, paths: seq<string>)
    returns (files: Files, fanout: map<string, Reason>, ignored: seq<string>, unmatched: seq<string>)
    requires StrictlySorted(StringLess, paths)
    ensures Accumulated(w, paths, files, fanout)
    ensures ignored == Reported(w, paths, IgnoredFile) && unmatched == Reported(w, paths, UnmatchedFile)
  {
    files, fanout, ignored, unmatched := map[], map[], [], [];
    for i := 0 to |paths|
      invariant Accumulated(w, paths[..i], files, fanout)
      invariant ignored == Reported(w, paths[..i], IgnoredFile) && unmatched == Reported(w, paths[..i], UnmatchedFile)
    {
      var kind;
      files, fanout, kind := TakeIn(w, paths, i, files, fanout);
      assert paths[..i + 1][..i] == paths[..i];
      if kind.IgnoredFile? {
        ignored := ignored + [paths[i]];
      } else if kind.UnmatchedFile? {
        unmatched := unmatched + [paths[i]];
      }
    }
    assert paths[..|paths|] == paths;
  }

  method TakeIn(w: Workspace, paths: seq<string>, i: nat, files: Files, fanout: map<string, Reason>)
    returns (files': Files, fanout': map<string, Reason>, kind: Kind)
    requires i < |paths| && StrictlySorted(StringLess, paths) && Accumulated(w, paths[..i], files, fanout)
    ensures Accumulated(w, paths[..i + 1], files', fanout') && kind == KindOf(w, paths[i])
  {
    var raw := paths[i];
    StringLessStrictTotal();
    assert raw !in paths[..i];
    assert paths[..i + 1] == paths[..i] + [raw];
    files', fanout', kind := files, fanout, Counted;
    var wide := IsFanoutPath(w, raw);
    if wide {
      fanout' := fanout[raw := w.FanoutReason(raw)];
    } else {
      files', kind := AddChange(w, files, raw);
    }
  }

  /** Give every declared row the reasons set aside. */
  method ApplyFanout(w: Workspace, files: Files, fanout: map<string, Reason>) returns (r: Files)
    requires NoEmptyRow(files)
    ensures NoEmptyRow(r)
    ensures forall row, raw ::
      Get(r, row, raw) == if raw in fanout && w.Declared(row) then Some(fanout[raw]) else Get(files, row, raw)
  {
    r := files;
    var left := fanout.Keys;
    while left != {}
      invariant left <= fanout.Keys && NoEmptyRow(r)
      invariant forall row, raw ::
        Get(r, row, raw) == if raw in fanout.Keys - left && w.Declared(row) then Some(fanout[raw])
          else Get(files, row, raw)
      decreases |left|
    {
      var raw :| raw in left;
      r := EveryChart(w, r, raw, fanout[raw]);
      left := left - {raw};
    }
  }

  method EveryChart(w: Workspace, files: Files, raw: string, reason: Reason) returns (r: Files)
    requires NoEmptyRow(files)
    ensures NoEmptyRow(r)
    ensures forall row, y :: Get(r, row, y) == if y == raw && w.Declared(row) then Some(reason) else Get(files, row, y)
  {
    r := files;
    var left := w.specs.Keys;
    while left != {}
      invariant left <= w.specs.Keys && NoEmptyRow(r)
      invariant forall row: Row, y ::
        Get(r, row, y) == if y == raw && row.0 in w.specs.Keys - left && w.Declared(row) then Some(reason)
          else Get(files, row, y)
      decreases |left|
    {
      var name :| name in left;
      r := EveryEnv(w, r, name, raw, reason);
      left := left - {name};
    }
  }

  /** One row's reasons sorted by changed path. */
  method SortItems(reasons: map<string, Reason>) returns (items: Items)
    ensures StrictlySorted(ItemLess, items)
    ensures forall x :: x in items <==> x.0 in reasons && reasons[x.0] == x.1
  {
    items := [];
    StringLessStrictTotal();
    var left := reasons.Keys;
    while left != {}
      invariant left <= reasons.Keys && StrictlySorted(ItemLess, items)
      invariant forall x :: x in items <==> x.0 in reasons.Keys - left && reasons[x.0] == x.1
      decreases |left|
    {
      var raw :| raw in left;
      left := left - {raw};
      InsertItemSorted((raw, reasons[raw]), items);
      items := InsertItem((raw, reasons[raw]), items);
    }
  }

  function InsertItem(x: (string, Reason), items: Items): (r: Items)
    ensures forall y :: y in r <==> y == x || y in items
  {
    if items == [] || ItemLess(x, items[0]) then [x] + items
    else
      assert items == [items[0]] + items[1..];
      [items[0]] + InsertItem(x, items[1..])
  }

  lemma {:induction false} InsertItemSorted(x: (string, Reason), items: Items)
    requires StrictTotal(StringLess) && StrictlySorted(ItemLess, items)
    requires forall y :: y in items ==> y.0 != x.0
    ensures StrictlySorted(ItemLess, InsertItem(x, items))
  {
    if items != [] {
      assert items[0] in items;
      if !ItemLess(x, items[0]) {
        InsertItemSorted(x, items[1..]);
        var tail := InsertItem(x, items[1..]);
        forall j | 0 <= j < |tail| ensures ItemLess(items[0], tail[j]) {
          assert tail[j] in tail;
        }
      }
    }
  }

  /** Why these changes select each row: exactly the reasons of every path that selects it. */
  method ReasonsFor(w: Workspace, changes: seq<string>)
    returns (reasons: map<Row, Items>, ignored: seq<string>, unmatched: seq<string>)
    ensures forall row :: row in reasons <==> ItemsOf(w, changes, row) != []
    ensures forall row :: row in reasons ==> reasons[row] == ItemsOf(w, changes, row)
    ensures ignored == Reported(w, Paths(changes), IgnoredFile)
      && unmatched == Reported(w, Paths(changes), UnmatchedFile)
  {
    SortedDistinctSorted(NonEmpty(changes));
    var files, fanout;
    files, fanout, ignored, unmatched := Accumulate(w, Paths(changes));
    ghost var before := files;
    files := ApplyFanout(w, files, fanout);
    AllContributions(w, changes, before, fanout, files);
    reasons := SortReasons(w, changes, files);
  }

  method SortReasons(w: Workspace, ghost changes: seq<string>, files: Files) returns (reasons: map<Row, Items>)
    requires Complete(w, changes, files)
    ensures forall row :: row in reasons <==> ItemsOf(w, changes, row) != []
    ensures forall row :: row in reasons ==> reasons[row] == ItemsOf(w, changes, row)
  {
    reasons := map[];
    var left := files.Keys;
    while left != {}
      invariant left <= files.Keys && reasons.Keys == files.Keys - left
      invariant forall row :: row in reasons ==> reasons[row] == ItemsOf(w, changes, row)
      decreases |left|
    {
      var row :| row in left;
      var items := SortItems(files[row]);
      SortedItemsAre(w, changes, files, row, items);
      reasons := reasons[row := items];
      left := left - {row};
    }
    forall row ensures row in files <==> ItemsOf(w, changes, row) != [] {
      RowHasItems(w, changes, files, row);
    }
  }

  /** Every reason in hand is a path's contribution, and every contribution is in hand. */
  ghost predicate Complete(w: Workspace, changes: seq<string>, files: Files) {
    && NoEmptyRow(files)
    && forall row, raw ::
      Get(files, row, raw) == if raw in changes && raw != "" then Contribution(w, raw, row) else None
  }

  lemma AllContributions(w: Workspace, changes: seq<string>, before: Files, fanout: map<string, Reason>, files: Files)
    requires Accumulated(w, Paths(changes), before, fanout) && NoEmptyRow(files)
    requires forall row, raw ::
      Get(files, row, raw) == if raw in fanout && w.Declared(row) then Some(fanout[raw]) else Get(before, row, raw)
    ensures Complete(w, changes, files)
  {
  }

  lemma SortedItemsAre(w: Workspace, changes: seq<string>, files: Files, row: Row, items: Items)
    requires Complete(w, changes, files) && row in files && StrictlySorted(ItemLess, items)
    requires forall x :: x in items <==> x.0 in files[row] && files[row][x.0] == x.1
    ensures items == ItemsOf(w, changes, row)
  {
    StringLessStrictTotal();
    ItemsSorted(w, changes, row);
    forall x ensures x in items <==> x in ItemsOf(w, changes, row) {
      assert Get(files, row, x.0) == if x.0 in changes && x.0 != "" then Contribution(w, x.0, row) else None;
    }
    StrictlySortedUnique(ItemLess, items, ItemsOf(w, changes, row));
  }

  lemma RowHasItems(w: Workspace, changes: seq<string>, files: Files, row: Row)
    requires Complete(w, changes, files)
    ensures row in files <==> ItemsOf(w, changes, row) != []
  {
    ItemsSorted(w, changes, row);
    var items := ItemsOf(w, changes, row);
    if row in files {
      var raw :| raw in files[row];
      assert Get(files, row, raw).Some?;
      assert (raw, Contribution(w, raw, row).value) in items;
    }
    if items != [] {
      assert items[0] in items;
      assert Get(files, row, items[0].0).Some?;
    }
  }

  // ---- selected rows ------------------------------------------------------------------------

  ghost predicate Selected(w: Workspace, changes: Option<seq<string>>, row: Row) {
    if changes.None? then w.Declared(row) else ItemsOf(w, changes.value, row) != []
  }

  /** Only declared environments of charts with validation enabled are selected: never more than without changes. */
  lemma SelectedIsDeclared(w: Workspace, changes: Option<seq<string>>, row: Row)
    requires Selected(w, changes, row)
    ensures Selected(w, None, row)
  {
    if changes.Some? {
      ItemsSorted(w, changes.value, row);
      var item := ItemsOf(w, changes.value, row)[0];
      assert item in ItemsOf(w, changes.value, row);
      if !w.IsFanout(item.0) && OwnRow(w, item.0, row) {
        assert w.Declared(row);
      }
    }
  }

  /** One fan-out path among the changes selects every row. */
  lemma FanoutSelectsAll(w: Workspace, changes: seq<string>, raw: string, row: Row)
    requires raw in changes && raw != "" && w.IsFanout(raw) && w.Declared(row)
    ensures Selected(w, Some(changes), row)
    ensures (raw, w.FanoutReason(raw)) in ItemsOf(w, changes, row)
  {
    ItemsSorted(w, changes, row);
  }

  /** More changes never select fewer rows. */
  lemma SelectionGrows(w: Workspace, a: seq<string>, b: seq<string>, row: Row)
    ensures Selected(w, Some(a + b), row) <==> Selected(w, Some(a), row) || Selected(w, Some(b), row)
  {
    UnionHomomorphism(w, a, b, row);
  }

  predicate RowLe(a: Row, b: Row) { !StringsLess([b.0, b.1], [a.0, a.1]) }

  lemma RowLeTotal()
    ensures TotalPreorder(RowLe)
  {
    StringsLessStrictTotal();
    forall a: Row, b: Row, c: Row | RowLe(a, b) && RowLe(b, c) ensures RowLe(a, c) {
      var x, y, z := [a.0, a.1], [b.0, b.1], [c.0, c.1];
      assert x == y || StringsLess(x, y);
    }
  }

  method SortRows(pairs: set<Row>) returns (rows: seq<Row>)
    ensures SortedBy(RowLe, rows) && multiset(rows) == multiset(pairs)
  {
    var listed: seq<Row> := [];
    var left := pairs;
    while left != {}
      invariant left <= pairs && multiset(listed) == multiset(pairs - left)
      decreases |left|
    {
      var row :| row in left;
      assert pairs - (left - {row}) == (pairs - left) + {row};
      listed := listed + [row];
      left := left - {row};
    }
    assert pairs - left == pairs;
    RowLeTotal();
    SortSorted(RowLe, listed);
    rows := Sort(RowLe, listed);
  }

  method SelectPairs(w: Workspace, changes: Option<seq<string>>) returns (pairs: set<Row>)
    ensures forall row :: row in pairs <==> Selected(w, changes, row)
  {
    if changes.None? {
      pairs := set chart, env | chart in w.specs && env in w.specs[chart].environments :: (chart, env);
      forall row: Row ensures row in pairs <==> w.Declared(row) {}
    } else {
      var reasons, ignored, unmatched := ReasonsFor(w, changes.value);
      pairs := reasons.Keys;
    }
  }

  /** The selected rows in order, each once; without changes, every declared row. */
  method SelectRows(w: Workspace, changes: Option<seq<string>>) returns (rows: seq<Row>)
    ensures SortedBy(RowLe, rows)
    ensures forall row :: multiset(rows)[row] == if Selected(w, changes, row) then 1 else 0
  {
    var pairs := SelectPairs(w, changes);
    rows := SortRows(pairs);
  }
}
