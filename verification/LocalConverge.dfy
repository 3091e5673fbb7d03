/**
 Local converge: bootstrap releases, then the target's releases, resolved before anything
 is installed. Bootstrap owns what it installs; the target installs each chart directory once.
 */
module LocalConverge {
  import opened Wrappers
  import opened InstallPlan

  datatype Release =
    | Lifecycle(directory: string, chart: string, profile: string)
    | External(name: string, namespace: string, caption: string)

  /**
   The repository: the charts of each directory as they are spelled, and for a spelling where its path
   really leads and the name that the chart loads under.
   */
  datatype Repository = Repository(directories: map<string, Catalog>, resolve: (string, string) -> string,
                                   loadedName: (string, string) -> string)

  /** An install-plan entry together with the directory it was resolved in. */
  datatype Located = Located(directory: string, path: string, name: string, key: Key, spec: Profile)

  /** The exact identity an environment has already converged. */
  datatype Identity = Identity(path: string, name: string, profile: string, namespace: string)

  datatype ConvergeError =
    | Unresolved(error: PlanError)
    | HooksInBootstrap(key: Key)
    | ConflictingIdentities(path: string)

  /** An install step: a lifecycle release's entries, or a release installed as authored. */
  datatype Step = Entries(entries: seq<Located>) | AsAuthored(release: Release)

  function CatalogOf(repo: Repository, directory: string): Catalog {
    if directory in repo.directories then repo.directories[directory] else map[]
  }

  function IdentityOf(e: Located): Identity { Identity(e.path, e.name, e.key.profile, e.spec.namespace) }

  function Locate(repo: Repository, directory: string, entry: Entry): Located {
    var chart := entry.key.chart;
    Located(directory, repo.resolve(directory, chart), repo.loadedName(directory, chart), entry.key, entry.spec)
  }

  /** The same chart directory, profile and namespace: what one install satisfies. */
  predicate Same(a: Located, b: Located) {
    a.path == b.path && a.key.profile == b.key.profile && a.spec.namespace == b.spec.namespace
  }

  /** What `k`, required by something resolved in `directory`, resolves to. */
  ghost predicate IsRequirement(repo: Repository, e: Located, q: Located) {
    && q.key in e.spec.requires_ && q.directory == e.directory
    && q.path == repo.resolve(q.directory, q.key.chart) && q.name == repo.loadedName(q.directory, q.key.chart)
    && Lookup(CatalogOf(repo, q.directory), q.key) == Ok(q.spec)
  }

  ghost predicate Satisfied(repo: Repository, prior: seq<Located>, e: Located) {
    && (forall k :: k in e.spec.requires_ ==> Lookup(CatalogOf(repo, e.directory), k).Ok?)
    && forall q :: IsRequirement(repo, e, q) ==> exists i :: 0 <= i < |prior| && Same(prior[i], q)
  }

  /** Everything an entry requires was installed before it. */
  ghost predicate RequirementsFirst(repo: Repository, order: seq<Located>) {
    forall n :: 0 <= n < |order| ==> Satisfied(repo, order[..n], order[n])
  }

  lemma SatisfiedMore(repo: Repository, prior: seq<Located>, more: seq<Located>, e: Located)
    requires Satisfied(repo, prior, e) && forall x :: x in prior ==> x in more
    ensures Satisfied(repo, more, e)
  {
    forall q | IsRequirement(repo, e, q) ensures exists i :: 0 <= i < |more| && Same(more[i], q) {
      var i :| 0 <= i < |prior| && Same(prior[i], q);
      assert prior[i] in more;
    }
  }

  lemma OneMoreSatisfied(repo: Repository, order: seq<Located>, e: Located)
    requires RequirementsFirst(repo, order) && Satisfied(repo, order, e)
    ensures RequirementsFirst(repo, order + [e])
  {
    var longer := order + [e];
    forall n | 0 <= n < |longer| ensures Satisfied(repo, longer[..n], longer[n]) {
      assert longer[..n] == order[..n];
    }
    assert longer[..|order|] == order == order[..|order|];
  }

  /** The plan behind the located entries. */
  ghost predicate LocatedFrom(repo: Repository, directory: string, plan: seq<Entry>, entries: seq<Located>) {
    |entries| == |plan| && forall i :: 0 <= i < |plan| ==> entries[i] == Locate(repo, directory, plan[i])
  }

  /** The located plan of one lifecycle release. */
  ghost predicate Resolved(repo: Repository, r: Release, entries: seq<Located>) {
    r.Lifecycle? && exists plan ::
      PlanFor(CatalogOf(repo, r.directory), Key(r.chart, r.profile), plan)
        && LocatedFrom(repo, r.directory, plan, entries)
  }

  method ResolveRelease(repo: Repository, r: Release) returns (result: Result<seq<Located>, ConvergeError>)
    requires r.Lifecycle?
    ensures result.Ok? <==> Resolvable(CatalogOf(repo, r.directory), Key(r.chart, r.profile))
    ensures result.Ok? ==> Resolved(repo, r, result.value)
    ensures result.Err? ==> result.error.Unresolved?
  {
    var plan := Plan(CatalogOf(repo, r.directory), Key(r.chart, r.profile));
    if plan.Err? {
      return Err(Unresolved(plan.error));
    }
    var entries := seq(|plan.value|, i requires 0 <= i < |plan.value| => Locate(repo, r.directory, plan.value[i]));
    return Ok(entries);
  }

  lemma RequiredEarlier(catalog: Catalog, plan: seq<Entry>, n: nat, k: Key)
    requires DependenciesFirst(catalog, plan) && n < |plan| && k in plan[n].spec.requires_
    ensures exists i :: 0 <= i < n && plan[i].key == k
  {
    KeyIn(plan[..n], k);
    var i :| 0 <= i < |plan[..n]| && plan[..n][i].key == k;
    assert plan[i].key == k;
  }

  /** Inside one plan, requirements come first. */
  lemma ResolvedSatisfied(repo: Repository, r: Release, entries: seq<Located>, n: nat)
    requires Resolved(repo, r, entries) && n < |entries|
    ensures Satisfied(repo, entries[..n], entries[n])
  {
    var catalog := CatalogOf(repo, r.directory);
    var plan: seq<Entry> :| PlanFor(catalog, Key(r.chart, r.profile), plan)
      && LocatedFrom(repo, r.directory, plan, entries);
    forall k | k in entries[n].spec.requires_ ensures Lookup(catalog, k).Ok? {
      RequiredEarlier(catalog, plan, n, k);
    }
    forall q | IsRequirement(repo, entries[n], q)
      ensures exists i :: 0 <= i < |entries[..n]| && Same(entries[..n][i], q)
    {
      RequiredEarlier(catalog, plan, n, q.key);
      var i :| 0 <= i < n && plan[i].key == q.key;
      assert entries[..n][i] == Locate(repo, r.directory, plan[i]);
    }
  }

  // ---- bootstrap ----------------------------------------------------------------------

  function Flatten(steps: seq<Step>): seq<Located> {
    if steps == [] then [] else
      var last := steps[|steps| - 1];
      Flatten(steps[..|steps| - 1]) + if last.Entries? then last.entries else []
  }

  lemma FlattenNext(steps: seq<Step>, s: Step)
    ensures Flatten(steps + [s]) == Flatten(steps) + if s.Entries? then s.entries else []
  {
    assert (steps + [s])[..|steps|] == steps;
  }

  ghost predicate NoHooks(entries: seq<Located>) {
    forall e :: e in entries ==> !e.spec.hooks
  }

  /** What one authored release installs when nothing is left out. */
  ghost predicate StepFor(repo: Repository, r: Release, s: Step) {
    if r.Lifecycle? then s.Entries? && Resolved(repo, r, s.entries) else s == AsAuthored(r)
  }

  ghost predicate StepsFor(repo: Repository, releases: seq<Release>, steps: seq<Step>) {
    |steps| == |releases| && forall i :: 0 <= i < |steps| ==> StepFor(repo, releases[i], steps[i])
  }

  /** Resolve every bootstrap release; a plan that declares chart-test hooks is refused. */
  method BootstrapPreflight(repo: Repository, releases: seq<Release>) returns (result: Result<seq<Step>, ConvergeError>)
    ensures result.Ok? ==> StepsFor(repo, releases, result.value) && NoHooks(Flatten(result.value))
    ensures result.Ok? ==> RequirementsFirst(repo, Flatten(result.value))
    ensures result.Err? ==> exists r :: r in releases && r.Lifecycle? && Refused(repo, r, result.error)
  {
    var steps: seq<Step> := [];
    for i := 0 to |releases|
      invariant StepsFor(repo, releases[..i], steps) && NoHooks(Flatten(steps))
      invariant RequirementsFirst(repo, Flatten(steps))
    {
      var s := BootstrapStep(repo, releases[i]);
      if s.Err? {
        return Err(s.error);
      }
      StepKeepsOrder(repo, releases[i], steps, s.value);
      steps := steps + [s.value];
    }
    assert releases[..|releases|] == releases;
    return Ok(steps);
  }

  /** The release does not resolve, or what it resolves to declares hooks. */
  ghost predicate Refused(repo: Repository, r: Release, e: ConvergeError)
    requires r.Lifecycle?
  {
    match e
    case Unresolved(_) => !Resolvable(CatalogOf(repo, r.directory), Key(r.chart, r.profile))
    case HooksInBootstrap(k) => exists entries: seq<Located> :: Resolved(repo, r, entries) && Hooked(entries, k)
    case ConflictingIdentities(_) => false
  }

  ghost predicate Hooked(entries: seq<Located>, k: Key) {
    exists e :: e in entries && e.key == k && e.spec.hooks
  }

  method FindHook(entries: seq<Located>) returns (key: Option<Key>)
    ensures key.None? ==> NoHooks(entries)
    ensures key.Some? ==> Hooked(entries, key.value)
  {
    for j := 0 to |entries|
      invariant NoHooks(entries[..j])
    {
      if entries[j].spec.hooks {
        return Some(entries[j].key);
      }
      assert entries[..j + 1] == entries[..j] + [entries[j]];
    }
    assert entries[..|entries|] == entries;
    return None;
  }

  method BootstrapStep(repo: Repository, r: Release) returns (s: Result<Step, ConvergeError>)
    ensures s.Ok? ==> StepFor(repo, r, s.value) && (s.value.Entries? ==> NoHooks(s.value.entries))
    ensures s.Err? ==> r.Lifecycle? && Refused(repo, r, s.error)
  {
    if r.External? {
      return Ok(AsAuthored(r));
    }
    var entries := ResolveRelease(repo, r);
    if entries.Err? {
      return Err(entries.error);
    }
    var hook := FindHook(entries.value);
    if hook.Some? {
      return Err(HooksInBootstrap(hook.value));
    }
    return Ok(Entries(entries.value));
  }

  lemma StepKeepsOrder(repo: Repository, r: Release, steps: seq<Step>, s: Step)
    requires RequirementsFirst(repo, Flatten(steps)) && StepFor(repo, r, s)
    ensures RequirementsFirst(repo, Flatten(steps + [s]))
    ensures NoHooks(Flatten(steps)) && (s.Entries? ==> NoHooks(s.entries)) ==> NoHooks(Flatten(steps + [s]))
  {
    FlattenNext(steps, s);
    if s.Entries? {
      PlanKeepsOrder(repo, r, Flatten(steps), s.entries, |s.entries|);
      assert s.entries[..|s.entries|] == s.entries;
    } else {
      assert Flatten(steps + [s]) == Flatten(steps);
    }
  }

  /** Each entry finds its requirements earlier in the same plan. */
  ghost predicate SelfSatisfied(repo: Repository, entries: seq<Located>) {
    forall n: nat :: n < |entries| ==> Satisfied(repo, entries[..n], entries[n])
  }

  lemma PlanKeepsOrder(repo: Repository, r: Release, order: seq<Located>, entries: seq<Located>, n: nat)
    requires RequirementsFirst(repo, order) && Resolved(repo, r, entries) && n <= |entries|
    ensures RequirementsFirst(repo, order + entries[..n])
  {
    forall k: nat | k < |entries| ensures Satisfied(repo, entries[..k], entries[k]) {
      ResolvedSatisfied(repo, r, entries, k);
    }
    OrderGrows(repo, order, entries, n);
  }

  lemma {:induction false} OrderGrows(repo: Repository, order: seq<Located>, entries: seq<Located>, n: nat)
    requires RequirementsFirst(repo, order) && SelfSatisfied(repo, entries) && n <= |entries|
    ensures RequirementsFirst(repo, order + entries[..n])
  {
    if n == 0 {
      assert order + entries[..0] == order;
    } else {
      OrderGrows(repo, order, entries, n - 1);
      OneMorePlanned(repo, order, entries, n - 1);
    }
  }

  lemma OneMorePlanned(repo: Repository, order: seq<Located>, entries: seq<Located>, n: nat)
    requires n < |entries| && RequirementsFirst(repo, order + entries[..n]) && Satisfied(repo, entries[..n], entries[n])
    ensures RequirementsFirst(repo, order + entries[..n + 1])
  {
    var before := order + entries[..n];
    SatisfiedMore(repo, entries[..n], before, entries[n]);
    OneMoreSatisfied(repo, before, entries[n]);
    assert before + [entries[n]] == order + entries[..n + 1];
  }

  function Owned(steps: seq<Step>): set<Identity> {
    set e | e in Flatten(steps) :: IdentityOf(e)
  }

  // ---- target -------------------------------------------------------------------------

  /** Two entries that are not bootstrap's claim one chart directory differently. */
  predicate Conflicts(a: Located, b: Located) {
    a.path == b.path && !Same(a, b)
  }

  /** The directory is kept, under this entry's profile and namespace. */
  predicate KeptAs(kept: seq<Located>, e: Located) {
    exists i :: 0 <= i < |kept| && Same(kept[i], e)
  }

  /** It is kept, under another. */
  predicate Contradicted(kept: seq<Located>, e: Located) {
    exists i :: 0 <= i < |kept| && Conflicts(kept[i], e)
  }

  ghost predicate OnePerDirectory(kept: seq<Located>) {
    forall i, j :: 0 <= i < j < |kept| ==> kept[i].path != kept[j].path
  }

  /** What the target keeps out of all resolved entries, in order; None once two of them conflict. */
  function Keep(owned: set<Identity>, resolved: seq<Located>): Option<seq<Located>> {
    if resolved == [] then Some([]) else
      var kept := Keep(owned, resolved[..|resolved| - 1]);
      if kept.None? then None else KeepMore(owned, kept.value, resolved[|resolved| - 1])
  }

  function KeepMore(owned: set<Identity>, kept: seq<Located>, e: Located): Option<seq<Located>> {
    if IdentityOf(e) in owned then Some(kept)
    else if Contradicted(kept, e) then None
    else if KeptAs(kept, e) then Some(kept)
    else Some(kept + [e])
  }

  lemma KeepNext(owned: set<Identity>, resolved: seq<Located>, e: Located)
    ensures Keep(owned, resolved + [e])
         == if Keep(owned, resolved).None? then None else KeepMore(owned, Keep(owned, resolved).value, e)
  {
    assert (resolved + [e])[..|resolved|] == resolved;
  }

  lemma {:induction false} KeepStopped(owned: set<Identity>, resolved: seq<Located>, more: seq<Located>)
    requires Keep(owned, resolved).None?
    ensures Keep(owned, resolved + more).None?
  {
    if more == [] {
      assert resolved + more == resolved;
    } else {
      var front := more[..|more| - 1];
      KeepStopped(owned, resolved, front);
      KeepNext(owned, resolved + front, more[|more| - 1]);
      assert resolved + front + [more[|more| - 1]] == resolved + more;
    }
  }

  /** Kept entries are unowned, one per directory, and stand for every unowned entry resolved so far. */
  ghost predicate Stands(owned: set<Identity>, resolved: seq<Located>, kept: seq<Located>) {
    && OnePerDirectory(kept)
    && (forall e :: e in kept ==> e in resolved && IdentityOf(e) !in owned)
    && (forall e :: e in resolved && IdentityOf(e) !in owned ==> KeptAs(kept, e))
  }

  ghost predicate Disagree(owned: set<Identity>, resolved: seq<Located>) {
    exists a, b :: a in resolved && b in resolved && IdentityOf(a) !in owned && IdentityOf(b) !in owned
      && Conflicts(a, b)
  }

  lemma StandsMore(owned: set<Identity>, resolved: seq<Located>, kept: seq<Located>, e: Located)
    requires Stands(owned, resolved, kept)
    ensures var r := KeepMore(owned, kept, e); r.Some? ==> Stands(owned, resolved + [e], r.value)
    ensures KeepMore(owned, kept, e).None? ==> Disagree(owned, resolved + [e])
  {
    var r := KeepMore(owned, kept, e);
    if r.None? {
      var i :| 0 <= i < |kept| && Conflicts(kept[i], e);
      assert kept[i] in kept && e in resolved + [e];
    } else {
      forall x | x in resolved + [e] && IdentityOf(x) !in owned ensures KeptAs(r.value, x) {
        if x in resolved {
          var i :| 0 <= i < |kept| && Same(kept[i], x);
          assert Same(r.value[i], x);
        } else if r.value == kept + [e] {
          assert Same(r.value[|kept|], x);
        }
      }
      if r.value == kept + [e] {
        assert r.value != kept;
        forall i | 0 <= i < |kept| ensures kept[i].path != e.path {
          assert !Conflicts(kept[i], e) && !Same(kept[i], e);
        }
      }
    }
  }

  /** Whatever the order, the outcome is a conflict exactly when two unowned entries disagree. */
  lemma {:induction false} KeepFailsOnConflict(owned: set<Identity>, resolved: seq<Located>)
    ensures Keep(owned, resolved).None? <==> Disagree(owned, resolved)
    ensures Keep(owned, resolved).Some? ==> Stands(owned, resolved, Keep(owned, resolved).value)
  {
    if resolved != [] {
      var last, front := resolved[|resolved| - 1], resolved[..|resolved| - 1];
      assert resolved == front + [last];
      KeepFailsOnConflict(owned, front);
      if Keep(owned, front).Some? {
        StandsMore(owned, front, Keep(owned, front).value, last);
      }
      if Keep(owned, resolved).Some? {
        StandsAgree(owned, resolved, Keep(owned, resolved).value);
      }
    }
  }

  lemma StandsAgree(owned: set<Identity>, resolved: seq<Located>, kept: seq<Located>)
    requires Stands(owned, resolved, kept)
    ensures !Disagree(owned, resolved)
  {
  }

  /** What the target keeps completes the order that bootstrap began. */
  lemma {:induction false} KeptSatisfied(repo: Repository, boot: seq<Located>, owned: set<Identity>,
                                         resolved: seq<Located>)
    requires RequirementsFirst(repo, boot) && RequirementsFirst(repo, resolved)
    requires OwnedBy(boot, owned)
    requires Keep(owned, resolved).Some?
    ensures RequirementsFirst(repo, boot + Keep(owned, resolved).value)
  {
    var kept := Keep(owned, resolved).value;
    if resolved == [] {
      assert boot + kept == boot;
    } else {
      var last, front := resolved[|resolved| - 1], resolved[..|resolved| - 1];
      forall n | 0 <= n < |front| ensures Satisfied(repo, front[..n], front[n]) {
        assert front[..n] == resolved[..n];
      }
      KeptSatisfied(repo, boot, owned, front);
      KeepFailsOnConflict(owned, front);
      var before := Keep(owned, front).value;
      if kept == before + [last] {
        assert Satisfied(repo, resolved[..|front|], last);
        StandIns(repo, boot, owned, front, before, last);
        OneMoreSatisfied(repo, boot + before, last);
        assert boot + before + [last] == boot + kept;
      }
    }
  }

  /** A resolved requirement is bootstrap's, or one the target kept. */
  lemma StandIns(repo: Repository, boot: seq<Located>, owned: set<Identity>, front: seq<Located>,
                 before: seq<Located>, e: Located)
    requires Stands(owned, front, before) && Satisfied(repo, front, e)
    requires OwnedBy(boot, owned)
    ensures Satisfied(repo, boot + before, e)
  {
    var prior := boot + before;
    forall q | IsRequirement(repo, e, q) ensures exists i :: 0 <= i < |prior| && Same(prior[i], q) {
      var i :| 0 <= i < |front| && Same(front[i], q);
      if IdentityOf(front[i]) in owned {
        var j :| 0 <= j < |boot| && IdentityOf(boot[j]) == IdentityOf(front[i]);
        assert Same(prior[j], q);
      } else {
        assert front[i] in front;
        var j :| 0 <= j < |before| && Same(before[j], front[i]);
        assert Same(prior[|boot| + j], q);
      }
    }
  }

  /** The kept directories, each under its one identity. */
  ghost predicate SeenFor(seen: map<string, (string, string)>, kept: seq<Located>) {
    && (forall i :: 0 <= i < |kept| ==>
      kept[i].path in seen && seen[kept[i].path] == (kept[i].key.profile, kept[i].spec.namespace))
    && (forall p :: p in seen ==> exists i :: 0 <= i < |kept| && kept[i].path == p)
  }

  /** One release's plan, minus what bootstrap owns and what an earlier release installs. */
  method KeepPlan(owned: set<Identity>, entries: seq<Located>, seen: map<string, (string, string)>,
                  ghost resolved: seq<Located>, ghost earlier: seq<Located>)
    returns (r: Result<seq<Located>, ConvergeError>, seen': map<string, (string, string)>)
    requires Keep(owned, resolved) == Some(earlier) && SeenFor(seen, earlier)
    ensures r.Ok? ==> Keep(owned, resolved + entries) == Some(earlier + r.value) && SeenFor(seen', earlier + r.value)
    ensures r.Err? ==> r.error.ConflictingIdentities? && Keep(owned, resolved + entries).None?
  {
    var kept: seq<Located> := [];
    seen' := seen;
    assert resolved + entries[..0] == resolved && earlier + kept == earlier;
    for i := 0 to |entries|
      invariant Progress(owned, resolved, entries, i, earlier + kept, seen')
    {
      var keep;
      keep, seen' := KeepEntry(owned, entries, i, seen', resolved, earlier + kept);
      if keep.Err? {
        return Err(keep.error), seen';
      }
      assert earlier + (kept + keep.value) == earlier + kept + keep.value;
      kept := kept + keep.value;
    }
    assert entries[..|entries|] == entries;
    return Ok(kept), seen';
  }

  ghost predicate Progress(owned: set<Identity>, resolved: seq<Located>, entries: seq<Located>, i: nat,
                           kept: seq<Located>, seen: map<string, (string, string)>)
    requires i <= |entries|
  {
    Keep(owned, resolved + entries[..i]) == Some(kept) && SeenFor(seen, kept)
  }

  lemma AppendedSplit<T>(first: seq<T>, rest: seq<T>, i: nat)
    requires i < |rest|
    ensures first + rest[..i] + [rest[i]] == first + rest[..i + 1]
    ensures first + rest[..i] + [rest[i]] + rest[i + 1..] == first + rest
  {
  }

  lemma KeepStep(owned: set<Identity>, resolved: seq<Located>, entries: seq<Located>, i: nat, kept: seq<Located>)
    requires i < |entries| && Keep(owned, resolved + entries[..i]) == Some(kept)
    ensures Keep(owned, resolved + entries[..i + 1]) == KeepMore(owned, kept, entries[i])
    ensures KeepMore(owned, kept, entries[i]).None? ==> Keep(owned, resolved + entries).None?
  {
    var before, more := resolved + entries[..i], entries[i + 1..];
    KeepNext(owned, before, entries[i]);
    AppendedSplit(resolved, entries, i);
    if Keep(owned, before + [entries[i]]).None? {
      KeepStopped(owned, before + [entries[i]], more);
    }
  }

  /** The entry itself, or nothing when it is owned or already kept. */
  method KeepEntry(owned: set<Identity>, entries: seq<Located>, i: nat, seen: map<string, (string, string)>,
                   ghost resolved: seq<Located>, ghost kept: seq<Located>)
    returns (r: Result<seq<Located>, ConvergeError>, seen': map<string, (string, string)>)
    requires i < |entries| && Progress(owned, resolved, entries, i, kept, seen)
    ensures r.Ok? ==> Progress(owned, resolved, entries, i + 1, kept + r.value, seen')
    ensures r.Err? ==> r.error == ConflictingIdentities(entries[i].path) && Keep(owned, resolved + entries).None?
  {
    var e := entries[i];
    KeepStep(owned, resolved, entries, i, kept);
    SeenDecides(seen, kept, e);
    assert kept + [] == kept;
    if IdentityOf(e) in owned {
      return Ok([]), seen;
    }
    if e.path in seen {
      if seen[e.path] == (e.key.profile, e.spec.namespace) {
        return Ok([]), seen;
      }
      return Err(ConflictingIdentities(e.path)), seen;
    }
    seen' := seen[e.path := (e.key.profile, e.spec.namespace)];
    assert seen' - {e.path} == seen;
    SeenMore(seen', kept, e);
    return Ok([e]), seen';
  }

  lemma SeenDecides(seen: map<string, (string, string)>, kept: seq<Located>, e: Located)
    requires SeenFor(seen, kept)
    ensures e.path !in seen ==> !Contradicted(kept, e) && !KeptAs(kept, e)
    ensures e.path in seen && seen[e.path] == (e.key.profile, e.spec.namespace) ==>
      !Contradicted(kept, e) && KeptAs(kept, e)
    ensures e.path in seen && seen[e.path] != (e.key.profile, e.spec.namespace) ==> Contradicted(kept, e)
  {
  }

  lemma SeenMore(seen: map<string, (string, string)>, kept: seq<Located>, e: Located)
    requires e.path in seen && SeenFor(seen - {e.path}, kept)
    requires seen[e.path] == (e.key.profile, e.spec.namespace)
    ensures SeenFor(seen, kept + [e])
  {
    var longer := kept + [e];
    assert longer[|kept|] == e;
    forall p | p in seen ensures exists i :: 0 <= i < |longer| && longer[i].path == p {
      if p != e.path {
        assert p in seen - {e.path};
        var i :| 0 <= i < |kept| && kept[i].path == p;
        assert longer[i].path == p;
      }
    }
  }

  /** `e` is in the install plan of this release: reached from what it names, in its directory. */
  ghost predicate Planned(repo: Repository, r: Release, e: Located) {
    && r.Lifecycle? && e.directory == r.directory
    && e.path == repo.resolve(r.directory, e.key.chart) && e.name == repo.loadedName(r.directory, e.key.chart)
    && Reaches(CatalogOf(repo, r.directory), Key(r.chart, r.profile), e.key)
    && Lookup(CatalogOf(repo, r.directory), e.key) == Ok(e.spec)
  }

  ghost predicate Wanted(repo: Repository, releases: seq<Release>, e: Located) {
    exists r :: r in releases && Planned(repo, r, e)
  }

  ghost predicate Covers(repo: Repository, releases: seq<Release>, resolved: seq<Located>) {
    forall e :: e in resolved <==> Wanted(repo, releases, e)
  }

  /** Two wanted entries that bootstrap does not own claim one chart directory differently. */
  ghost predicate TargetsDisagree(repo: Repository, owned: set<Identity>, releases: seq<Release>) {
    exists a, b :: Wanted(repo, releases, a) && Wanted(repo, releases, b)
      && IdentityOf(a) !in owned && IdentityOf(b) !in owned && Conflicts(a, b)
  }

  ghost predicate AllResolvable(repo: Repository, releases: seq<Release>) {
    forall r :: r in releases && r.Lifecycle? ==> Resolvable(CatalogOf(repo, r.directory), Key(r.chart, r.profile))
  }

  lemma ResolvedIsPlanned(repo: Repository, r: Release, entries: seq<Located>, e: Located)
    requires Resolved(repo, r, entries)
    ensures e in entries <==> Planned(repo, r, e)
  {
    var catalog, root := CatalogOf(repo, r.directory), Key(r.chart, r.profile);
    var plan: seq<Entry> :| PlanFor(catalog, root, plan) && LocatedFrom(repo, r.directory, plan, entries);
    KeyIn(plan, e.key);
    if e in entries {
      var i :| 0 <= i < |entries| && entries[i] == e;
      assert e == Locate(repo, r.directory, plan[i]);
      assert Lookup(catalog, plan[i].key) == Ok(plan[i].spec);
    }
    if Planned(repo, r, e) {
      var i :| 0 <= i < |plan| && plan[i].key == e.key;
      assert Lookup(catalog, plan[i].key) == Ok(plan[i].spec);
      assert entries[i] == e;
    }
  }

  lemma CoversMore(repo: Repository, releases: seq<Release>, resolved: seq<Located>, r: Release, entries: seq<Located>)
    requires Covers(repo, releases, resolved)
    requires if r.Lifecycle? then Resolved(repo, r, entries) else entries == []
    ensures Covers(repo, releases + [r], resolved + entries)
  {
    forall e ensures e in resolved + entries <==> Wanted(repo, releases + [r], e) {
      if r.Lifecycle? {
        ResolvedIsPlanned(repo, r, entries, e);
      }
      assert r in releases + [r];
      if Wanted(repo, releases, e) {
        var s :| s in releases && Planned(repo, s, e);
        assert s in releases + [r];
      }
    }
  }

  lemma WantedMore(repo: Repository, releases: seq<Release>, n: nat, owned: set<Identity>, resolved: seq<Located>)
    requires n <= |releases| && Covers(repo, releases[..n], resolved) && Disagree(owned, resolved)
    ensures TargetsDisagree(repo, owned, releases)
  {
  }

  /** The authored shape is kept: a lifecycle release stays a plan, any other release is untouched. */
  ghost predicate Shape(releases: seq<Release>, steps: seq<Step>) {
    |steps| == |releases| && forall i :: 0 <= i < |steps| ==>
      if releases[i].Lifecycle? then steps[i].Entries? else steps[i] == AsAuthored(releases[i])
  }

  /** What preflight has after these releases. */
  ghost predicate Prepared(repo: Repository, owned: set<Identity>, releases: seq<Release>, steps: seq<Step>,
                           resolved: seq<Located>, seen: map<string, (string, string)>)
  {
    && Shape(releases, steps) && AllResolvable(repo, releases)
    && Keep(owned, resolved) == Some(Flatten(steps)) && SeenFor(seen, Flatten(steps))
    && Covers(repo, releases, resolved) && RequirementsFirst(repo, resolved)
  }

  /** Resolve every target release, in authored order, before anything is installed. */
  method Preflight(repo: Repository, owned: set<Identity>, releases: seq<Release>)
    returns (result: Result<seq<Step>, ConvergeError>, ghost resolved: seq<Located>)
    ensures result.Ok? <==> AllResolvable(repo, releases) && !TargetsDisagree(repo, owned, releases)
    ensures result.Ok? ==> Shape(releases, result.value) && Keep(owned, resolved) == Some(Flatten(result.value))
    ensures result.Ok? ==> Covers(repo, releases, resolved) && RequirementsFirst(repo, resolved)
    ensures result.Err? && result.error.ConflictingIdentities? ==> TargetsDisagree(repo, owned, releases)
  {
    var seen: map<string, (string, string)> := map[];
    var steps: seq<Step> := [];
    resolved := [];
    for i := 0 to |releases|
      invariant Prepared(repo, owned, releases[..i], steps, resolved, seen)
    {
      var step;
      step, seen, resolved := PreflightStep(repo, owned, releases, i, seen, resolved, steps);
      if step.Err? {
        return Err(step.error), resolved;
      }
      steps := steps + [step.value];
    }
    assert releases[..|releases|] == releases;
    KeepFailsOnConflict(owned, resolved);
    return Ok(steps), resolved;
  }

  method PreflightStep(repo: Repository, owned: set<Identity>, releases: seq<Release>, i: nat,
                       seen: map<string, (string, string)>,
                       ghost resolved: seq<Located>, ghost steps: seq<Step>)
    returns (step: Result<Step, ConvergeError>, seen': map<string, (string, string)>, ghost resolved': seq<Located>)
    requires i < |releases| && Prepared(repo, owned, releases[..i], steps, resolved, seen)
    ensures step.Ok? ==> Prepared(repo, owned, releases[..i + 1], steps + [step.value], resolved', seen')
    ensures step.Err? ==>
      if step.error.ConflictingIdentities? then TargetsDisagree(repo, owned, releases)
      else !AllResolvable(repo, releases)
  {
    var r := releases[i];
    ghost var plan;
    step, seen', plan := PreflightOne(repo, owned, r, seen, resolved, steps);
    resolved' := resolved + plan;
    assert releases[..i + 1] == releases[..i] + [r];
    if step.Ok? || step.error.ConflictingIdentities? {
      CoversMore(repo, releases[..i], resolved, r, plan);
    }
    if step.Err? && step.error.ConflictingIdentities? {
      KeepFailsOnConflict(owned, resolved');
      WantedMore(repo, releases, i + 1, owned, resolved');
    }
  }

  method PreflightOne(repo: Repository, owned: set<Identity>, r: Release, seen: map<string, (string, string)>,
                      ghost resolved: seq<Located>, ghost steps: seq<Step>)
    returns (step: Result<Step, ConvergeError>, seen': map<string, (string, string)>, ghost plan: seq<Located>)
    requires Keep(owned, resolved) == Some(Flatten(steps)) && SeenFor(seen, Flatten(steps))
    requires RequirementsFirst(repo, resolved)
    ensures step.Ok? ==>
      && (if r.Lifecycle? then step.value.Entries? else step.value == AsAuthored(r))
      && Keep(owned, resolved + plan) == Some(Flatten(steps + [step.value]))
      && SeenFor(seen', Flatten(steps + [step.value]))
      && RequirementsFirst(repo, resolved + plan)
      && (r.Lifecycle? ==> Resolvable(CatalogOf(repo, r.directory), Key(r.chart, r.profile)))
    ensures step.Ok? || (step.Err? && step.error.ConflictingIdentities?) ==>
      if r.Lifecycle? then Resolved(repo, r, plan) else plan == []
    ensures step.Err? ==> r.Lifecycle? && match step.error
      case ConflictingIdentities(_) => Keep(owned, resolved + plan).None?
      case Unresolved(_) => !Resolvable(CatalogOf(repo, r.directory), Key(r.chart, r.profile))
      case _ => false
  {
    plan := [];
    if r.External? {
      FlattenNext(steps, AsAuthored(r));
      assert resolved + plan == resolved && Flatten(steps) + [] == Flatten(steps);
      return Ok(AsAuthored(r)), seen, plan;
    }
    var entries := ResolveRelease(repo, r);
    if entries.Err? {
      return Err(entries.error), seen, plan;
    }
    plan := entries.value;
    PlanKeepsOrder(repo, r, resolved, plan, |plan|);
    assert plan[..|plan|] == plan;
    var kept;
    kept, seen' := KeepPlan(owned, entries.value, seen, resolved, Flatten(steps));
    if kept.Err? {
      return Err(kept.error), seen', plan;
    }
    FlattenNext(steps, Entries(kept.value));
    return Ok(Entries(kept.value)), seen', plan;
  }

  /**
   The whole converge order, bootstrap then target: every entry's requirements are installed
   before it, the target installs each chart directory at most once, and whatever the target
   names is installed by one or the other under exactly the profile and namespace it names.
   */
  method Prepare(repo: Repository, bootstrap: seq<Release>, target: seq<Release>)
    returns (result: Result<(seq<Step>, seq<Step>), ConvergeError>)
    ensures result.Ok? ==>
      && StepsFor(repo, bootstrap, result.value.0) && Shape(target, result.value.1)
      && RequirementsFirst(repo, Flatten(result.value.0) + Flatten(result.value.1))
      && OnePerDirectory(Flatten(result.value.1))
      && (forall e :: e in Flatten(result.value.1) ==>
        Wanted(repo, target, e) && IdentityOf(e) !in Owned(result.value.0))
      && (forall e :: Wanted(repo, target, e) ==>
            IdentityOf(e) in Owned(result.value.0) || KeptAs(Flatten(result.value.1), e))
    ensures result.Ok? ==> AllResolvable(repo, target) && !TargetsDisagree(repo, Owned(result.value.0), target)
  {
    var boot := BootstrapPreflight(repo, bootstrap);
    if boot.Err? {
      return Err(boot.error);
    }
    var owned := Owned(boot.value);
    ghost var resolved;
    var steps;
    steps, resolved := Preflight(repo, owned, target);
    if steps.Err? {
      return Err(steps.error);
    }
    KeepFailsOnConflict(owned, resolved);
    OwnedIsBootstrap(boot.value);
    KeptSatisfied(repo, Flatten(boot.value), owned, resolved);
    return Ok((boot.value, steps.value));
  }

  ghost predicate OwnedBy(boot: seq<Located>, owned: set<Identity>) {
    forall id :: id in owned ==> exists i :: 0 <= i < |boot| && IdentityOf(boot[i]) == id
  }

  lemma OwnedIsBootstrap(steps: seq<Step>)
    ensures OwnedBy(Flatten(steps), Owned(steps))
  {
  }
}
