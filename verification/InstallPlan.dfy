/** Resolving a chart-test profile and its requirements into a dependencies-first plan. */
module InstallPlan {
  import opened Wrappers

  datatype Key = Key(chart: string, profile: string)

  /** An authored chart-test profile; `valuesExist` is whether every values file it names exists. */
  datatype Profile = Profile(requires_: seq<Key>, namespace: string, hooks: bool, valuesExist: bool)

  /** A chart that loads. `profiles` is None when the chart has no enabled chart test. */
  datatype Chart = Chart(profiles: Option<map<string, Profile>>)

  /** The charts of one directory that load, by name. */
  type Catalog = map<string, Chart>

  datatype PlanError =
    | ChartUnloadable(key: Key)
    | ProfileUnavailable(key: Key)
    | ValuesMissing(key: Key)
    | Cycle(path: seq<Key>)

  datatype Entry = Entry(key: Key, spec: Profile)

  function Lookup(catalog: Catalog, key: Key): Result<Profile, PlanError> {
    if key.chart !in catalog then Err(ChartUnloadable(key))
    else
      var profiles := catalog[key.chart].profiles;
      if profiles.Some? && key.profile in profiles.value then Ok(profiles.value[key.profile])
      else Err(ProfileUnavailable(key))
  }

  /** `a` loads and requires `b`. */
  predicate Edge(catalog: Catalog, a: Key, b: Key) {
    Lookup(catalog, a).Ok? && b in Lookup(catalog, a).value.requires_
  }

  predicate EdgeAt(catalog: Catalog, p: seq<Key>, i: nat)
    requires i + 1 < |p|
  {
    Edge(catalog, p[i], p[i + 1])
  }

  predicate IsPath(catalog: Catalog, p: seq<Key>) {
    p != [] && forall i :: 0 <= i < |p| - 1 ==> EdgeAt(catalog, p, i)
  }

  ghost predicate PathBetween(catalog: Catalog, p: seq<Key>, a: Key, b: Key) {
    IsPath(catalog, p) && p[0] == a && p[|p| - 1] == b
  }

  ghost predicate Reaches(catalog: Catalog, a: Key, b: Key) {
    exists p :: PathBetween(catalog, p, a, b)
  }

  /** A requirement chain from `root` that comes back to a key it already holds. */
  ghost predicate CyclicPath(catalog: Catalog, root: Key, p: seq<Key>) {
    IsPath(catalog, p) && p[0] == root && p[|p| - 1] in p[..|p| - 1]
  }

  predicate Installable(catalog: Catalog, k: Key) {
    Lookup(catalog, k).Ok? && Lookup(catalog, k).value.valuesExist
  }

  /** The error names something really wrong that the request really reaches. */
  ghost predicate Justified(catalog: Catalog, root: Key, e: PlanError) {
    match e
    case Cycle(p) => CyclicPath(catalog, root, p)
    case ValuesMissing(k) => Reaches(catalog, root, k) && Lookup(catalog, k).Ok?
      && !Lookup(catalog, k).value.valuesExist
    case _ => Reaches(catalog, root, e.key) && Lookup(catalog, e.key) == Err(e)
  }

  function Keys(plan: seq<Entry>): (r: seq<Key>)
    ensures |r| == |plan|
  {
    seq(|plan|, i requires 0 <= i < |plan| => plan[i].key)
  }

  /** Every entry is what the catalog says, comes once, and follows everything it requires. */
  ghost predicate DependenciesFirst(catalog: Catalog, plan: seq<Entry>) {
    && (forall i :: 0 <= i < |plan| ==> Lookup(catalog, plan[i].key) == Ok(plan[i].spec) && plan[i].spec.valuesExist)
    && (forall i, j :: 0 <= i < j < |plan| ==> plan[i].key != plan[j].key)
    && (forall i, k :: 0 <= i < |plan| && k in plan[i].spec.requires_ ==> k in Keys(plan[..i]))
  }

  ghost function AllKeys(catalog: Catalog): set<Key> {
    set c, p | c in catalog && catalog[c].profiles.Some? && p in catalog[c].profiles.value :: Key(c, p)
  }

  ghost function Elements(s: seq<Key>): set<Key> { set k | k in s }

  /** The open visits: a requirement chain from the request, without repetition. */
  ghost predicate Stack(catalog: Catalog, root: Key, visiting: seq<Key>) {
    && (visiting != [] ==> IsPath(catalog, visiting) && visiting[0] == root)
    && (forall i, j :: 0 <= i < j < |visiting| ==> visiting[i] != visiting[j])
    && (forall k :: k in visiting ==> k in AllKeys(catalog))
  }

  /** `key` is the request, or something that the innermost visited key requires. */
  predicate Next(catalog: Catalog, root: Key, visiting: seq<Key>, key: Key) {
    if visiting == [] then key == root else Edge(catalog, visiting[|visiting| - 1], key)
  }

  lemma PathExtended(catalog: Catalog, p: seq<Key>, key: Key)
    requires p != [] ==> IsPath(catalog, p) && Edge(catalog, p[|p| - 1], key)
    ensures IsPath(catalog, p + [key])
  {
    var longer := p + [key];
    forall i: nat | i < |longer| - 1 ensures EdgeAt(catalog, longer, i) {
      assert i < |p| - 1 ==> EdgeAt(catalog, p, i);
    }
  }

  lemma NextReached(catalog: Catalog, root: Key, visiting: seq<Key>, key: Key)
    requires Stack(catalog, root, visiting) && Next(catalog, root, visiting, key)
    ensures Reaches(catalog, root, key)
  {
    PathExtended(catalog, visiting, key);
    assert PathBetween(catalog, visiting + [key], root, key);
  }

  lemma CycleJustified(catalog: Catalog, root: Key, visiting: seq<Key>, key: Key)
    requires Stack(catalog, root, visiting) && Next(catalog, root, visiting, key) && key in visiting
    ensures Justified(catalog, root, Cycle(visiting + [key]))
  {
    var path := visiting + [key];
    PathExtended(catalog, visiting, key);
    assert path[..|path| - 1] == visiting;
  }

  lemma Pushed(catalog: Catalog, root: Key, visiting: seq<Key>, key: Key)
    requires Stack(catalog, root, visiting) && Next(catalog, root, visiting, key)
    requires key !in visiting && key in AllKeys(catalog)
    ensures Stack(catalog, root, visiting + [key])
  {
    PathExtended(catalog, visiting, key);
  }

  /** What may still be put on the stack. */
  ghost function Unvisited(catalog: Catalog, visiting: seq<Key>): nat {
    |AllKeys(catalog) - Elements(visiting)|
  }

  lemma PushedSmaller(catalog: Catalog, visiting: seq<Key>, key: Key)
    requires key !in visiting && key in AllKeys(catalog)
    ensures Unvisited(catalog, visiting + [key]) < Unvisited(catalog, visiting)
  {
    var all := AllKeys(catalog);
    assert Elements(visiting + [key]) == Elements(visiting) + {key};
    var open := all - Elements(visiting);
    assert all - Elements(visiting + [key]) == open - {key};
    assert key in open;
  }

  lemma KeyIn(plan: seq<Entry>, k: Key)
    ensures k in Keys(plan) <==> exists i :: 0 <= i < |plan| && plan[i].key == k
  {
    if k in Keys(plan) {
      var i :| 0 <= i < |plan| && Keys(plan)[i] == k;
    }
    if i :| 0 <= i < |plan| && plan[i].key == k {
      assert Keys(plan)[i] == k;
    }
  }

  lemma Appended(catalog: Catalog, plan: seq<Entry>, entry: Entry)
    requires DependenciesFirst(catalog, plan) && entry.key !in Keys(plan)
    requires Lookup(catalog, entry.key) == Ok(entry.spec) && entry.spec.valuesExist
    requires forall k :: k in entry.spec.requires_ ==> k in Keys(plan)
    ensures DependenciesFirst(catalog, plan + [entry])
    ensures Keys(plan + [entry]) == Keys(plan) + [entry.key]
  {
    var longer := plan + [entry];
    forall i | 0 <= i < |plan| ensures plan[i].key != entry.key {
      KeyIn(plan, entry.key);
    }
    forall i, k | 0 <= i < |longer| && k in longer[i].spec.requires_ ensures k in Keys(longer[..i]) {
      assert longer[..i] == plan[..i];
    }
    assert plan[..|plan|] == plan;
  }

  lemma OneMore(ks: seq<Key>, i: nat, planned: set<Key>)
    requires i < |ks| && Elements(ks[..i]) <= planned && ks[i] in planned
    ensures Elements(ks[..i + 1]) <= planned
  {
    assert ks[..i + 1] == ks[..i] + [ks[i]];
  }

  class Planner {
    const catalog: Catalog
    const root: Key
    var charts: Catalog
    var plan: seq<Entry>
    var planned: set<Key>
    var visiting: seq<Key>

    ghost predicate Valid()
      reads this
    {
      && (forall c :: c in charts ==> c in catalog && catalog[c] == charts[c])
      && (forall k :: k in planned <==> k in Keys(plan))
      && DependenciesFirst(catalog, plan)
      && (forall k :: k in planned ==> Reaches(catalog, root, k) && k !in visiting)
      && Stack(catalog, root, visiting)
    }

    constructor (catalog: Catalog, root: Key)
      ensures Valid() && this.catalog == catalog && this.root == root
      ensures plan == [] && visiting == []
    {
      this.catalog, this.root := catalog, root;
      charts, plan, planned, visiting := map[], [], {}, [];
    }

    /** Plan `key` after everything it requires; the stack of open visits is left as it was. */
    method Visit(key: Key, ghost room: nat) returns (r: Result<(), PlanError>)
      requires Valid() && Next(catalog, root, visiting, key)
      requires Unvisited(catalog, visiting) <= room
      modifies this
      ensures r.Ok? ==> Valid() && visiting == old(visiting) && key in planned
      ensures r.Ok? ==> old(plan) <= plan && old(planned) <= planned
      ensures r.Ok? && key !in old(planned) ==> plan != [] && plan[|plan| - 1].key == key
      ensures r.Err? ==> Justified(catalog, root, r.error)
      decreases room, 1
    {
      if key in planned {
        return Ok(());
      }
      NextReached(catalog, root, visiting, key);
      if key in visiting {
        CycleJustified(catalog, root, visiting, key);
        return Err(Cycle(visiting + [key]));
      }
      var loaded := Load(key);
      if loaded.Err? {
        return Err(loaded.error);
      }
      var spec := loaded.value;
      r := VisitRequired(key, spec, room);
      if r.Err? {
        return;
      }
      if !spec.valuesExist {
        return Err(ValuesMissing(key));
      }
      Append(key, spec);
    }

    method Append(key: Key, spec: Profile)
      requires Valid() && key !in planned && key !in visiting && Reaches(catalog, root, key)
      requires Lookup(catalog, key) == Ok(spec) && spec.valuesExist && Elements(spec.requires_) <= planned
      modifies this`plan, this`planned
      ensures Valid() && plan == old(plan) + [Entry(key, spec)] && planned == old(planned) + {key}
    {
      assert forall k :: k in spec.requires_ ==> k in Elements(spec.requires_);
      Appended(catalog, plan, Entry(key, spec));
      planned := planned + {key};
      plan := plan + [Entry(key, spec)];
    }

    /** Each chart is loaded once. */
    method Load(key: Key) returns (r: Result<Profile, PlanError>)
      requires forall c :: c in charts ==> c in catalog && catalog[c] == charts[c]
      modifies this`charts
      ensures forall c :: c in charts ==> c in catalog && catalog[c] == charts[c]
      ensures r == Lookup(catalog, key)
      ensures r.Ok? ==> key in AllKeys(catalog)
    {
      if key.chart !in charts {
        if key.chart !in catalog {
          return Err(ChartUnloadable(key));
        }
        charts := charts[key.chart := catalog[key.chart]];
      }
      var loaded := charts[key.chart];
      if loaded.profiles.None? || key.profile !in loaded.profiles.value {
        return Err(ProfileUnavailable(key));
      }
      return Ok(loaded.profiles.value[key.profile]);
    }

    /** Visit each requirement in order with `key` on the stack. */
    method VisitRequired(key: Key, spec: Profile, ghost room: nat) returns (r: Result<(), PlanError>)
      requires Valid() && Next(catalog, root, visiting, key) && key !in planned && key !in visiting
      requires Lookup(catalog, key) == Ok(spec) && key in AllKeys(catalog)
      requires Unvisited(catalog, visiting) <= room
      modifies this
      ensures r.Ok? ==> Valid() && visiting == old(visiting) && key !in planned
      ensures r.Ok? ==> old(plan) <= plan && old(planned) <= planned
      ensures r.Ok? ==> Elements(spec.requires_) <= planned
      ensures r.Err? ==> Justified(catalog, root, r.error)
      decreases room, 0
    {
      ghost var before := visiting;
      Push(key);
      assert room > 0 && Unvisited(catalog, visiting) <= room - 1;
      r := Ok(());
      for i := 0 to |spec.requires_|
        invariant Valid() && visiting == before + [key]
        invariant old(plan) <= plan && old(planned) <= planned
        invariant Elements(spec.requires_[..i]) <= planned
        invariant r.Ok?
      {
        r := Visit(spec.requires_[i], room - 1);
        if r.Err? {
          return;
        }
        OneMore(spec.requires_, i, planned);
      }
      assert spec.requires_[..|spec.requires_|] == spec.requires_;
      Pop(key, before);
    }

    method Push(key: Key)
      requires Valid() && Next(catalog, root, visiting, key) && key !in planned && key !in visiting
      requires key in AllKeys(catalog)
      modifies this`visiting
      ensures Valid() && visiting == old(visiting) + [key]
      ensures Unvisited(catalog, visiting) < old(Unvisited(catalog, visiting))
    {
      Pushed(catalog, root, visiting, key);
      PushedSmaller(catalog, visiting, key);
      visiting := visiting + [key];
    }

    method Pop(key: Key, ghost before: seq<Key>)
      requires Valid() && visiting == before + [key] && Stack(catalog, root, before)
      modifies this`visiting
      ensures Valid() && visiting == before && key !in planned
    {
      assert key in visiting;
      visiting := visiting[..|visiting| - 1];
      assert visiting == before;
    }
  }

  /** The plan for one request. */
  method Plan(catalog: Catalog, root: Key) returns (r: Result<seq<Entry>, PlanError>)
    ensures r.Ok? <==> Resolvable(catalog, root)
    ensures r.Ok? ==> PlanFor(catalog, root, r.value)
    ensures r.Err? ==> Justified(catalog, root, r.error)
  {
    var planner := new Planner(catalog, root);
    var visited := planner.Visit(root, Unvisited(catalog, []));
    if visited.Err? {
      JustifiedMeansUnresolvable(catalog, root, visited.error);
      return Err(visited.error);
    }
    PlanComplete(catalog, root, planner.plan);
    PlannedMeansResolvable(catalog, root, planner.plan);
    return Ok(planner.plan);
  }

  /** Everything the request reaches installs, and no requirement chain comes back to itself. */
  ghost predicate Resolvable(catalog: Catalog, root: Key) {
    && (forall k :: Reaches(catalog, root, k) ==> Installable(catalog, k))
    && (forall p :: !CyclicPath(catalog, root, p))
  }

  /** Exactly what the request reaches, each once, dependencies first and the request last. */
  ghost predicate PlanFor(catalog: Catalog, root: Key, plan: seq<Entry>) {
    && DependenciesFirst(catalog, plan)
    && (forall k :: k in Keys(plan) <==> Reaches(catalog, root, k))
    && plan != [] && plan[|plan| - 1].key == root
  }

  lemma JustifiedMeansUnresolvable(catalog: Catalog, root: Key, e: PlanError)
    requires Justified(catalog, root, e)
    ensures !Resolvable(catalog, root)
  {
  }

  /** Along a requirement chain that starts in the plan, positions strictly go down. */
  lemma {:induction false} ChainDescends(catalog: Catalog, plan: seq<Entry>, p: seq<Key>, i: nat, j: nat)
    returns (a: nat, b: nat)
    requires DependenciesFirst(catalog, plan) && IsPath(catalog, p) && i <= j < |p| && p[0] in Keys(plan)
    ensures a < |plan| && plan[a].key == p[i]
    ensures b < |plan| && plan[b].key == p[j]
    ensures if i == j then a == b else b < a
  {
    if j > i {
      var c;
      a, c := ChainDescends(catalog, plan, p, i, j - 1);
      assert EdgeAt(catalog, p, j - 1);
      KeyIn(plan[..c], p[j]);
      b :| 0 <= b < c && plan[..c][b].key == p[j];
    } else if i == 0 {
      KeyIn(plan, p[0]);
      a :| 0 <= a < |plan| && plan[a].key == p[0];
      b := a;
    } else {
      var c, d := ChainDescends(catalog, plan, p, i - 1, i - 1);
      assert EdgeAt(catalog, p, i - 1);
      KeyIn(plan[..d], p[i]);
      a :| 0 <= a < d && plan[..d][a].key == p[i];
      b := a;
    }
  }

  lemma ReachedIsPlanned(catalog: Catalog, root: Key, plan: seq<Entry>, k: Key)
    requires DependenciesFirst(catalog, plan) && root in Keys(plan) && Reaches(catalog, root, k)
    ensures k in Keys(plan) && Installable(catalog, k)
  {
    var p :| PathBetween(catalog, p, root, k);
    var a, b := ChainDescends(catalog, plan, p, |p| - 1, |p| - 1);
    KeyIn(plan, k);
  }

  lemma PlanComplete(catalog: Catalog, root: Key, plan: seq<Entry>)
    requires DependenciesFirst(catalog, plan) && root in Keys(plan)
    requires forall k :: k in Keys(plan) ==> Reaches(catalog, root, k)
    ensures forall k :: k in Keys(plan) <==> Reaches(catalog, root, k)
  {
    forall k | Reaches(catalog, root, k) ensures k in Keys(plan) {
      ReachedIsPlanned(catalog, root, plan, k);
    }
  }

  /** A plan exists only when nothing the request reaches is broken or circular. */
  lemma PlannedMeansResolvable(catalog: Catalog, root: Key, plan: seq<Entry>)
    requires DependenciesFirst(catalog, plan) && root in Keys(plan)
    ensures Resolvable(catalog, root)
  {
    forall k | Reaches(catalog, root, k) ensures Installable(catalog, k) {
      ReachedIsPlanned(catalog, root, plan, k);
    }
    forall p ensures !CyclicPath(catalog, root, p) {
      if CyclicPath(catalog, root, p) {
        var i :| 0 <= i < |p| - 1 && p[..|p| - 1][i] == p[|p| - 1];
        var a, b := ChainDescends(catalog, plan, p, i, |p| - 1);
        assert false;
      }
    }
  }
}
