/** Which managed charts depend on which, through local files: the index behind helm-dependent selection. */
module DependencyIndex {
  datatype Dependency = Dependency(name: string, repository: string)

  /** A chart of the charts directory; one that fails to load declares nothing. */
  datatype ChartEntry = Loaded(name: string, dependencies: seq<Dependency>) | Unloadable

  const FILE_SCHEME := "file://"

  /** Helm would resolve it from local files. */
  predicate IsLocal(d: Dependency) {
    d.repository == "" || (|FILE_SCHEME| <= |d.repository| && d.repository[..|FILE_SCHEME|] == FILE_SCHEME)
  }

  ghost predicate DependsOn(chart: ChartEntry, name: string) {
    chart.Loaded? && chart.name != name && NeedsLocally(chart, |chart.dependencies|, name)
  }

  ghost predicate NeedsLocally(chart: ChartEntry, n: nat, name: string)
    requires chart.Loaded? && n <= |chart.dependencies|
  {
    exists i :: 0 <= i < n && chart.dependencies[i].name == name && IsLocal(chart.dependencies[i])
  }

  ghost predicate Declares(charts: seq<ChartEntry>, name: string, dependent: string) {
    exists chart :: chart in charts && DependsOn(chart, name) && chart.name == dependent
  }

  type Index = map<string, set<string>>

  predicate Indexed(index: Index, name: string, dependent: string) {
    name in index && dependent in index[name]
  }

  function Add(index: Index, name: string, dependent: string): (r: Index)
    ensures forall x, y :: Indexed(r, x, y) <==> Indexed(index, x, y) || (x == name && y == dependent)
  {
    index[name := (if name in index then index[name] else {}) + {dependent}]
  }

  /** Which charts depend, through local files, on each name; a chart never depends on itself. */
  method BuildDependencyIndex(charts: seq<ChartEntry>) returns (index: Index)
    ensures forall name, dependent :: Indexed(index, name, dependent) <==> Declares(charts, name, dependent)
  {
    index := map[];
    for i := 0 to |charts|
      invariant forall name, dependent :: Indexed(index, name, dependent) <==> Declares(charts[..i], name, dependent)
    {
      assert charts[..i + 1] == charts[..i] + [charts[i]];
      if charts[i].Loaded? {
        index := IndexChart(index, charts[i]);
      }
    }
    assert charts[..|charts|] == charts;
  }

  method IndexChart(index: Index, chart: ChartEntry) returns (r: Index)
    requires chart.Loaded?
    ensures forall name, dependent ::
      Indexed(r, name, dependent) <==>
        Indexed(index, name, dependent) || (DependsOn(chart, name) && dependent == chart.name)
  {
    r := index;
    for i := 0 to |chart.dependencies|
      invariant forall name, dependent ::
        Indexed(r, name, dependent) <==>
          Indexed(index, name, dependent) || (dependent == chart.name != name && NeedsLocally(chart, i, name))
    {
      var d := chart.dependencies[i];
      forall name
        ensures NeedsLocally(chart, i + 1, name) <==> NeedsLocally(chart, i, name) || (d.name == name && IsLocal(d))
      {
        NeedsOneMore(chart, i, name);
      }
      if d.name != chart.name && IsLocal(d) {
        r := Add(r, d.name, chart.name);
      }
    }
  }

  lemma NeedsOneMore(chart: ChartEntry, i: nat, name: string)
    requires chart.Loaded? && i < |chart.dependencies|
    ensures var d := chart.dependencies[i];
      NeedsLocally(chart, i + 1, name) <==> NeedsLocally(chart, i, name) || (d.name == name && IsLocal(d))
  {
  }
}
