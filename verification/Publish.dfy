/** Publishing charts: preview versions that sort where they should, and nothing pushed until all is prepared. */
module Publish {
  import opened Wrappers
  import opened SemVer

  datatype PublishError =
    | NoCharts
    | NotOci
    | VersionAndSuffix
    | VersionForMany
    | SuffixedRelease
    | InvalidVersion(text: string)
    | InvalidSuffix(text: string)
    | UnknownChart(chart: string)
    | NameMismatch(chart: string)
    | NoVersion(chart: string)
    | NotPackaged(chart: string)

  predicate AlphaNumeric(c: char) { IdChar(c) && c != '-' }

  /** Stricter than a prerelease identifier: it neither starts nor ends with a hyphen. */
  predicate SuffixId(s: string) {
    && s != "" && AlphaNumeric(s[0]) && AlphaNumeric(s[|s| - 1]) && AllIdChars(s)
    && !(|s| > 1 && s[0] == '0' && AllDigits(s))
  }

  predicate Accepted(suffix: string) { Every(SuffixId, Split(suffix, '.')) }

  /** The version with these identifiers after its own. */
  function Suffixed(v: Version, ids: seq<string>): Version {
    Version(v.major, v.minor, v.patch, v.prerelease + ids, v.build)
  }

  /** Append prerelease identifiers, keeping everything else the version says. */
  function WithSuffix(base: string, suffix: string): Result<string, PublishError> {
    var version := Parse(base);
    if version.None? then Err(InvalidVersion(base))
    else if !Accepted(suffix) then Err(InvalidSuffix(suffix))
    else Ok(Print(Suffixed(version.value, Split(suffix, '.'))))
  }

  lemma SuffixIdExactly(s: string)
    ensures SuffixId(s) <==> s != "" && PrereleaseId(s) && s[0] != '-' && s[|s| - 1] != '-'
  {
  }

  lemma SuffixIdsArePrerelease(ids: seq<string>)
    requires Every(SuffixId, ids)
    ensures Every(PrereleaseId, ids)
  {
  }

  lemma SuffixedWellFormed(v: Version, ids: seq<string>)
    requires WellFormed(v) && Every(SuffixId, ids)
    ensures WellFormed(Suffixed(v, ids))
  {
    SuffixIdsArePrerelease(ids);
  }

  /**
   The suffixed version always parses; it keeps core and build, and its prerelease is the base's and then
   the suffix.
   */
  lemma SuffixedParses(base: string, suffix: string)
    ensures WithSuffix(base, suffix).Ok? <==> Parse(base).Some? && Accepted(suffix)
    ensures WithSuffix(base, suffix).Ok? ==>
      Parse(WithSuffix(base, suffix).value) == Some(Suffixed(Parse(base).value, Split(suffix, '.')))
    ensures WithSuffix(base, suffix).Ok? ==>
      WellFormed(Parse(base).value) && WellFormed(Suffixed(Parse(base).value, Split(suffix, '.')))
  {
    var version := Parse(base);
    if version.Some? && Accepted(suffix) {
      PrintParse(base);
      SuffixedWellFormed(version.value, Split(suffix, '.'));
      ParsePrint(Suffixed(version.value, Split(suffix, '.')));
    }
  }

  /** A preview of a release sorts below the release; a preview of a prerelease sorts above it. */
  lemma SuffixedOrder(base: string, suffix: string)
    requires WithSuffix(base, suffix).Ok?
    ensures Parse(WithSuffix(base, suffix).value).Some?
    ensures var v, w := Parse(base).value, Parse(WithSuffix(base, suffix).value).value;
      if v.prerelease == [] then Lower(w, v) else Lower(v, w)
  {
    SuffixedParses(base, suffix);
    var v := Parse(base).value;
    var w := Suffixed(v, Split(suffix, '.'));
    PrecedenceIsSection11(v, w);
    PrecedenceIsSection11(w, v);
    if v.prerelease != [] {
      assert w.prerelease[..|v.prerelease|] == v.prerelease == v.prerelease[..|v.prerelease|];
      assert DiffersAt(IdBelow, v.prerelease, w.prerelease, |v.prerelease|);
    }
  }

  /** The suffix of one build of a pull request. */
  function PreviewSuffix(pr: nat, run: nat, sha: string): string {
    "pr" + "." + (Decimal(pr) + "." + (Decimal(run) + "." + ("g" + sha)))
  }

  lemma SplitFirst(before: string, rest: string)
    requires '.' !in before
    ensures Split(before + "." + rest, '.') == [before] + Split(rest, '.')
  {
    CutJoined(before, '.', rest);
    assert before + "." + rest == before + ['.'] + rest;
  }

  lemma DecimalHasNoDot(n: nat)
    ensures '.' !in Decimal(n)
  {
  }

  lemma PreviewIds(pr: nat, run: nat, sha: string)
    ensures Split(PreviewSuffix(pr, run, sha), '.') == ["pr", Decimal(pr), Decimal(run)] + Split("g" + sha, '.')
  {
    DecimalHasNoDot(pr);
    DecimalHasNoDot(run);
    SplitFirst(Decimal(run), "g" + sha);
    SplitFirst(Decimal(pr), Decimal(run) + "." + ("g" + sha));
    SplitFirst("pr", Decimal(pr) + "." + (Decimal(run) + "." + ("g" + sha)));
    var tail := Split("g" + sha, '.');
    assert ["pr"] + ([Decimal(pr)] + ([Decimal(run)] + tail)) == ["pr", Decimal(pr), Decimal(run)] + tail;
  }

  lemma DecimalSuffix(n: nat)
    ensures SuffixId(Decimal(n))
  {
    DecimalNumber(n);
    SuffixIdExactly(Decimal(n));
    assert Digit(Decimal(n)[0]) && Digit(Decimal(n)[|Decimal(n)| - 1]);
  }

  /** Such a suffix is accepted for every commit written in letters and digits. */
  lemma PreviewAccepted(pr: nat, run: nat, sha: string)
    requires forall i :: 0 <= i < |sha| ==> AlphaNumeric(sha[i])
    ensures Accepted(PreviewSuffix(pr, run, sha))
  {
    PreviewIds(pr, run, sha);
    DecimalSuffix(pr);
    DecimalSuffix(run);
    var last := "g" + sha;
    CutNothing(last, '.');
    assert Split(last, '.') == [last];
    assert SuffixId("pr") && SuffixId(last);
  }

  lemma LaterIds(before: seq<string>, pr: nat, earlier: nat, later: nat, tail: seq<string>, otherTail: seq<string>)
    requires earlier < later
    ensures FirstDifference(IdBelow, before + (["pr", Decimal(pr), Decimal(earlier)] + tail),
                            before + (["pr", Decimal(pr), Decimal(later)] + otherTail))
  {
    DecimalNumber(earlier);
    DecimalNumber(later);
    var a := before + (["pr", Decimal(pr), Decimal(earlier)] + tail);
    var b := before + (["pr", Decimal(pr), Decimal(later)] + otherTail);
    var k := |before| + 2;
    assert a[k] == Decimal(earlier) && b[k] == Decimal(later);
    assert a[..k] == before + ["pr", Decimal(pr)] == b[..k];
    assert DiffersAt(IdBelow, a, b, k);
  }

  /** Later builds of a pull request sort higher, whatever their commits. */
  lemma LaterBuildSortsHigher(base: string, pr: nat, earlier: nat, later: nat, sha: string, otherSha: string)
    requires earlier < later
    requires WithSuffix(base, PreviewSuffix(pr, earlier, sha)).Ok?
      && WithSuffix(base, PreviewSuffix(pr, later, otherSha)).Ok?
    ensures var a := Parse(WithSuffix(base, PreviewSuffix(pr, earlier, sha)).value);
      var b := Parse(WithSuffix(base, PreviewSuffix(pr, later, otherSha)).value);
      a.Some? && b.Some? && Lower(a.value, b.value)
  {
    SuffixedParses(base, PreviewSuffix(pr, earlier, sha));
    SuffixedParses(base, PreviewSuffix(pr, later, otherSha));
    PreviewIds(pr, earlier, sha);
    PreviewIds(pr, later, otherSha);
    var v := Parse(base).value;
    var a := Suffixed(v, Split(PreviewSuffix(pr, earlier, sha), '.'));
    var b := Suffixed(v, Split(PreviewSuffix(pr, later, otherSha), '.'));
    LaterIds(v.prerelease, pr, earlier, later, Split("g" + sha, '.'), Split("g" + otherSha, '.'));
    PrecedenceIsSection11(a, b);
  }

  // ---- what is published --------------------------------------------------------------------

  datatype PublishKind = Preview | Release

  datatype PublishRequest = PublishRequest(
    charts: seq<string>,
    repository: string,
    suffix: Option<string>,
    version: Option<string>,
    kind: Option<PublishKind>,
    dryRun: bool
  )

  /** A path below `/`, by its components. */
  type Path = seq<string>

  function Components(parts: seq<string>): Path {
    if parts == [] then []
    else (if parts[0] == "" || parts[0] == "." then [] else [parts[0]]) + Components(parts[1..])
  }

  /** What `Path.name` answers. */
  function NameOf(path: Path): string { if path == [] then "" else path[|path| - 1] }

  /** What preparing one chart directory finds: the name and version it declares, and whether it packages. */
  datatype ChartFacts = ChartFacts(name: string, version: Option<string>, packages: bool)

  /** The directory of the managed charts, and the chart directories that load. */
  datatype Workspace = Workspace(chartsRoot: Path, chart: Path -> Option<ChartFacts>) {
    /** Joining normalises what was asked for: an absolute path replaces the root, `.` and empty parts vanish. */
    function ChartPath(name: string): Path {
      (if name != "" && name[0] == '/' then [] else chartsRoot) + Components(Split(name, '/'))
    }

    function Facts(name: string): Option<ChartFacts> { chart(ChartPath(name)) }
  }

  /** A push that fails is recorded in its row, which then names no artifact. */
  datatype PublishedRow = PublishedRow(chart: string, version: string, reference: Option<string>)

  datatype PublishOutcome = PublishOutcome(rows: seq<PublishedRow>, kind: PublishKind)

  /** The charts asked for, each once, in the order they were first named. */
  function Once(charts: seq<string>): (r: seq<string>)
    ensures forall c :: c in r <==> c in charts
    ensures forall i, j :: 0 <= i < j < |r| ==> r[i] != r[j]
  {
    if charts == [] then [] else
      var last := charts[|charts| - 1];
      assert charts == charts[..|charts| - 1] + [last];
      var before := Once(charts[..|charts| - 1]);
      if last in before then before else before + [last]
  }

  function KindOf(request: PublishRequest): PublishKind {
    if request.kind.Some? then request.kind.value else if request.suffix.Some? then Preview else Release
  }

  predicate IsOci(repository: string) { "oci://" <= repository }

  predicate RequestOk(request: PublishRequest) {
    && request.charts != [] && IsOci(request.repository)
    && !(request.version.Some? && request.suffix.Some?)
    && (request.version.Some? ==> |Once(request.charts)| == 1 && Parse(request.version.value).Some?)
    && !(KindOf(request) == Release && request.suffix.Some?)
  }

  /** The version to publish for a chart that declares this one. */
  function Target(request: PublishRequest, base: string): Result<string, PublishError> {
    if request.version.Some? then Ok(request.version.value)
    else if request.suffix.Some? then WithSuffix(base, request.suffix.value)
    else if Parse(base).None? then Err(InvalidVersion(base))
    else Ok(base)
  }

  predicate Prepares(request: PublishRequest, w: Workspace, name: string) {
    var facts := w.Facts(name);
    && facts.Some? && facts.value.name == NameOf(w.ChartPath(name))
    && facts.value.version.Some?
    && Target(request, facts.value.version.value).Ok?
    && facts.value.packages
  }

  function VersionFor(request: PublishRequest, w: Workspace, name: string): string
    requires Prepares(request, w, name)
  {
    Target(request, w.Facts(name).value.version.value).value
  }

  /** Python's `s.rstrip("/")`. */
  function StripSlashes(s: string): string {
    if s != "" && s[|s| - 1] == '/' then StripSlashes(s[..|s| - 1]) else s
  }

  function Reference(repository: string, chart: string, version: string): string {
    StripSlashes(repository) + "/" + (chart + [':'] + version)
  }

  /** The row is named by the chart that loaded, however it was asked for. */
  function Planned(request: PublishRequest, w: Workspace, name: string): PublishedRow
    requires Prepares(request, w, name)
  {
    var chart, version := w.Facts(name).value.name, VersionFor(request, w, name);
    PublishedRow(chart, version, Some(Reference(request.repository, chart, version)))
  }

  predicate AllPrepare(request: PublishRequest, w: Workspace, names: seq<string>) {
    forall i :: 0 <= i < |names| ==> Prepares(request, w, names[i])
  }

  function PlannedRows(request: PublishRequest, w: Workspace, names: seq<string>): (r: seq<PublishedRow>)
    requires AllPrepare(request, w, names)
    ensures |r| == |names|
  {
    seq(|names|, i requires 0 <= i < |names| => Planned(request, w, names[i]))
  }

  /**
   Whatever is published has a SemVer version. A release is published as it is asked for or declared; a
   suffix makes a preview, below the declared version if that is a release and above it otherwise.
   */
  lemma PublishedVersion(request: PublishRequest, w: Workspace, name: string)
    requires RequestOk(request) && Prepares(request, w, name)
    ensures Parse(VersionFor(request, w, name)).Some?
    ensures KindOf(request) == Release ==>
      VersionFor(request, w, name)
        == if request.version.Some? then request.version.value else w.Facts(name).value.version.value
    ensures request.suffix.Some? ==>
      var base := Parse(w.Facts(name).value.version.value);
      var published := Parse(VersionFor(request, w, name)).value;
      && KindOf(request) == Preview && base.Some?
      && if base.value.prerelease == [] then Lower(published, base.value) else Lower(base.value, published)
  {
    if request.version.None? && request.suffix.Some? {
      SuffixedParses(w.Facts(name).value.version.value, request.suffix.value);
      SuffixedOrder(w.Facts(name).value.version.value, request.suffix.value);
    }
  }

  lemma TailFree(mark: char, ids: Option<seq<string>>, c: char)
    requires c != '.' && c != mark && !IdChar(c)
    requires ids.Some? ==> Every(AllIdChars, ids.value)
    ensures c !in Tail(mark, ids)
  {
    if ids.Some? {
      forall i | 0 <= i < |ids.value| ensures c !in ids.value[i] {}
      JoinFree(ids.value, c);
    }
  }

  lemma VersionFree(text: string, c: char)
    requires c != '.' && c != '+' && c != '-' && !IdChar(c)
    ensures Parse(text).Some? ==> c !in text
  {
    ReadSound(text);
    var f := Read(text);
    if f.Some? {
      assert forall s :: Number(s) ==> c !in s;
      JoinFree(f.value.core, c);
      TailFree('-', f.value.prerelease, c);
      TailFree('+', f.value.build, c);
    }
  }

  predicate LastColon(text: string, k: nat) {
    k < |text| && text[k] == ':' && forall i :: k < i < |text| ==> text[i] != ':'
  }

  lemma ColonBeforeVersion(chart: string, version: string)
    requires ':' !in version
    ensures var text := chart + [':'] + version;
      LastColon(text, |chart|) && text[..|chart|] == chart && text[|chart| + 1..] == version
  {
  }

  lemma ReferenceTells(chart: string, version: string, other: string, otherVersion: string)
    requires ':' !in version && ':' !in otherVersion
    requires chart + [':'] + version == other + [':'] + otherVersion
    ensures chart == other && version == otherVersion
  {
    ColonBeforeVersion(chart, version);
    ColonBeforeVersion(other, otherVersion);
  }

  /** Two charts asked for are pushed to one reference exactly when they load under one name and version. */
  lemma ReferencesEqual(request: PublishRequest, w: Workspace, name: string, other: string)
    requires RequestOk(request) && Prepares(request, w, name) && Prepares(request, w, other)
    ensures Planned(request, w, name).reference == Planned(request, w, other).reference <==>
      && NameOf(w.ChartPath(name)) == NameOf(w.ChartPath(other))
      && VersionFor(request, w, name) == VersionFor(request, w, other)
  {
    var a, b := VersionFor(request, w, name), VersionFor(request, w, other);
    PublishedVersion(request, w, name);
    PublishedVersion(request, w, other);
    VersionFree(a, ':');
    VersionFree(b, ':');
    var x, y := NameOf(w.ChartPath(name)) + [':'] + a, NameOf(w.ChartPath(other)) + [':'] + b;
    var before := StripSlashes(request.repository) + "/";
    assert (before + x)[|before|..] == x && (before + y)[|before|..] == y;
    if x == y {
      ReferenceTells(NameOf(w.ChartPath(name)), a, NameOf(w.ChartPath(other)), b);
    }
  }

  /** Two spellings of one directory are one chart, pushed to one reference. */
  lemma SamePathSameReference(request: PublishRequest, w: Workspace, name: string, other: string)
    requires Prepares(request, w, name) && w.ChartPath(name) == w.ChartPath(other)
    ensures Prepares(request, w, other) && Planned(request, w, name) == Planned(request, w, other)
  {
  }

  /** A chart asked for by the name of its directory. */
  predicate PlainName(name: string) { name != "" && name != "." && '/' !in name }

  lemma PlainComponents(name: string)
    requires PlainName(name)
    ensures Components([name]) == [name] && Components([name, ""]) == [name]
  {
    assert [name][1..] == [] && [name, ""][1..] == [""] && [""][1..] == [];
    assert Components([]) == [] && Components([""]) == [];
  }

  lemma PlainPath(w: Workspace, name: string)
    requires PlainName(name)
    ensures w.ChartPath(name) == w.chartsRoot + [name]
  {
    assert name[0] in name;
    CutNothing(name, '/');
    assert Split(name, '/') == [name];
    PlainComponents(name);
  }

  lemma SlashedPath(w: Workspace, name: string)
    requires PlainName(name)
    ensures w.ChartPath(name + "/") == w.chartsRoot + [name]
  {
    var slashed := name + "/";
    assert name[0] in name && slashed[0] == name[0];
    assert slashed == name + ['/'] + "";
    CutJoined(name, '/', "");
    CutNothing("", '/');
    assert Split("", '/') == [""];
    assert Split(slashed, '/') == [name] + [""] == [name, ""];
    PlainComponents(name);
  }

  /** When every chart is asked for by the name of its directory, no reference is pushed to twice. */
  lemma ReferencesDistinct(request: PublishRequest, w: Workspace, i: nat, j: nat)
    requires var names := Once(request.charts);
      RequestOk(request) && AllPrepare(request, w, names) && i < j < |names|
    requires forall c :: c in request.charts ==> PlainName(c)
    ensures var rows := PlannedRows(request, w, Once(request.charts));
      rows[i].reference != rows[j].reference
  {
    var names := Once(request.charts);
    assert names[i] in names && names[j] in names;
    PlainPath(w, names[i]);
    PlainPath(w, names[j]);
    ReferencesEqual(request, w, names[i], names[j]);
  }

  /** One chart, asked for in two spellings. */
  function SpelledTwice(name: string): PublishRequest {
    PublishRequest([name, name + "/"], "oci://ghcr.io/owner", None, None, None, false)
  }

  lemma OnceTwo(a: string, b: string)
    requires a != b
    ensures Once([a, b]) == [a, b]
  {
    assert [a, b][..1] == [a] && [a][..0] == [];
    assert Once([a]) == [a];
  }

  lemma SpelledTwiceOk(name: string)
    ensures Once(SpelledTwice(name).charts) == [name, name + "/"] && RequestOk(SpelledTwice(name))
  {
    OnceTwo(name, name + "/");
    assert "oci://ghcr.io/owner"[..6] == "oci://";
  }

  predicate LoadsPlainly(w: Workspace, name: string, version: string) {
    && PlainName(name) && Parse(version).Some?
    && w.chart(w.chartsRoot + [name]) == Some(ChartFacts(name, Some(version), true))
  }

  lemma BothSpellingsPrepare(w: Workspace, name: string, version: string)
    requires LoadsPlainly(w, name, version)
    ensures var request := SpelledTwice(name);
      && Prepares(request, w, name) && Prepares(request, w, name + "/")
      && Planned(request, w, name) == Planned(request, w, name + "/")
  {
    PlainPath(w, name);
    SlashedPath(w, name);
    SamePathSameReference(SpelledTwice(name), w, name, name + "/");
  }

  /** A chart asked for in two spellings counts as two: it is prepared twice, and pushed twice to one reference. */
  lemma PushedTwice(w: Workspace, name: string, version: string)
    requires LoadsPlainly(w, name, version)
    ensures var request := SpelledTwice(name); var names := Once(request.charts);
      && RequestOk(request) && AllPrepare(request, w, names)
      && var rows := PlannedRows(request, w, names);
        |rows| == 2 && rows[0] == rows[1] && rows[0].reference.Some?
  {
    SpelledTwiceOk(name);
    BothSpellingsPrepare(w, name, version);
  }

  // ---- the batch ----------------------------------------------------------------------------

  class Registry {
    var pushed: seq<string>

    method Push(reference: string, succeeds: bool) returns (ok: bool)
      modifies this
      ensures ok == succeeds && pushed == old(pushed) + if succeeds then [reference] else []
    {
      if succeeds {
        pushed := pushed + [reference];
      }
      return succeeds;
    }
  }

  /** The references of the rows whose push succeeds, in order. */
  function PushedOf(rows: seq<PublishedRow>, pushes: nat -> bool): seq<string> {
    if rows == [] then [] else
      var n := |rows| - 1;
      var before := PushedOf(rows[..n], pushes);
      if rows[n].reference.Some? && pushes(n) then before + [rows[n].reference.value] else before
  }

  function AfterPush(row: PublishedRow, pushed: bool): PublishedRow {
    if pushed then row else row.(reference := None)
  }

  function RowsAfter(rows: seq<PublishedRow>, pushes: nat -> bool): (r: seq<PublishedRow>)
    ensures |r| == |rows|
  {
    seq(|rows|, i requires 0 <= i < |rows| => AfterPush(rows[i], pushes(i)))
  }

  method Prepare(request: PublishRequest, w: Workspace, name: string) returns (r: Result<PublishedRow, PublishError>)
    ensures r.Ok? <==> Prepares(request, w, name)
    ensures r.Ok? ==> r.value == Planned(request, w, name)
  {
    var path := w.ChartPath(name);
    var facts := w.chart(path);
    if facts.None? {
      return Err(UnknownChart(name));
    }
    var chart := facts.value;
    if chart.name != NameOf(path) {
      return Err(NameMismatch(name));
    }
    if chart.version.None? {
      return Err(NoVersion(name));
    }
    var version := Target(request, chart.version.value);
    if version.Err? {
      return Err(version.error);
    }
    if !chart.packages {
      return Err(NotPackaged(name));
    }
    var reference := Reference(request.repository, chart.name, version.value);
    return Ok(PublishedRow(chart.name, version.value, Some(reference)));
  }

  method PrepareAll(request: PublishRequest, w: Workspace, names: seq<string>)
    returns (r: Result<seq<PublishedRow>, PublishError>)
    ensures r.Ok? <==> AllPrepare(request, w, names)
    ensures r.Ok? ==> r.value == PlannedRows(request, w, names)
  {
    var rows: seq<PublishedRow> := [];
    for i := 0 to |names|
      invariant AllPrepare(request, w, names[..i])
      invariant rows == PlannedRows(request, w, names[..i])
    {
      assert names[..i + 1] == names[..i] + [names[i]];
      var row := Prepare(request, w, names[i]);
      if row.Err? {
        return Err(row.error);
      }
      rows := rows + [row.value];
    }
    assert names[..|names|] == names;
    return Ok(rows);
  }

  method PushAll(planned: seq<PublishedRow>, pushes: nat -> bool, registry: Registry) returns (rows: seq<PublishedRow>)
    requires forall i :: 0 <= i < |planned| ==> planned[i].reference.Some?
    modifies registry
    ensures rows == RowsAfter(planned, pushes)
    ensures registry.pushed == old(registry.pushed) + PushedOf(planned, pushes)
  {
    rows := [];
    for i := 0 to |planned|
      invariant rows == RowsAfter(planned[..i], pushes)
      invariant registry.pushed == old(registry.pushed) + PushedOf(planned[..i], pushes)
    {
      var ok := registry.Push(planned[i].reference.value, pushes(i));
      assert planned[..i + 1][..i] == planned[..i];
      rows := rows + [if ok then planned[i] else planned[i].(reference := None)];
    }
    assert planned[..|planned|] == planned;
  }

  /**
   Check the request and prepare every chart, then push: a request that makes no sense or one chart that
   cannot be prepared pushes nothing, a failed push stops no other, and a dry run pushes nothing at all.
   */
  method Run(request: PublishRequest, w: Workspace, pushes: nat -> bool, registry: Registry)
    returns (r: Result<PublishOutcome, PublishError>)
    modifies registry
    ensures r.Ok? <==> RequestOk(request) && AllPrepare(request, w, Once(request.charts))
    ensures r.Err? || request.dryRun ==> registry.pushed == old(registry.pushed)
    ensures r.Ok? ==>
      var planned := PlannedRows(request, w, Once(request.charts));
      && r.value.kind == KindOf(request)
      && r.value.rows == (if request.dryRun then planned else RowsAfter(planned, pushes))
      && (!request.dryRun ==> registry.pushed == old(registry.pushed) + PushedOf(planned, pushes))
  {
    var names := Once(request.charts);
    assert request.charts != [] ==> request.charts[0] in names;
    assert names != [] ==> names[0] in request.charts;
    if names == [] {
      return Err(NoCharts);
    }
    if !IsOci(request.repository) {
      return Err(NotOci);
    }
    if request.version.Some? && request.suffix.Some? {
      return Err(VersionAndSuffix);
    }
    if request.version.Some? && |names| != 1 {
      return Err(VersionForMany);
    }
    if request.version.Some? && Parse(request.version.value).None? {
      return Err(InvalidVersion(request.version.value));
    }
    var kind := KindOf(request);
    if kind == Release && request.suffix.Some? {
      return Err(SuffixedRelease);
    }
    var planned := PrepareAll(request, w, names);
    if planned.Err? {
      return Err(planned.error);
    }
    if request.dryRun {
      return Ok(PublishOutcome(planned.value, kind));
    }
    var rows := PushAll(planned.value, pushes, registry);
    return Ok(PublishOutcome(rows, kind));
  }
}
