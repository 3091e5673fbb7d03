/** Bumping a wrapper chart's version and changelog after dependency updates. */
module Finalize {
  import opened AsciiCase
  import opened Wrappers
  import opened Ordering
  import opened SemVer
  import Changelog

  datatype Update = Update(dependency: string, currentVersion: string, newVersion: string,
                           manager: string, datasource: string, updateType: string)

  datatype FinalizeError = NotBare(text: string) | IncompleteUpdate | Diverged(current: Version)

  datatype Bump = Bump(previous: Version, target: Version, major: bool, updates: seq<Update>)

  predicate IsChartDependency(u: Update) {
    LowerCase(u.manager) in {"helmv3", "helm-requirements"} || LowerCase(u.datasource) == "helm"
  }

  predicate IsContainerImage(u: Update) {
    LowerCase(u.datasource) in {"docker", "dockerfile"}
      || LowerCase(u.manager) in {"dockerfile", "docker-compose", "kubernetes"}
  }

  /** Only image and Helm dependency changes move the wrapper version. */
  predicate Qualifies(u: Update) { IsChartDependency(u) || IsContainerImage(u) }

  function Qualifying(updates: seq<Update>): (r: seq<Update>)
    ensures forall u :: u in r <==> u in updates && Qualifies(u)
  {
    if updates == [] then [] else
      assert updates == [updates[0]] + updates[1..];
      (if Qualifies(updates[0]) then [updates[0]] else []) + Qualifying(updates[1..])
  }

  // ---- loose versions -------------------------------------------------------------------------

  predicate DigitsBetween(s: string, i: nat, j: nat)
    requires i <= j <= |s|
  {
    forall k :: i <= k < j ==> Digit(s[k])
  }

  /** A whole run of digits that a dot and another digit follow: the text from `i` up to `j`. */
  predicate Leading(s: string, i: nat, j: nat) {
    i < j && j + 1 < |s| && (i > 0 ==> !Digit(s[i - 1])) && DigitsBetween(s, i, j) && s[j] == '.' && Digit(s[j + 1])
  }

  function RunEnd(s: string, i: nat): (j: nat)
    requires i <= |s|
    ensures i <= j <= |s| && DigitsBetween(s, i, j) && (j < |s| ==> !Digit(s[j]))
    decreases |s| - i
  {
    if i < |s| && Digit(s[i]) then RunEnd(s, i + 1) else i
  }

  function RunValue(s: string, i: nat, j: nat): nat
    requires i <= j <= |s| && DigitsBetween(s, i, j)
  {
    Value(s[i..j])
  }

  /** The number of the first such run: the leftmost match of `(?<!\d)(\d+)(?:\.\d+)`. */
  function LooseMajor(s: string, i: nat): Option<nat>
    requires i <= |s|
    decreases |s| - i
  {
    if i >= |s| then None
    else if !Digit(s[i]) then LooseMajor(s, i + 1)
    else
      var j := RunEnd(s, i);
      if j + 1 < |s| && s[j] == '.' && Digit(s[j + 1]) then Some(RunValue(s, i, j)) else LooseMajor(s, j)
  }

  predicate IsMajor(u: Update) {
    LowerCase(u.updateType) == "major"
    || (var before, after := LooseMajor(u.currentVersion, 0), LooseMajor(u.newVersion, 0);
        before.Some? && after.Some? && before.value < after.value)
  }

  ghost predicate NoLeading(s: string, from: nat, to: nat) {
    forall c: nat, d: nat :: from <= c < to ==> !Leading(s, c, d)
  }

  /** `n` is the number of the first leading run from `i` on. */
  ghost predicate FirstLeading(s: string, i: nat, n: nat) {
    exists a: nat, b: nat :: i <= a && Leading(s, a, b) && n == RunValue(s, a, b) && NoLeading(s, i, a)
  }

  /** From a run's first digit, the run is the only candidate before its end. */
  lemma RunDecides(s: string, i: nat)
    requires i < |s| && Digit(s[i]) && (i > 0 ==> !Digit(s[i - 1]))
    ensures var j := RunEnd(s, i);
      && NoLeading(s, i + 1, j)
      && (forall d: nat :: Leading(s, i, d) ==> d == j)
      && (Leading(s, i, j) <==> j + 1 < |s| && s[j] == '.' && Digit(s[j + 1]))
  {
  }

  /** The scan finds the first leading run from `i` on, and misses none. */
  lemma {:induction false} LooseMajorExactly(s: string, i: nat)
    requires i <= |s| && (0 < i < |s| ==> !Digit(s[i - 1]) || !Digit(s[i]))
    ensures match LooseMajor(s, i)
      case Some(n) => FirstLeading(s, i, n)
      case None => NoLeading(s, i, |s|)
    decreases |s| - i
  {
    if i < |s| && !Digit(s[i]) {
      LooseMajorExactly(s, i + 1);
    } else if i < |s| {
      var j := RunEnd(s, i);
      RunDecides(s, i);
      if !(j + 1 < |s| && s[j] == '.' && Digit(s[j + 1])) {
        LooseMajorExactly(s, j);
        assert NoLeading(s, i, j);
      } else {
        assert NoLeading(s, i, i);
      }
    }
  }

  // ---- the bump -------------------------------------------------------------------------------

  predicate Described(u: Update) { u.dependency != "" && u.currentVersion != "" && u.newVersion != "" }

  /** Where the updates move the baseline; it depends on nothing else. */
  function Target(baseline: Version, updates: seq<Update>): Version {
    if exists i :: 0 <= i < |Qualifying(updates)| && IsMajor(Qualifying(updates)[i])
    then Version(baseline.major + 1, 0, 0, [], [])
    else Version(baseline.major, baseline.minor, baseline.patch + 1, [], [])
  }

  function Decide(baseline: Version, current: Version, updates: seq<Update>): Result<Option<Bump>, FinalizeError> {
    var qualifying := Qualifying(updates);
    if exists i :: 0 <= i < |qualifying| && !Described(qualifying[i]) then Err(IncompleteUpdate)
    else if qualifying == [] then if current == baseline then Ok(None) else Err(Diverged(current))
    else
      var target := Target(baseline, updates);
      if current != baseline && current != target then Err(Diverged(current))
      else Ok(Some(Bump(baseline, target, exists i :: 0 <= i < |qualifying| && IsMajor(qualifying[i]), qualifying)))
  }

  /** A bare x.y.z version. */
  predicate Bare(v: Version) { v.prerelease == [] && v.build == [] }

  /** Nothing about the updates but which there are decides the target, and it is always above the baseline. */
  lemma TargetAboveBaseline(baseline: Version, a: seq<Update>, b: seq<Update>)
    requires Bare(baseline)
    ensures Lower(baseline, Target(baseline, a)) && Bare(Target(baseline, a))
    ensures (forall u :: u in a <==> u in b) ==> Target(baseline, a) == Target(baseline, b)
  {
    if forall u :: u in a <==> u in b {
      SomeMajor(a, b);
      SomeMajor(b, a);
    }
  }

  lemma SomeMajor(a: seq<Update>, b: seq<Update>)
    requires forall u :: u in a ==> u in b
    ensures (exists i :: 0 <= i < |Qualifying(a)| && IsMajor(Qualifying(a)[i]))
      ==> exists i :: 0 <= i < |Qualifying(b)| && IsMajor(Qualifying(b)[i])
  {
    if i :| 0 <= i < |Qualifying(a)| && IsMajor(Qualifying(a)[i]) {
      var u := Qualifying(a)[i];
      assert u in Qualifying(a);
      assert u in Qualifying(b);
      var j :| 0 <= j < |Qualifying(b)| && Qualifying(b)[j] == u;
    }
  }

  /** A decision made at the baseline is made again at its own target. */
  lemma DecidedAgain(baseline: Version, current: Version, updates: seq<Update>)
    requires Decide(baseline, current, updates).Ok? && Decide(baseline, current, updates).value.Some?
    ensures Decide(baseline, Target(baseline, updates), updates) == Decide(baseline, current, updates)
    ensures Decide(baseline, current, updates).value.value.target == Target(baseline, updates)
  {
  }

  // ---- the updates ----------------------------------------------------------------------------

  /** A Chart.yaml dependency list; of two entries with one name the later counts. */
  type Dependencies = seq<(string, string)>

  function VersionIn(dependencies: Dependencies, name: string): Option<string> {
    if dependencies == [] then None
    else
      var last := dependencies[|dependencies| - 1];
      if last.0 == name then Some(last.1) else VersionIn(dependencies[..|dependencies| - 1], name)
  }

  function Names(dependencies: Dependencies): (r: seq<string>)
    ensures |r| == |dependencies|
  {
    seq(|dependencies|, i requires 0 <= i < |dependencies| => dependencies[i].0)
  }

  predicate Moved(before: Dependencies, after: Dependencies, name: string) {
    var x, y := VersionIn(before, name), VersionIn(after, name);
    x.Some? && y.Some? && x != y
  }

  function MovedUpdate(before: Dependencies, after: Dependencies, name: string): Update
    requires Moved(before, after, name)
  {
    Update(name, VersionIn(before, name).value, VersionIn(after, name).value, "helmv3", "helm", "")
  }

  function DiffOf(before: Dependencies, after: Dependencies, names: seq<string>): seq<Update> {
    if names == [] then [] else
      var rest := DiffOf(before, after, names[1..]);
      if Moved(before, after, names[0]) then [MovedUpdate(before, after, names[0])] + rest else rest
  }

  /** The Helm dependency changes that the two documents show. */
  function Diff(before: Dependencies, after: Dependencies): seq<Update> {
    DiffOf(before, after, SortedDistinct(Names(before)))
  }

  lemma {:induction false} Named(dependencies: Dependencies, name: string)
    ensures VersionIn(dependencies, name).Some? <==> name in Names(dependencies)
  {
    if dependencies != [] {
      var front, last := dependencies[..|dependencies| - 1], dependencies[|dependencies| - 1];
      Named(front, name);
      assert Names(dependencies) == Names(front) + [last.0];
    }
  }

  lemma {:induction false} DiffMembers(before: Dependencies, after: Dependencies, names: seq<string>, u: Update)
    ensures u in DiffOf(before, after, names) <==>
      u.dependency in names && Moved(before, after, u.dependency) && u == MovedUpdate(before, after, u.dependency)
  {
    if names != [] {
      DiffMembers(before, after, names[1..], u);
      assert names == [names[0]] + names[1..];
    }
  }

  /**
   An update is inferred for exactly the dependencies in both documents whose version differs, and it
   always qualifies.
   */
  lemma DiffExactly(before: Dependencies, after: Dependencies, u: Update)
    ensures u in Diff(before, after)
      <==> Moved(before, after, u.dependency) && u == MovedUpdate(before, after, u.dependency)
    ensures u in Diff(before, after) ==> Qualifies(u)
  {
    Named(before, u.dependency);
    DiffMembers(before, after, SortedDistinct(Names(before)), u);
    if u in Diff(before, after) {
      assert LowerCase("helm") == "helm";
    }
  }

  /** Renovate's updates, each once; without any, those the documents show. */
  function Once(updates: seq<Update>): seq<Update> {
    if updates == [] then [] else
      var front := Once(updates[..|updates| - 1]);
      if updates[|updates| - 1] in front then front else front + [updates[|updates| - 1]]
  }

  function UpdatesOf(data: seq<Update>, before: Dependencies, after: Dependencies): seq<Update> {
    if Once(data) == [] then Diff(before, after) else Once(data)
  }

  // ---- the files ------------------------------------------------------------------------------

  /** Reading a text file turns every line end into a line feed. */
  function ReadText(raw: string): string {
    if raw == "" then ""
    else if raw[0] == '\r' then "\n" + ReadText(if |raw| > 1 && raw[1] == '\n' then raw[2..] else raw[1..])
    else [raw[0]] + ReadText(raw[1..])
  }

  predicate NoReturn(s: string) { '\r' !in s }

  lemma {:induction false} ReadAgain(raw: string)
    ensures NoReturn(ReadText(raw))
    ensures NoReturn(raw) ==> ReadText(raw) == raw
    decreases |raw|
  {
    if raw != "" {
      if raw[0] == '\r' {
        ReadAgain(if |raw| > 1 && raw[1] == '\n' then raw[2..] else raw[1..]);
      } else {
        ReadAgain(raw[1..]);
        assert raw == [raw[0]] + raw[1..];
      }
    }
  }

  function Key(u: Update): seq<string> {
    [LowerCase(u.datasource), LowerCase(u.manager), LowerCase(u.dependency), u.newVersion]
  }

  predicate Before(a: Update, b: Update) { !StringsLess(Key(b), Key(a)) }

  function Bullet(u: Update): string {
    "- " + (u.dependency + ": " + u.currentVersion + " -> " + u.newVersion) + "\n"
  }

  function Bullets(updates: seq<Update>): (r: seq<string>)
    ensures |r| == |updates|
  {
    seq(|updates|, i requires 0 <= i < |updates| => Bullet(updates[i]))
  }

  function Heading(v: Version): string { "## " + Print(v) }

  /** The changelog section of one version, line by line. */
  function Entry(v: Version, updates: seq<Update>): seq<string> {
    [Heading(v) + "\n", "\n"] + Bullets(Sort(Before, updates)) + ["\n"]
  }

  /** Update fields that stay on their line. */
  predicate OneLine(u: Update) {
    Changelog.NoBreak(u.dependency) && Changelog.NoBreak(u.currentVersion) && Changelog.NoBreak(u.newVersion)
  }

  ghost predicate OneLiners(updates: seq<Update>) { forall u :: u in updates ==> OneLine(u) }

  lemma NumberText(n: nat)
    ensures Decimal(n) != "" && Changelog.NoBreak(Decimal(n)) && !Changelog.Space(Decimal(n)[|Decimal(n)| - 1])
  {
  }

  lemma HeadingTitled(v: Version)
    requires Bare(v)
    ensures Changelog.Titled(Heading(v))
  {
    NumberText(v.major);
    NumberText(v.minor);
    NumberText(v.patch);
    var text := Decimal(v.major) + "." + Decimal(v.minor) + "." + Decimal(v.patch);
    assert Print(v) == text + "" + "" == text;
    assert Changelog.NoBreak(text) && Changelog.NoBreak("## ");
    var h := "## " + text;
    assert h[..3] == "## ";
    assert h[|h| - 1] == Decimal(v.patch)[|Decimal(v.patch)| - 1];
  }

  lemma BulletLine(u: Update)
    requires OneLine(u)
    ensures Changelog.Complete(Bullet(u)) && !Changelog.IsHeading(Bullet(u))
  {
    var b := Bullet(u);
    var text := "- " + (u.dependency + ": " + u.currentVersion + " -> " + u.newVersion);
    assert b[..|b| - 1] == text;
    assert Changelog.NoBreak("- ") && Changelog.NoBreak(": ") && Changelog.NoBreak(" -> ");
    assert b[..2][0] == '-';
  }

  lemma EntryIsOneSection(v: Version, updates: seq<Update>)
    requires Bare(v) && OneLiners(updates)
    ensures Changelog.EntryLines(Heading(v), Entry(v, updates))
  {
    HeadingTitled(v);
    Changelog.HeadingLine(Heading(v));
    var sorted := Sort(Before, updates);
    forall u | u in sorted ensures OneLine(u) {
      SortMembers(Before, updates, u);
    }
    BulletLines(sorted);
    var bullets, entry := Bullets(sorted), Entry(v, updates);
    assert Changelog.Complete("\n") && !Changelog.IsHeading("\n");
    forall i | 1 <= i < |entry| ensures Changelog.Complete(entry[i]) && !Changelog.IsHeading(entry[i]) {
      assert entry[i] == "\n" || entry[i] == bullets[i - 2];
    }
  }

  lemma BulletLines(updates: seq<Update>)
    requires OneLiners(updates)
    ensures forall i :: 0 <= i < |updates| ==>
      Changelog.Complete(Bullets(updates)[i]) && !Changelog.IsHeading(Bullets(updates)[i])
  {
    forall i | 0 <= i < |updates|
      ensures Changelog.Complete(Bullets(updates)[i]) && !Changelog.IsHeading(Bullets(updates)[i])
    {
      BulletLine(updates[i]);
    }
  }

  /** The two files of one chart directory: Chart.yaml's version, and the changelog if there is one. */
  datatype Files = Files(version: string, changelog: Option<string>)

  function ChangelogText(files: Files): string {
    if files.changelog.None? then "" else ReadText(files.changelog.value)
  }

  datatype Outcome = Outcome(files: Files, version: string, changed: bool)

  function WrapperVersion(text: string): Option<Version> {
    var v := Parse(text);
    if v.Some? && Bare(v.value) then v else None
  }

  function Rewritten(old_: string, bump: Bump): string {
    Changelog.Apply(old_, Heading(bump.target), Changelog.Concat(Entry(bump.target, bump.updates)))
  }

  /** Write the target version and its changelog section, each only where it changes something. */
  function Write(files: Files, current: Version, bump: Bump): Outcome {
    var old_ := ChangelogText(files);
    var new_ := Rewritten(old_, bump);
    var moved := current != bump.target;
    Outcome(Files(if moved then Print(bump.target) else files.version,
                  if new_ != old_ then Some(new_) else files.changelog),
            Print(bump.target), moved || new_ != old_)
  }

  /** The whole of one finalize run, on the text of the files. */
  function Finalized(baseline: string, updates: seq<Update>, files: Files): Result<Outcome, FinalizeError> {
    var base, current := WrapperVersion(baseline), WrapperVersion(files.version);
    if base.None? then Err(NotBare(baseline))
    else if current.None? then Err(NotBare(files.version))
    else
      var decided := Decide(base.value, current.value, updates);
      if decided.Err? then Err(decided.error)
      else if decided.value.None? then Ok(Outcome(files, Print(current.value), false))
      else Ok(Write(files, current.value, decided.value.value))
  }

  class ChartDirectory {
    var files: Files

    constructor (files: Files)
      ensures this.files == files
    {
      this.files := files;
    }

    /** Decide, then write only the files whose text changes. */
    method Finalize(baseline: string, data: seq<Update>, before: Dependencies, after: Dependencies)
      returns (r: Result<(string, bool), FinalizeError>)
      modifies this
      ensures match Finalized(baseline, UpdatesOf(data, before, after), old(files))
        case Err(e) => r == Err(e) && files == old(files)
        case Ok(outcome) => r == Ok((outcome.version, outcome.changed)) && files == outcome.files
      ensures r.Ok? && !r.value.1 ==> files == old(files)
    {
      var base, current := WrapperVersion(baseline), WrapperVersion(files.version);
      if base.None? {
        return Err(NotBare(baseline));
      }
      if current.None? {
        return Err(NotBare(files.version));
      }
      var updates := UpdatesOf(data, before, after);
      var decided := Decide(base.value, current.value, updates);
      if decided.Err? {
        return Err(decided.error);
      }
      if decided.value.None? {
        return Ok((Print(current.value), false));
      }
      var bump := decided.value.value;
      var old_ := ChangelogText(files);
      var new_ := Rewritten(old_, bump);
      var chartChanged := current.value != bump.target;
      if chartChanged {
        files := Files(Print(bump.target), files.changelog);
      }
      if new_ != old_ {
        files := Files(files.version, Some(new_));
      }
      return Ok((Print(bump.target), chartChanged || new_ != old_));
    }
  }

  lemma PlainText(old_: string, heading: string, entry: string)
    requires NoReturn(old_) && NoReturn(entry)
    ensures NoReturn(Changelog.Apply(old_, heading, entry))
  {
    Changelog.OtherSectionsKept(old_, heading, entry);
  }

  lemma {:induction false} ConcatPlain(lines: seq<string>)
    requires forall i :: 0 <= i < |lines| ==> NoReturn(lines[i])
    ensures NoReturn(Changelog.Concat(lines))
  {
    if lines != [] {
      ConcatPlain(lines[1..]);
    }
  }

  lemma EntryPlain(v: Version, updates: seq<Update>)
    requires Bare(v) && OneLiners(updates)
    ensures NoReturn(Changelog.Concat(Entry(v, updates)))
  {
    EntryIsOneSection(v, updates);
    var entry := Entry(v, updates);
    forall i | 0 <= i < |entry| ensures NoReturn(entry[i]) {
      LinePlain(entry[i]);
      assert entry[i][|entry[i]| - 1] == '\n';
    }
    ConcatPlain(entry);
  }

  lemma LinePlain(line: string)
    requires Changelog.Complete(line)
    ensures line[|line| - 1] == '\n' ==> NoReturn(line)
  {
  }

  /** Writing again what was just written. */
  lemma SecondWrite(files: Files, current: Version, bump: Bump)
    requires Bare(bump.target) && OneLiners(bump.updates) && files.version == Print(current)
    ensures var first := Write(files, current, bump);
      var again := Write(first.files, bump.target, bump);
      && first.files.version == Print(bump.target) == again.files.version
      && (again.changed <==> !Changelog.Stable(ChangelogText(files), Heading(bump.target)))
      && (!again.changed ==> again.files == first.files)
  {
    var old_ := ChangelogText(files);
    var once := Rewritten(old_, bump);
    if files.changelog.Some? {
      ReadAgain(files.changelog.value);
    }
    EntryPlain(bump.target, bump.updates);
    PlainText(old_, Heading(bump.target), Changelog.Concat(Entry(bump.target, bump.updates)));
    ReadAgain(once);
    assert ChangelogText(Write(files, current, bump).files) == once;
    HeadingTitled(bump.target);
    EntryIsOneSection(bump.target, bump.updates);
    Changelog.RewriteIsFixpoint(old_, Heading(bump.target), Entry(bump.target, bump.updates));
  }

  /**
   Finalizing again: the same baseline and updates choose the same version, and the second run
   changes no file exactly when the changelog held the section already, was empty, or began with a section.
   */
  lemma SecondRun(baseline: string, updates: seq<Update>, files: Files)
    requires OneLiners(updates)
    ensures match Finalized(baseline, updates, files)
      case Err(_) => true
      case Ok(first) => Settles(updates, files, first, Finalized(baseline, updates, first.files))
  {
    var base, current := WrapperVersion(baseline), WrapperVersion(files.version);
    if base.Some? && current.Some? && Decide(base.value, current.value, updates).Ok? {
      var decided := Decide(base.value, current.value, updates).value;
      if decided.Some? {
        RunWrites(baseline, updates, files, base.value, current.value, decided.value);
        BumpSettles(baseline, updates, files, base.value, current.value, decided.value);
      }
    }
  }

  lemma BumpSettles(baseline: string, updates: seq<Update>, files: Files, base: Version, current: Version, bump: Bump)
    requires WrapperVersion(baseline) == Some(base) && WrapperVersion(files.version) == Some(current)
    requires Decide(base, current, updates) == Ok(Some(bump)) && OneLiners(updates)
    ensures var first := Write(files, current, bump);
      Settles(updates, files, first, Finalized(baseline, updates, first.files))
  {
    var first := Write(files, current, bump);
    PrintParse(files.version);
    DecidesBare(base, current, updates);
    SecondWrite(files, current, bump);
    DecidedAgain(base, current, updates);
    TargetReparsed(bump.target);
    RunWrites(baseline, updates, first.files, base, bump.target, bump);
  }

  /** `again` is the outcome of running once more on what `first` left of `files`. */
  ghost predicate Settles(updates: seq<Update>, files: Files, first: Outcome, again: Result<Outcome, FinalizeError>) {
    && again.Ok? && again.value.version == first.version && again.value.files.version == first.files.version
    && (!again.value.changed
      <==> Qualifying(updates) == [] || Changelog.Stable(ChangelogText(files), "## " + first.version))
    && (!again.value.changed ==> again.value.files == first.files)
  }

  lemma DecidesBare(base: Version, current: Version, updates: seq<Update>)
    requires Bare(base) && Decide(base, current, updates).Ok? && Decide(base, current, updates).value.Some?
    ensures var bump := Decide(base, current, updates).value.value;
      Bare(bump.target) && bump.updates == Qualifying(updates) && Qualifying(updates) != []
  {
    TargetAboveBaseline(base, updates, updates);
  }

  lemma TargetReparsed(v: Version)
    requires Bare(v)
    ensures WrapperVersion(Print(v)) == Some(v)
  {
    ParsePrint(v);
  }

  lemma RunWrites(baseline: string, updates: seq<Update>, files: Files, base: Version, current: Version, bump: Bump)
    requires WrapperVersion(baseline) == Some(base) && WrapperVersion(files.version) == Some(current)
    requires Decide(base, current, updates) == Ok(Some(bump))
    ensures Finalized(baseline, updates, files) == Ok(Write(files, current, bump))
  {
  }
}
