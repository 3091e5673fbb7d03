/**
 Derived CRD schemas: reuse what is cached under a chart's current fingerprint, render the
 rest, and publish one generation of schema files.
 */
module GeneratedCache {
  import opened AsciiCase
  import opened Wrappers
  import opened CrdSchemas
  import JsonSchema

  /**
   What a chart's fingerprint digests: the Helm binary and chart-manager's own sources, what the
   chart's authors wrote, and what Helm materialised from its dependencies.
   */
  datatype Content = Content(tools: nat, authored: nat, dependencies: nat)

  /**
   What does not change during a preparation: which contents can be fingerprinted at all, the
   environments that authored bytes declare, and the schemas that rendering the given contents in the
   given environments yields (None when the chart contradicts itself).
   */
  datatype World = World(
    cacheable: Content -> bool,
    environments: nat -> seq<string>,
    generate: (seq<string>, seq<Content>) -> Option<seq<Artifact>>
  )

  /**
   One target during one preparation, at the moments the code looks at its directory: when it
   is loaded, when its fingerprint and its authored fingerprint are taken, when each render
   that succeeds reads it, and when it is fingerprinted again.
   */
  datatype Trace = Trace(
    loaded: Content,
    before: Content,
    authoredAt: Content,
    succeeded: seq<string>,
    rendered: seq<Content>,
    after: Content
  )

  datatype Payload = Items(items: seq<Artifact>) | Garbage(bytes: nat)

  /** A cache file. The digest is taken to be injective, so the checksum is what it digests. */
  datatype Entry = Entry(checksum: Payload, payload: Payload)

  /** The fingerprint is an injective digest of the chart's content, so it is that content. */
  type Cache = map<Content, Entry>

  function LoadCached(cache: Cache, content: Content): Option<seq<Artifact>> {
    if content in cache && cache[content].checksum == cache[content].payload && cache[content].payload.Items?
    then Some(cache[content].payload.items) else None
  }

  predicate Failed(world: World, t: Trace) {
    t.succeeded != world.environments(t.loaded.authored)
  }

  /** What the cache offers before anything is rendered. */
  function Hit(world: World, cache: Cache, t: Trace): Option<seq<Artifact>> {
    if world.cacheable(t.before) then LoadCached(cache, t.before) else None
  }

  function Schemas(world: World, cache: Cache, t: Trace): Option<seq<Artifact>> {
    if Hit(world, cache, t).Some? then Hit(world, cache, t) else world.generate(t.succeeded, t.rendered)
  }

  /** The second look agrees with the first: the whole chart, or what its authors wrote of it. */
  predicate Stable(world: World, t: Trace) {
    if world.cacheable(t.before) then world.cacheable(t.after) && t.before == t.after
    else t.authoredAt.authored == t.after.authored
  }

  predicate Written(world: World, cache: Cache, t: Trace) {
    Hit(world, cache, t).None? && world.cacheable(t.after) && Stable(world, t) && !Failed(world, t)
  }

  /** Some target to render contradicts itself. */
  ghost predicate Contradiction(world: World, cache: Cache, traces: seq<Trace>) {
    exists t :: t in traces && Schemas(world, cache, t).None?
  }

  /** Writing back what was rendered; `hits` is the cache that was consulted. */
  function WriteBack(world: World, hits: Cache, cache: Cache, traces: seq<Trace>): Cache
  {
    if traces == [] then cache else
      var t := traces[|traces| - 1];
      var rest := WriteBack(world, hits, cache, traces[..|traces| - 1]);
      if Written(world, hits, t) && Schemas(world, hits, t).Some? then
        var items := Items(Schemas(world, hits, t).value);
        rest[t.after := Entry(items, items)]
      else rest
  }

  ghost function CacheAfter(world: World, cache: Cache, traces: seq<Trace>): Cache {
    if Contradiction(world, cache, traces) then cache else WriteBack(world, cache, cache, traces)
  }

  // ---- merging and publishing ---------------------------------------------------------

  function Offered(world: World, cache: Cache, traces: seq<Trace>): seq<Artifact> {
    if traces == [] then [] else
      var t := traces[|traces| - 1];
      var own := Schemas(world, cache, t);
      Offered(world, cache, traces[..|traces| - 1]) + if own.Some? then own.value else []
  }

  ghost predicate Clashing(items: seq<Artifact>) {
    exists a, b :: a in items && b in items && Disagree(a, b)
  }

  predicate HasKey(items: seq<Artifact>, key: Key) {
    exists i :: 0 <= i < |items| && items[i].key == key
  }

  /** The first artifact of each key, in order of appearance, as a Python dict keeps them. */
  function Distinct(items: seq<Artifact>): seq<Artifact> {
    if items == [] then [] else
      var last := items[|items| - 1];
      var rest := Distinct(items[..|items| - 1]);
      if HasKey(rest, last.key) then rest else rest + [last]
  }

  lemma {:induction false} DistinctFrom(items: seq<Artifact>, a: Artifact)
    requires a in Distinct(items)
    ensures a in items
  {
    var last, front := items[|items| - 1], items[..|items| - 1];
    if a in Distinct(front) {
      DistinctFrom(front, a);
    }
    assert items == front + [last];
  }

  lemma {:induction false} DistinctCovers(items: seq<Artifact>, a: Artifact)
    requires a in items
    ensures HasKey(Distinct(items), a.key)
  {
    var last, front := items[|items| - 1], items[..|items| - 1];
    assert items == front + [last];
    if a in front {
      DistinctCovers(front, a);
      var i :| 0 <= i < |Distinct(front)| && Distinct(front)[i].key == a.key;
      assert Distinct(items)[i] == Distinct(front)[i];
    } else if !HasKey(Distinct(front), last.key) {
      assert Distinct(items)[|Distinct(front)|] == last;
    }
  }

  function FileName(key: Key): string {
    if |key| == 3 then key[0] + "/" + LowerCase(key[2]) + "_" + key[1] + ".json" else ""
  }

  type Files = map<string, Artifact>

  function FilesOf(items: seq<Artifact>): Files {
    if items == [] then map[] else
      var last := items[|items| - 1];
      FilesOf(items[..|items| - 1])[FileName(last.key) := last]
  }

  datatype PrepareError = Contradictory | Clash(key: Key)

  /** The published files, or why nothing is published. */
  ghost function Published(world: World, cache: Cache, traces: seq<Trace>): Result<Files, PrepareError> {
    if Contradiction(world, cache, traces) then Err(Contradictory) else
      var merged := Merged(Offered(world, cache, traces));
      if merged.Err? then Err(merged.error) else Ok(FilesOf(merged.value))
  }

  /** The error names the first artifact that contradicts an earlier one. */
  ghost function FirstClash(items: seq<Artifact>): PrepareError
    requires Clashing(items)
  {
    var last := items[|items| - 1];
    assert items == items[..|items| - 1] + [last];
    if Clashing(items[..|items| - 1]) then FirstClash(items[..|items| - 1]) else Clash(last.key)
  }

  class DerivedSchemas {
    var charts: Cache
    var generations: map<Files, Files>

    constructor ()
      ensures charts == map[] && generations == map[]
    {
      charts := map[];
      generations := map[];
    }

    /**
     One preparation: consult the cache, render the misses, write back what stayed stable,
     merge every target's schemas and publish them. A generation is named by an injective
     digest of its files.
     */
    method Prepare(world: World, traces: seq<Trace>) returns (r: Result<Files, PrepareError>)
      modifies this
      ensures charts == CacheAfter(world, old(charts), traces)
      ensures r == Published(world, old(charts), traces)
      ensures r.Ok? && r.value != map[] ==> r.value in generations && generations[r.value] == r.value
      ensures forall g :: g in old(generations) && !(r.Ok? && g == r.value) ==>
        g in generations && generations[g] == old(generations)[g]
    {
      ghost var cache := charts;
      var prepared: seq<seq<Artifact>> := [];
      for i := 0 to |traces|
        invariant charts == cache && generations == old(generations)
        invariant |prepared| == i
        invariant forall j :: 0 <= j < i ==> Schemas(world, cache, traces[j]) == Some(prepared[j])
      {
        var t := traces[i];
        assert t in traces;
        var schemas := if world.cacheable(t.before) then LoadCached(charts, t.before) else None;
        if schemas.None? {
          schemas := world.generate(t.succeeded, t.rendered);
        }
        if schemas.None? {
          return Err(Contradictory);
        }
        prepared := prepared + [schemas.value];
      }
      assert !Contradiction(world, cache, traces);
      WriteCharts(world, cache, traces, prepared);
      var merged := MergeTargets(world, cache, traces, prepared);
      if merged.Err? {
        return Err(merged.error);
      }
      var files := FilesOf(merged.value);
      if merged.value != [] {
        var done := Publish(files, None);
      }
      return Ok(files);
    }

    method WriteCharts(world: World, ghost cache: Cache, traces: seq<Trace>, prepared: seq<seq<Artifact>>)
      requires charts == cache && |prepared| == |traces|
      requires forall j :: 0 <= j < |traces| ==> Schemas(world, cache, traces[j]) == Some(prepared[j])
      modifies this`charts
      ensures charts == WriteBack(world, cache, cache, traces)
    {
      var consulted := charts;
      for i := 0 to |traces|
        invariant charts == WriteBack(world, cache, cache, traces[..i])
      {
        var t := traces[i];
        assert traces[..i + 1][..i] == traces[..i];
        var hit := if world.cacheable(t.before) then LoadCached(consulted, t.before) else None;
        var stable :=
          if world.cacheable(t.before) then world.cacheable(t.after) && t.before == t.after
          else t.authoredAt.authored == t.after.authored;
        if hit.None? && world.cacheable(t.after) && stable && t.succeeded == world.environments(t.loaded.authored) {
          charts := charts[t.after := Entry(Items(prepared[i]), Items(prepared[i]))];
        }
      }
      assert traces[..|traces|] == traces;
    }

    /**
     Stage the files, remove what is in the way, rename: unless the process dies on the way. A complete
     generation is never touched, no other generation is, and a publish that ends leaves this one
     complete whatever an earlier, interrupted one left in its place.
     */
    method Publish(files: Files, crash: Option<Interruption>) returns (done: bool)
      modifies this`generations
      ensures done <==> crash.None? || Complete(old(generations), files)
      ensures done ==> generations == old(generations)[files := files]
      ensures Complete(old(generations), files) ==> generations == old(generations)
      ensures !done ==> generations == match crash.value
        case WhileStaging => old(generations)
        case WhileRemoving(gone) => Without(old(generations), files, gone)
        case BeforeRename => old(generations) - {files}
    {
      if files in generations && generations[files] == files {
        assert generations[files := files] == generations;
        return true;
      }
      if crash == Some(WhileStaging) {
        return false;
      }
      if crash.Some? && crash.value.WhileRemoving? {
        generations := Without(generations, files, crash.value.gone);
        return false;
      }
      ghost var before := generations;
      generations := generations - {files};
      if crash == Some(BeforeRename) {
        return false;
      }
      generations := generations[files := files];
      assert generations == before[files := files];
      return true;
    }
  }

  /** Where a publishing process can die: `gone` is what it had removed of the old directory. */
  datatype Interruption = WhileStaging | WhileRemoving(gone: set<string>) | BeforeRename

  predicate Complete(generations: map<Files, Files>, files: Files) {
    files in generations && generations[files] == files
  }

  function Without(generations: map<Files, Files>, at: Files, gone: set<string>): map<Files, Files> {
    if at in generations then generations[at := generations[at] - gone] else generations
  }

  /** Fold every target's schemas into one dict, stopping at the first contradiction. */
  method MergeTargets(world: World, ghost cache: Cache, traces: seq<Trace>, prepared: seq<seq<Artifact>>)
    returns (r: Result<seq<Artifact>, PrepareError>)
    requires |prepared| == |traces|
    requires forall j :: 0 <= j < |traces| ==> Schemas(world, cache, traces[j]) == Some(prepared[j])
    ensures r == Merged(Offered(world, cache, traces))
  {
    var byKey: seq<Artifact> := [];
    for i := 0 to |traces|
      invariant Merged(Offered(world, cache, traces[..i])) == Ok(byKey)
    {
      ghost var offered := Offered(world, cache, traces[..i]);
      OfferedNext(world, cache, traces, i);
      r := AddTarget(byKey, prepared[i], offered);
      if r.Err? {
        ErrorPersists(world, cache, traces, i + 1);
        return;
      }
      byKey := r.value;
    }
    assert traces[..|traces|] == traces;
    return Ok(byKey);
  }

  lemma OfferedNext(world: World, cache: Cache, traces: seq<Trace>, i: nat)
    requires i < |traces| && Schemas(world, cache, traces[i]).Some?
    ensures Offered(world, cache, traces[..i + 1])
         == Offered(world, cache, traces[..i]) + Schemas(world, cache, traces[i]).value
  {
    assert traces[..i + 1][..i] == traces[..i];
  }

  /** One target's schemas against everything the earlier targets offered. */
  method AddTarget(byKey: seq<Artifact>, own: seq<Artifact>, ghost offered: seq<Artifact>)
    returns (r: Result<seq<Artifact>, PrepareError>)
    requires Merged(offered) == Ok(byKey)
    ensures r == Merged(offered + own)
  {
    var merged := byKey;
    assert offered + own[..0] == offered;
    for j := 0 to |own|
      invariant Merged(offered + own[..j]) == Ok(merged)
    {
      var a := own[j];
      var same := FindKey(merged, a.key);
      MergeStep(offered + own[..j], a, merged, same);
      StepPrefix(offered, own, j);
      if same.Some? && same.value.content != a.content {
        return Err(Clash(a.key));
      }
      merged := if same.None? then merged + [a] else merged;
    }
    assert own[..|own|] == own;
    return Ok(merged);
  }

  lemma StepPrefix(offered: seq<Artifact>, own: seq<Artifact>, j: nat)
    requires j < |own|
    ensures offered + own[..j] + [own[j]] == offered + own[..j + 1]
    ensures Merged(offered + own[..j + 1]).Err? ==> Merged(offered + own) == Merged(offered + own[..j + 1])
  {
    var seen := offered + own[..j + 1];
    assert (offered + own)[..|seen|] == seen;
    if Merged(seen).Err? {
      ErrorKept(offered + own, |seen|);
    }
  }

  /** One more schema: it joins, repeats what is there, or contradicts it. */
  lemma MergeStep(seen: seq<Artifact>, a: Artifact, merged: seq<Artifact>, same: Option<Artifact>)
    requires Merged(seen) == Ok(merged)
    requires same.Some? ==> same.value in merged && same.value.key == a.key
    requires same.None? <==> !HasKey(merged, a.key)
    requires same.Some? && SingleKeys(merged) ==> forall b :: b in merged && b.key == a.key ==> b == same.value
    ensures Merged(seen + [a]) ==
      if same.None? then Ok(merged + [a])
      else if same.value.content != a.content then Err(Clash(a.key)) else Ok(merged)
  {
    assert (seen + [a])[..|seen|] == seen;
    if same.Some? && same.value.content != a.content {
      NewClash(seen, a, same.value);
    } else {
      DistinctSingle(seen);
      forall b | b in merged && b.key == a.key ensures b.content == a.content {
        assert exists i :: 0 <= i < |merged| && merged[i] == b;
      }
      NoNewClash(seen, a);
    }
  }

  /** What merging a list of schemas gives. */
  ghost function Merged(items: seq<Artifact>): Result<seq<Artifact>, PrepareError> {
    if Clashing(items) then Err(FirstClash(items)) else Ok(Distinct(items))
  }

  method FindKey(items: seq<Artifact>, key: Key) returns (r: Option<Artifact>)
    ensures r.Some? ==> r.value in items && r.value.key == key
    ensures r.None? <==> !HasKey(items, key)
    ensures r.Some? && SingleKeys(items) ==> forall b :: b in items && b.key == key ==> b == r.value
  {
    for i := 0 to |items|
      invariant !HasKey(items[..i], key)
    {
      if items[i].key == key {
        return Some(items[i]);
      }
    }
    assert items[..|items|] == items;
    return None;
  }

  ghost predicate SingleKeys(items: seq<Artifact>) {
    forall i, j :: 0 <= i < j < |items| ==> items[i].key != items[j].key
  }

  lemma {:induction false} DistinctSingle(items: seq<Artifact>)
    ensures SingleKeys(Distinct(items))
  {
    if items != [] {
      DistinctSingle(items[..|items| - 1]);
    }
  }

  lemma NewClash(seen: seq<Artifact>, a: Artifact, b: Artifact)
    requires !Clashing(seen) && b in Distinct(seen) && Disagree(a, b)
    ensures Merged(seen + [a]) == Err(Clash(a.key))
  {
  }

  lemma NoNewClash(seen: seq<Artifact>, a: Artifact)
    requires !Clashing(seen)
    requires forall b :: b in Distinct(seen) && b.key == a.key ==> b.content == a.content
    ensures !Clashing(seen + [a])
  {
    forall b | b in seen && b.key == a.key ensures b.content == a.content {
      DistinctCovers(seen, b);
      var i :| 0 <= i < |Distinct(seen)| && Distinct(seen)[i].key == b.key;
      var c := Distinct(seen)[i];
      DistinctFrom(seen, c);
      assert !Disagree(b, c);
    }
  }

  lemma {:induction false} ClashPrefix(items: seq<Artifact>, n: nat)
    requires n <= |items| && Clashing(items[..n])
    ensures Clashing(items) && FirstClash(items) == FirstClash(items[..n])
    decreases |items| - n
  {
    if n == |items| {
      assert items[..n] == items;
    } else {
      var longer := items[..n + 1];
      assert longer[..n] == items[..n];
      var a, b :| a in items[..n] && b in items[..n] && Disagree(a, b);
      assert a in longer && b in longer;
      ClashPrefix(items, n + 1);
    }
  }

  lemma {:induction false} OfferedPrefix(world: World, cache: Cache, traces: seq<Trace>, i: nat)
    requires i <= |traces|
    ensures Offered(world, cache, traces[..i]) <= Offered(world, cache, traces)
    decreases |traces|
  {
    if i == |traces| {
      assert traces[..i] == traces;
    } else {
      var shorter := traces[..|traces| - 1];
      assert shorter[..i] == traces[..i];
      OfferedPrefix(world, cache, shorter, i);
    }
  }

  lemma ErrorKept(items: seq<Artifact>, n: nat)
    requires n <= |items| && Merged(items[..n]).Err?
    ensures Merged(items) == Merged(items[..n])
  {
    ClashPrefix(items, n);
  }

  lemma ErrorPersists(world: World, cache: Cache, traces: seq<Trace>, n: nat)
    requires n <= |traces| && Merged(Offered(world, cache, traces[..n])).Err?
    ensures Merged(Offered(world, cache, traces)) == Merged(Offered(world, cache, traces[..n]))
  {
    var offered, seen := Offered(world, cache, traces), Offered(world, cache, traces[..n]);
    OfferedPrefix(world, cache, traces, n);
    assert offered[..|seen|] == seen;
    ErrorKept(offered, |seen|);
  }

  // ---- the cache agrees with rendering afresh -----------------------------------------

  /** What rendering a chart in every environment at this content yields. */
  function Render(world: World, c: Content): Option<seq<Artifact>> {
    var environments := world.environments(c.authored);
    world.generate(environments, seq(|environments|, _ => c))
  }

  /** Every entry with a good checksum holds what rendering at its fingerprint yields. */
  ghost predicate CacheSound(world: World, cache: Cache) {
    forall c :: c in cache && LoadCached(cache, c).Some? ==> LoadCached(cache, c) == Render(world, c)
  }

  /** An edit never brings back an earlier state. */
  ghost predicate NeverRestores(history: seq<nat>) {
    forall i, j, k :: 0 <= i < j < k < |history| && history[i] == history[k] ==> history[j] == history[i]
  }

  function Authored(cs: seq<Content>): (r: seq<nat>)
    ensures |r| == |cs|
  {
    seq(|cs|, i requires 0 <= i < |cs| => cs[i].authored)
  }

  function Dependencies(cs: seq<Content>): (r: seq<nat>)
    ensures |r| == |cs|
  {
    seq(|cs|, i requires 0 <= i < |cs| => cs[i].dependencies)
  }

  function Tools(cs: seq<Content>): (r: seq<nat>)
    ensures |r| == |cs|
  {
    seq(|cs|, i requires 0 <= i < |cs| => cs[i].tools)
  }

  /**
   The chart and the tools may change at any time, also while the chart renders, but no change
   restores an earlier state; when the chart cannot be fingerprinted up front, only the render itself
   writes its dependencies, before it first reads them, and nobody replaces the tools meanwhile.
   */
  ghost predicate Fair(world: World, t: Trace) {
    && |t.rendered| == |t.succeeded|
    && NeverRestores([t.before.authored, t.authoredAt.authored] + Authored(t.rendered) + [t.after.authored])
    && if world.cacheable(t.before)
       then
         && NeverRestores([t.before.dependencies] + Dependencies(t.rendered) + [t.after.dependencies])
         && NeverRestores([t.before.tools] + Tools(t.rendered) + [t.after.tools])
       else forall c :: c in t.rendered ==> c.dependencies == t.after.dependencies && c.tools == t.after.tools
  }

  /** The lifecycle that was loaded declares the environments of the chart that is fingerprinted. */
  predicate SameEnvironments(world: World, t: Trace) {
    world.environments(t.loaded.authored) == world.environments(t.after.authored)
  }

  lemma StableMeansUnchanged(world: World, t: Trace, i: nat)
    requires Fair(world, t) && Stable(world, t) && i < |t.rendered|
    ensures t.rendered[i] == t.after
  {
    var authored := [t.before.authored, t.authoredAt.authored] + Authored(t.rendered) + [t.after.authored];
    var n := |authored| - 1;
    assert authored[n] == t.after.authored && authored[i + 2] == t.rendered[i].authored;
    assert authored[0] == t.before.authored && authored[1] == t.authoredAt.authored;
    if world.cacheable(t.before) {
      Bracketed(t.before.dependencies, Dependencies(t.rendered), t.after.dependencies, i);
      Bracketed(t.before.tools, Tools(t.rendered), t.after.tools, i);
    } else {
      assert t.rendered[i] in t.rendered;
    }
  }

  lemma Bracketed(first: nat, between: seq<nat>, last: nat, i: nat)
    requires NeverRestores([first] + between + [last]) && first == last && i < |between|
    ensures between[i] == first
  {
    var all := [first] + between + [last];
    assert all[0] == first && all[i + 1] == between[i] && all[|all| - 1] == last;
  }

  /** What would be written for `t` is what rendering its fingerprinted content yields, if rendering is `generate`. */
  ghost predicate SoundUnder(world: World, t: Trace, generate: (seq<string>, seq<Content>) -> Option<seq<Artifact>>) {
    generate(t.succeeded, t.rendered) == Render(world.(generate := generate), t.after)
  }

  /**
   What is written is right, whatever rendering does, exactly when the lifecycle that was loaded
   declares the environments of the chart that was fingerprinted.
   */
  lemma WrittenIsSound(world: World, cache: Cache, t: Trace)
    requires Fair(world, t) && Written(world, cache, t)
    ensures (forall g :: SoundUnder(world, t, g)) <==> SameEnvironments(world, t)
    ensures SameEnvironments(world, t) ==> Schemas(world, cache, t) == Render(world, t.after)
  {
    var environments := world.environments(t.after.authored);
    forall i | 0 <= i < |t.rendered| ensures t.rendered[i] == t.after {
      StableMeansUnchanged(world, t, i);
    }
    if SameEnvironments(world, t) {
      assert t.succeeded == environments;
      assert t.rendered == seq(|environments|, _ => t.after);
      forall g ensures SoundUnder(world, t, g) {}
      assert SoundUnder(world, t, world.generate);
    } else {
      var telling: (seq<string>, seq<Content>) -> Option<seq<Artifact>> :=
        (rendered, _) => if rendered == t.succeeded then Some([]) else None;
      assert telling(t.succeeded, t.rendered) == Some([]);
      assert Render(world.(generate := telling), t.after) == None;
      assert !SoundUnder(world, t, telling);
    }
  }

  /** What is asked of a preparation that consulted this cache: nothing of a target that it does not write. */
  ghost predicate WritesFairly(world: World, hits: Cache, traces: seq<Trace>) {
    forall t :: t in traces && Written(world, hits, t) ==> Fair(world, t) && SameEnvironments(world, t)
  }

  lemma {:induction false} WriteBackSound(world: World, hits: Cache, cache: Cache, traces: seq<Trace>)
    requires CacheSound(world, cache) && WritesFairly(world, hits, traces)
    ensures CacheSound(world, WriteBack(world, hits, cache, traces))
  {
    if traces != [] {
      var t := traces[|traces| - 1];
      WriteBackSound(world, hits, cache, traces[..|traces| - 1]);
      if Written(world, hits, t) {
        WrittenIsSound(world, hits, t);
      }
    }
  }

  /** Everything that happens to a cache directory: preparations, damage and loss. */
  datatype Event =
    | Prepared(traces: seq<Trace>)
    | Damaged(at: Content, entry: Entry)
    | Lost(at: Content)

  /** A damaged file no longer matches its checksum, or no longer parses. */
  predicate Detectable(e: Entry) {
    e.checksum != e.payload || e.payload.Garbage?
  }

  /** The cache after a history that began with an empty directory. */
  ghost function CacheRun(world: World, events: seq<Event>): Cache {
    if events == [] then map[] else
      var cache := CacheRun(world, events[..|events| - 1]);
      match events[|events| - 1]
      case Prepared(traces) => CacheAfter(world, cache, traces)
      case Damaged(at, entry) => cache[at := entry]
      case Lost(at) => cache - {at}
  }

  /** Every preparation wrote fairly, given the cache it found, and all damage shows. */
  ghost predicate FairHistory(world: World, events: seq<Event>) {
    forall i :: 0 <= i < |events| ==> FairAt(world, events, i)
  }

  ghost predicate FairAt(world: World, events: seq<Event>, i: nat)
    requires i < |events|
  {
    match events[i]
    case Prepared(traces) => WritesFairly(world, CacheRun(world, events[..i]), traces)
    case Damaged(_, entry) => Detectable(entry)
    case Lost(_) => true
  }

  /** In every reachable state, each readable entry holds what a fresh render would yield. */
  lemma {:induction false} ReachableSound(world: World, events: seq<Event>)
    requires FairHistory(world, events)
    ensures CacheSound(world, CacheRun(world, events))
  {
    if events != [] {
      var n := |events| - 1;
      var front, last := events[..n], events[n];
      forall i: nat | i < n ensures FairAt(world, front, i) {
        assert FairAt(world, events, i) && front[..i] == events[..i];
      }
      ReachableSound(world, front);
      assert FairAt(world, events, n);
      var cache := CacheRun(world, front);
      if last.Prepared? {
        WriteBackSound(world, cache, cache, last.traces);
      }
    }
  }

  /** Rendering the target now would succeed, on the content it was fingerprinted with. */
  predicate Undisturbed(world: World, t: Trace) {
    t.succeeded == world.environments(t.before.authored) && t.rendered == seq(|t.succeeded|, _ => t.before)
  }

  /** Of the targets served from the cache; those that miss it render the same with any cache. */
  ghost predicate HitsUndisturbed(world: World, cache: Cache, traces: seq<Trace>) {
    forall t :: t in traces && Hit(world, cache, t).Some? ==> Undisturbed(world, t)
  }

  lemma SameSchemas(world: World, cache: Cache, t: Trace)
    requires CacheSound(world, cache) && (Hit(world, cache, t).Some? ==> Undisturbed(world, t))
    ensures Schemas(world, cache, t) == Schemas(world, map[], t)
  {
  }

  lemma {:induction false} SameOffer(world: World, cache: Cache, traces: seq<Trace>)
    requires CacheSound(world, cache) && HitsUndisturbed(world, cache, traces)
    ensures Offered(world, cache, traces) == Offered(world, map[], traces)
  {
    if traces != [] {
      SameOffer(world, cache, traces[..|traces| - 1]);
      SameSchemas(world, cache, traces[|traces| - 1]);
    }
  }

  /**
   From any reachable cache, damaged entries included, a preparation publishes exactly the files, or
   raises exactly the error, that it would with no cache: also when charts that miss the cache fail
   to render or are edited meanwhile.
   */
  lemma CachedAgreesWithFresh(world: World, events: seq<Event>, traces: seq<Trace>)
    requires FairHistory(world, events)
    requires HitsUndisturbed(world, CacheRun(world, events), traces)
    ensures Published(world, CacheRun(world, events), traces) == Published(world, map[], traces)
  {
    var cache := CacheRun(world, events);
    ReachableSound(world, events);
    SameOffer(world, cache, traces);
    forall t | t in traces ensures Schemas(world, cache, t) == Schemas(world, map[], t) {
      SameSchemas(world, cache, t);
    }
    assert Contradiction(world, cache, traces) <==> Contradiction(world, map[], traces);
  }

  /** A chart that failed to render, or was edited while it rendered, leaves the cache as it was. */
  lemma {:induction false} UnstableNotWritten(world: World, hits: Cache, cache: Cache, traces: seq<Trace>, c: Content)
    requires forall t :: t in traces && t.after == c ==> Failed(world, t) || !Stable(world, t)
    ensures var written := WriteBack(world, hits, cache, traces);
      (c in written <==> c in cache) && (c in cache ==> written[c] == cache[c])
  {
    if traces != [] {
      assert traces[|traces| - 1] in traces;
      UnstableNotWritten(world, hits, cache, traces[..|traces| - 1], c);
    }
  }

  /** Every lifecycle that loads declares an environment. */
  ghost predicate LifecyclesLoad(world: World) {
    forall authored :: world.environments(authored) != []
  }

  /**
   The condition is not always met: a chart edited between loading and fingerprinting is rendered in
   the environments it had before the edit, and that incomplete result is cached under its new content.
   */
  lemma StaleLoadPoisonsCache()
    ensures exists world: World, t: Trace ::
      && LifecyclesLoad(world)
      && Fair(world, t) && Written(world, map[], t) && !SameEnvironments(world, t)
      && t.before == t.authoredAt == t.after && (forall c :: c in t.rendered ==> c == t.after)
      && Schemas(world, map[], t) != Render(world, t.after)
  {
    var a := Artifact(["example.com", "v1", "Widget"], JsonSchema.Flag(true));
    var world := World(
      c => true,
      authored => if authored == 0 then ["dev"] else ["ci", "dev"],
      (environments, contents) => Some(if "ci" in environments then [a] else []));
    var now := Content(0, 1, 0);
    var t := Trace(Content(0, 0, 0), now, now, ["dev"], [now], now);
    assert LifecyclesLoad(world);
    assert Fair(world, t) by {
      assert Authored(t.rendered) == [1] && Dependencies(t.rendered) == [0] && Tools(t.rendered) == [0];
    }
    assert world.environments(1) == ["ci", "dev"] && ["ci", "dev"][0] == "ci";
    assert world.environments(0) == ["dev"];
    assert Schemas(world, map[], t) == Some([]);
    assert Render(world, now) == Some([a]);
    assert Written(world, map[], t) && !SameEnvironments(world, t);
  }
}
