/** Schemas generated from CustomResourceDefinitions, and merging their providers. */
module CrdSchemas {
  import opened Wrappers
  import opened Ordering
  import opened JsonSchema
  import opened CanonicalSchema
  import opened CrdEnvelope

  /**
   What a version holds as its `openAPIV3Schema`: nothing, something other than a mapping, or a
   mapping, whose `properties` and `required` may be of the wrong kind.
   */
  datatype OpenApi =
    | Missing
    | NotAMapping
    | Mapping(kw: Keywords, kids: seq<Kid>, propertiesMapping: bool, requiredNames: bool)

  /** One entry of `spec.versions`; an empty name stands for a missing or malformed one. */
  datatype CrdVersion = NotAVersion | CrdVersion(served: bool, name: string, openapi: OpenApi)

  /** A rendered CRD; empty strings and lists stand for missing or malformed fields. */
  datatype Crd = Crd(group: string, kind: string, versions: seq<CrdVersion>)

  /** Group, version and kind. */
  type Key = seq<string>

  /** The content is JSON text with sorted keys, hence a canonical tree. */
  datatype Artifact = Artifact(key: Key, content: Schema)

  datatype CrdError = Malformed | Conflict(key: Key)

  predicate Counts(version: CrdVersion) {
    version.CrdVersion? && version.served && !version.openapi.Missing?
  }

  /** The authored metadata schema, if there is one, is a mapping. */
  predicate MetadataOk(kids: seq<Kid>) {
    forall i :: 0 <= i < |kids| && kids[i].slot == METADATA ==> kids[i].schema.Node?
  }

  predicate UsableSchema(openapi: OpenApi) {
    openapi.Mapping? && openapi.propertiesMapping && openapi.requiredNames && MetadataOk(openapi.kids)
  }

  predicate WellFormedVersion(version: CrdVersion) {
    version.CrdVersion? && (Counts(version) ==> version.name != "" && UsableSchema(version.openapi))
  }

  predicate WellFormed(crd: Crd) {
    && crd.group != "" && crd.kind != "" && crd.versions != []
    && forall i :: 0 <= i < |crd.versions| ==> WellFormedVersion(crd.versions[i])
  }

  function Authored(version: CrdVersion): (s: Schema)
    requires Counts(version) && WellFormedVersion(version)
    ensures s.Node?
  {
    Node(version.openapi.kw, version.openapi.kids)
  }

  function GeneratedBy(crd: Crd, version: CrdVersion): Schema
    requires Counts(version) && WellFormedVersion(version)
  {
    Generated(Authored(version), crd.group, version.name, crd.kind)
  }

  function ArtifactOf(crd: Crd, version: CrdVersion): Artifact
    requires Counts(version) && WellFormedVersion(version)
  {
    Artifact([crd.group, version.name, crd.kind], Canonical(GeneratedBy(crd, version)))
  }

  predicate EmittedBy(crd: Crd, version: CrdVersion, a: Artifact) {
    Counts(version) && WellFormedVersion(version) && a == ArtifactOf(crd, version)
  }

  /** One of the first `n` versions is served with a schema, and this is what it generates. */
  ghost predicate EmitsFrom(crd: Crd, n: nat, a: Artifact)
    requires n <= |crd.versions|
  {
    exists i :: 0 <= i < n && EmittedBy(crd, crd.versions[i], a)
  }

  ghost predicate Emits(crd: Crd, a: Artifact) {
    exists i :: 0 <= i < |crd.versions| && EmittedBy(crd, crd.versions[i], a)
  }

  ghost predicate SomeEmits(crds: seq<Crd>, a: Artifact) {
    exists c :: c in crds && Emits(c, a)
  }

  /** Two providers define the same kind differently. */
  ghost predicate Conflicting(crds: seq<Crd>) {
    exists a, b :: SomeEmits(crds, a) && SomeEmits(crds, b) && Disagree(a, b)
  }

  lemma EmitsNext(crd: Crd, n: nat)
    requires n < |crd.versions|
    ensures forall a :: EmitsFrom(crd, n + 1, a) <==> EmitsFrom(crd, n, a) || EmittedBy(crd, crd.versions[n], a)
  {
  }

  method SchemasForCrd(crd: Crd) returns (r: Result<seq<Artifact>, CrdError>)
    ensures r.Ok? <==> WellFormed(crd)
    ensures r.Ok? ==> forall a :: a in r.value <==> Emits(crd, a)
    ensures r.Err? ==> r.error == Malformed
  {
    if crd.group == "" || crd.kind == "" || crd.versions == [] {
      return Err(Malformed);
    }
    var artifacts: seq<Artifact> := [];
    for i := 0 to |crd.versions|
      invariant forall j :: 0 <= j < i ==> WellFormedVersion(crd.versions[j])
      invariant forall a :: a in artifacts <==> EmitsFrom(crd, i, a)
    {
      var version := crd.versions[i];
      EmitsNext(crd, i);
      if version.NotAVersion? {
        return Err(Malformed);
      }
      if !version.served || version.openapi.Missing? {
        continue;
      }
      if version.name == "" || version.openapi.NotAMapping? || !version.openapi.propertiesMapping {
        return Err(Malformed);
      }
      if !MetadataOk(version.openapi.kids) || !version.openapi.requiredNames {
        return Err(Malformed);
      }
      artifacts := artifacts + [ArtifactOf(crd, version)];
    }
    return Ok(artifacts);
  }

  predicate KeyLess(a: Artifact, b: Artifact) { StringsLess(a.key, b.key) }

  /**
   What generation promises: success exactly when every CRD is well formed and no two
   disagree, and then one schema per kind, in key order.
   */
  ghost predicate Generates(crds: seq<Crd>, r: Result<seq<Artifact>, CrdError>) {
    && (r.Ok? <==> (forall c :: c in crds ==> WellFormed(c)) && !Conflicting(crds))
    && (r.Ok? ==> StrictlySorted(KeyLess, r.value) && forall a :: a in r.value <==> SomeEmits(crds, a))
  }

  predicate Holds(generated: map<Key, Artifact>, a: Artifact) {
    a.key in generated && generated[a.key] == a
  }

  predicate Keyed(generated: map<Key, Artifact>) {
    forall k :: k in generated ==> generated[k].key == k
  }

  ghost predicate Disagree(a: Artifact, b: Artifact) {
    a.key == b.key && a.content != b.content
  }

  /** What a provider contributes reads as the schema generated for it. */
  lemma ContentMeaning(sem: Semantics, crd: Crd, version: CrdVersion, v: Value)
    requires Counts(version) && WellFormedVersion(version)
    ensures v in Accepted(sem, ArtifactOf(crd, version).content) <==>
      && AdmitsCustom(sem, Authored(version), v)
      && Enveloped(sem, version.openapi.kids, crd.group, version.name, crd.kind, v)
      && v in Undeclaring(sem, Envelope(Authored(version), crd.group, version.name, crd.kind))
  {
    CanonicalAccepts(sem, GeneratedBy(crd, version));
    GeneratedMeaning(sem, Authored(version), crd.group, version.name, crd.kind, v);
  }

  /** Two providers of one kind disagree exactly when more than the order of mappings tells them apart. */
  lemma DisagreeExactly(crd: Crd, version: CrdVersion, other: Crd, version': CrdVersion)
    requires Counts(version) && WellFormedVersion(version) && Counts(version') && WellFormedVersion(version')
    requires ArtifactOf(crd, version).key == ArtifactOf(other, version').key
    ensures Disagree(ArtifactOf(crd, version), ArtifactOf(other, version'))
      <==> !Reordered(GeneratedBy(crd, version), GeneratedBy(other, version'))
  {
    CanonicalExactly(GeneratedBy(crd, version), GeneratedBy(other, version'));
  }

  /** Providers that author the same kind alike, whatever the order of their mappings, never disagree. */
  lemma AlikeNeverDisagree(crd: Crd, version: CrdVersion, other: Crd, version': CrdVersion)
    requires Counts(version) && WellFormedVersion(version) && Counts(version') && WellFormedVersion(version')
    requires crd.group == other.group && version.name == version'.name && crd.kind == other.kind
    requires AuthoredAlike(Authored(version), Authored(version'))
    ensures ArtifactOf(crd, version) == ArtifactOf(other, version')
  {
    MappingOrderIrrelevant(Authored(version), Authored(version'), crd.group, version.name, crd.kind);
  }

  /** Add one provider's artifacts, or stop at the first that contradicts what is there. */
  method Merge(generated: map<Key, Artifact>, artifacts: seq<Artifact>)
    returns (r: Result<map<Key, Artifact>, CrdError>)
    requires Keyed(generated)
    ensures r.Ok? ==> Keyed(r.value) && forall a :: Holds(r.value, a) <==> Holds(generated, a) || a in artifacts
    ensures r.Err? ==> r.error.Conflict? && exists a, b ::
      a in artifacts && (Holds(generated, b) || b in artifacts) && Disagree(a, b) && a.key == r.error.key
  {
    var merged := generated;
    for j := 0 to |artifacts|
      invariant Keyed(merged)
      invariant forall a :: Holds(merged, a) <==> Holds(generated, a) || a in artifacts[..j]
    {
      var a := artifacts[j];
      if a.key in merged && merged[a.key].content != a.content {
        assert Holds(merged, merged[a.key]) && Disagree(a, merged[a.key]);
        return Err(Conflict(a.key));
      }
      merged := merged[a.key := a];
      assert artifacts[..j + 1] == artifacts[..j] + [a];
    }
    assert artifacts[..|artifacts|] == artifacts;
    return Ok(merged);
  }

  ghost predicate Clash(crds: seq<Crd>, key: Key) {
    exists a, b :: SomeEmits(crds, a) && SomeEmits(crds, b) && Disagree(a, b) && a.key == key
  }

  /** The merge so far holds exactly what the first `n` CRDs emit. */
  ghost predicate Collected(crds: seq<Crd>, n: nat, generated: map<Key, Artifact>)
    requires n <= |crds|
  {
    && Keyed(generated)
    && (forall c :: c in crds[..n] ==> WellFormed(c))
    && (forall a :: Holds(generated, a) <==> SomeEmits(crds[..n], a))
  }

  method GenerateCrdSchemas(crds: seq<Crd>) returns (r: Result<seq<Artifact>, CrdError>)
    ensures Generates(crds, r)
    ensures r == Err(Malformed) ==> exists c :: c in crds && !WellFormed(c)
    ensures r.Err? && r.error.Conflict? ==> Clash(crds, r.error.key)
  {
    var generated: map<Key, Artifact> := map[];
    var i := 0;
    while i < |crds|
      invariant i <= |crds| && Collected(crds, i, generated)
    {
      assert crds[i] in crds;
      var artifacts := SchemasForCrd(crds[i]);
      if artifacts.Err? {
        return Err(artifacts.error);
      }
      var merged := Merge(generated, artifacts.value);
      if merged.Err? {
        ClashFound(crds, i, generated, artifacts.value, merged.error.key);
        return Err(merged.error);
      }
      CollectedNext(crds, i, generated, artifacts.value, merged.value);
      generated := merged.value;
      i := i + 1;
    }
    var values := Sorted(generated);
    AllCollected(crds, generated, values);
    return Ok(values);
  }

  lemma ClashFound(crds: seq<Crd>, i: nat, generated: map<Key, Artifact>, artifacts: seq<Artifact>, key: Key)
    requires i < |crds| && Collected(crds, i, generated)
    requires forall a :: a in artifacts <==> Emits(crds[i], a)
    requires exists a, b :: a in artifacts && (Holds(generated, b) || b in artifacts) && Disagree(a, b) && a.key == key
    ensures Clash(crds, key) && Conflicting(crds)
  {
  }

  lemma CollectedNext(
    crds: seq<Crd>, i: nat, generated: map<Key, Artifact>, artifacts: seq<Artifact>, merged: map<Key, Artifact>)
    requires i < |crds| && Collected(crds, i, generated) && WellFormed(crds[i])
    requires forall a :: a in artifacts <==> Emits(crds[i], a)
    requires Keyed(merged) && forall a :: Holds(merged, a) <==> Holds(generated, a) || a in artifacts
    ensures Collected(crds, i + 1, merged)
  {
  }

  lemma AllCollected(crds: seq<Crd>, generated: map<Key, Artifact>, values: seq<Artifact>)
    requires Collected(crds, |crds|, generated)
    requires StrictlySorted(KeyLess, values) && forall a :: a in values <==> Holds(generated, a)
    ensures Generates(crds, Ok(values))
  {
    assert crds[..|crds|] == crds;
    forall a, b | SomeEmits(crds, a) && SomeEmits(crds, b) && a.key == b.key ensures a.content == b.content {
      assert Holds(generated, a) && Holds(generated, b);
    }
  }

  /** `sorted(generated.values(), key=...)`. */
  method Sorted(generated: map<Key, Artifact>) returns (r: seq<Artifact>)
    requires forall k :: k in generated ==> generated[k].key == k
    ensures StrictlySorted(KeyLess, r)
    ensures forall a :: a in r <==> Holds(generated, a)
  {
    var keys := generated.Keys;
    r := [];
    while keys != {}
      invariant keys <= generated.Keys
      invariant StrictlySorted(KeyLess, r)
      invariant forall a :: a in r <==> a.key in generated.Keys - keys && generated[a.key] == a
      decreases |keys|
    {
      var k :| k in keys;
      keys := keys - {k};
      var a := generated[k];
      assert forall b :: b in r ==> b.key != k;
      StringsLessStrictTotal();
      r := InsertByKey(a, r);
    }
  }

  method InsertByKey(a: Artifact, xs: seq<Artifact>) returns (r: seq<Artifact>)
    requires StrictTotal(StringsLess)
    requires StrictlySorted(KeyLess, xs) && forall x :: x in xs ==> x.key != a.key
    ensures StrictlySorted(KeyLess, r)
    ensures forall x :: x in r <==> x in xs || x == a
  {
    var i := 0;
    while i < |xs| && KeyLess(xs[i], a)
      invariant 0 <= i <= |xs|
      invariant forall j :: 0 <= j < i ==> KeyLess(xs[j], a)
    {
      i := i + 1;
    }
    r := xs[..i] + [a] + xs[i..];
    forall j | i <= j < |xs| ensures KeyLess(a, xs[j]) {
      assert xs[j] in xs && xs[i] in xs;
    }
  }

  lemma PermutationMembers<T>(a: seq<T>, b: seq<T>, x: T)
    requires multiset(a) == multiset(b)
    ensures x in a <==> x in b
  {
    assert x in a <==> x in multiset(a);
    assert x in b <==> x in multiset(b);
  }

  lemma SomeEmitsPermuted(crds: seq<Crd>, others: seq<Crd>, a: Artifact)
    requires multiset(crds) == multiset(others)
    requires SomeEmits(crds, a)
    ensures SomeEmits(others, a)
  {
    var c :| c in crds && Emits(c, a);
    PermutationMembers(crds, others, c);
  }

  /** Provider order decides neither the verdict nor the schemas. */
  lemma ProviderOrderIrrelevant(
    crds: seq<Crd>, others: seq<Crd>, r: Result<seq<Artifact>, CrdError>, r': Result<seq<Artifact>, CrdError>)
    requires multiset(crds) == multiset(others)
    requires Generates(crds, r) && Generates(others, r')
    ensures r.Ok? <==> r'.Ok?
    ensures r.Ok? ==> r == r'
  {
    forall a ensures SomeEmits(crds, a) <==> SomeEmits(others, a) {
      if SomeEmits(crds, a) { SomeEmitsPermuted(crds, others, a); }
      if SomeEmits(others, a) { SomeEmitsPermuted(others, crds, a); }
    }
    forall c ensures c in crds <==> c in others {
      PermutationMembers(crds, others, c);
    }
    if r.Ok? && r'.Ok? {
      StringsLessStrictTotal();
      StrictlySortedUnique(KeyLess, r.value, r'.value);
    }
  }
}
