/** Whether what lies in a chart's charts/ directory is what its lock file asked for. */
module DependencyFreshness {
  import opened Wrappers

  datatype Identity = Identity(name: string, version: string)

  /** A dependency entry as Helm hashes it; `other` holds the fields besides name and version. */
  datatype Dependency = Dependency(name: string, version: string, other: string)

  /** The lock file: its entries, when they parse and there are some, and the digest it records. */
  datatype Lock = Lock(dependencies: Option<seq<Dependency>>, digest: Option<string>)

  datatype Kind = File | Directory | NeitherKind

  /** What the Chart.yaml inside an artifact says. */
  datatype Metadata = Missing | Unreadable | Named(identity: Identity)

  datatype Entry = Entry(symlink: bool, tgz: bool, kind: Kind, metadata: Metadata)

  /** What one directory entry counts as. */
  datatype Reading = Skipped | Ambiguous | Artifact(identity: Identity)

  function IdentityOf(m: Metadata): Reading {
    if m.Named? then Artifact(m.identity) else Ambiguous
  }

  function Read(e: Entry): Reading {
    if e.symlink then (if e.tgz || e.kind.Directory? then Ambiguous else Skipped)
    else if e.tgz then (if e.kind.File? then IdentityOf(e.metadata) else Ambiguous)
    else if e.kind.Directory? then (if e.metadata.Missing? then Skipped else IdentityOf(e.metadata))
    else Skipped
  }

  /** Entry `i` holds this chart. */
  predicate Holds(entries: seq<Entry>, i: nat, id: Identity)
    requires i < |entries|
  {
    Read(entries[i]) == Artifact(id)
  }

  ghost predicate Unambiguous(entries: seq<Entry>) {
    && (forall i :: 0 <= i < |entries| ==> !Read(entries[i]).Ambiguous?)
    && (forall i, j, id :: 0 <= i < j < |entries| && Holds(entries, i, id) ==> !Holds(entries, j, id))
  }

  /** The charts that are there, unless an entry is suspect or a chart is there twice. */
  method MaterializedIdentities(entries: seq<Entry>) returns (found: Option<set<Identity>>)
    ensures found.Some? <==> Unambiguous(entries)
    ensures found.Some? ==> forall id :: id in found.value <==> exists i :: 0 <= i < |entries| && Holds(entries, i, id)
  {
    var identities: set<Identity> := {};
    for i := 0 to |entries|
      invariant forall j :: 0 <= j < i ==> !Read(entries[j]).Ambiguous?
      invariant forall j, k, id :: 0 <= j < k < i && Holds(entries, j, id) ==> !Holds(entries, k, id)
      invariant forall id :: id in identities <==> exists j :: 0 <= j < i && Holds(entries, j, id)
    {
      var reading := Read(entries[i]);
      if reading.Ambiguous? {
        return None;
      }
      if reading.Artifact? {
        assert Holds(entries, i, reading.identity);
        if reading.identity in identities {
          return None;
        }
        identities := identities + {reading.identity};
      }
    }
    return Some(identities);
  }

  /** A version that says nothing names no chart. */
  predicate Blank(s: string) { forall i :: 0 <= i < |s| ==> s[i] in {' ', '\t', '\n', '\r'} }

  /** Every locked chart is there exactly once, and no other chart is. */
  ghost predicate Materialized(locked: seq<Dependency>, entries: seq<Entry>) {
    && Unambiguous(entries)
    && (forall d :: d in locked ==> exists i :: 0 <= i < |entries| && Holds(entries, i, Identity(d.name, d.version)))
    && (forall i, id :: 0 <= i < |entries| && Holds(entries, i, id) ==>
      exists d :: d in locked && id == Identity(d.name, d.version))
  }

  /** `hash` is Helm's digest of the authored and the resolved dependency lists. */
  type Hash = (seq<Dependency>, seq<Dependency>) -> string

  method DependenciesAreFresh(hash: Hash, declared: Option<seq<Dependency>>, lock: Option<Lock>,
                              entries: Option<seq<Entry>>)
    returns (fresh_: bool)
    ensures fresh_ <==>
      && declared.Some? && lock.Some? && lock.value.dependencies.Some? && entries.Some?
      && lock.value.digest == Some(hash(declared.value, lock.value.dependencies.value))
      && (forall d :: d in lock.value.dependencies.value ==> !Blank(d.version))
      && Materialized(lock.value.dependencies.value, entries.value)
  {
    if declared.None? || lock.None? || entries.None? {
      return false;
    }
    if lock.value.dependencies.None? || lock.value.digest != Some(hash(declared.value, lock.value.dependencies.value)) {
      return false;
    }
    var locked := lock.value.dependencies.value;
    var expected: set<Identity> := set d | d in locked :: Identity(d.name, d.version);
    if exists d :: d in locked && Blank(d.version) {
      return false;
    }
    var found := MaterializedIdentities(entries.value);
    if found.None? {
      return false;
    }
    fresh_ := found.value == expected;
    SameCharts(locked, entries.value, found.value, expected);
  }

  lemma SameCharts(locked: seq<Dependency>, entries: seq<Entry>, found: set<Identity>, expected: set<Identity>)
    requires Unambiguous(entries)
    requires forall id :: id in found <==> exists i :: 0 <= i < |entries| && Holds(entries, i, id)
    requires forall id :: id in expected <==> exists d :: d in locked && id == Identity(d.name, d.version)
    ensures found == expected <==> Materialized(locked, entries)
  {
    if found == expected {
      forall d | d in locked ensures exists i :: 0 <= i < |entries| && Holds(entries, i, Identity(d.name, d.version)) {
        assert Identity(d.name, d.version) in expected;
      }
      forall i, id | 0 <= i < |entries| && Holds(entries, i, id)
        ensures exists d :: d in locked && id == Identity(d.name, d.version)
      {
        assert id in found;
      }
    }
    if Materialized(locked, entries) {
      forall id ensures id in found <==> id in expected {}
    }
  }
}
