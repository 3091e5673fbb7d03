/** Offline verification of a pinned Git checkout against its commit's tree. */
module RepositorySnapshot {
  import opened Wrappers

  type Byte = bv8

  /** A Git blob id. The digest is taken to be injective, so it is modelled by what it digests. */
  datatype Oid = BlobOf(content: seq<Byte>)

  /** One record of `git ls-tree -r`. */
  datatype Record = Record(mode: string, kind: string, oid: Oid, name: string)

  datatype FsNode = RegularFile(content: seq<Byte>) | Directory | Symlink

  /**
   What `inspect` can see of a checkout: whether `.git` is a directory, what the two Git
   queries answer (None when Git fails), the working tree, and the directories whose
   resolved path lies outside the checkout.
   */
  datatype Checkout = Checkout(
    hasGit: bool,
    head: Option<string>,
    tree: Option<seq<Record>>,
    nodes: map<string, FsNode>,
    outside: set<string>
  )

  datatype Problem =
    | GitMissing
    | GitFailed
    | HeadDiffers
    | NotARegularBlob(name: string)
    | Escapes(name: string)
    | Missing(name: string)
    | Differs(name: string)
    | NoSchemas
    | UnexpectedFiles

  predicate IsJson(name: string) {
    |name| >= 5 && name[|name| - 5..] == ".json"
  }

  /** The directory part of a repository path; empty at the root. */
  function Parent(name: string): string {
    if name == "" then "" else if name[|name| - 1] == '/' then name[..|name| - 1] else Parent(name[..|name| - 1])
  }

  predicate Under(directory: Option<string>, path: string) {
    directory.Some? ==> directory.value + "/" <= path
  }

  /** The paths `rglob("*.json")` lists below the content root, whatever they are. */
  function JsonPaths(c: Checkout, directory: Option<string>): set<string> {
    set path | path in c.nodes && IsJson(path) && Under(directory, path)
  }

  /** The record names a regular schema file that is on disk with the pinned bytes. */
  predicate Faithful(c: Checkout, r: Record) {
    && r.mode in {"100644", "100755"} && r.kind == "blob"
    && r.name in c.nodes && c.nodes[r.name].RegularFile?
    && Parent(r.name) !in c.outside
    && BlobOf(c.nodes[r.name].content) == r.oid
  }

  predicate Relevant(r: Record) { IsJson(r.name) }

  /** The checkout is the pinned commit's, and its schema files are exactly the commit's. */
  ghost predicate Clean(c: Checkout, revision: string, directory: Option<string>) {
    && c.hasGit && c.head == Some(revision) && c.tree.Some?
    && (forall r :: r in c.tree.value && Relevant(r) ==> Faithful(c, r))
    && (exists r :: r in c.tree.value && Relevant(r))
    && JsonPaths(c, directory) == set r | r in c.tree.value && Relevant(r) :: r.name
  }

  /** The first problem found, or None exactly when the checkout is clean. */
  method Inspect(c: Checkout, revision: string, directory: Option<string>) returns (problem: Option<Problem>)
    ensures problem == None <==> Clean(c, revision, directory)
  {
    if !c.hasGit {
      return Some(GitMissing);
    }
    if c.head.None? {
      return Some(GitFailed);
    }
    if c.head.value != revision {
      return Some(HeadDiffers);
    }
    if c.tree.None? {
      return Some(GitFailed);
    }
    var tree := c.tree.value;
    var expected: set<string> := {};
    var checkedParents: set<string> := {};
    for i := 0 to |tree|
      invariant checkedParents !! c.outside
      invariant forall j :: 0 <= j < i && Relevant(tree[j]) ==> Faithful(c, tree[j])
      invariant expected == set j | 0 <= j < i && Relevant(tree[j]) :: tree[j].name
    {
      var record := tree[i];
      if !IsJson(record.name) {
        continue;
      }
      assert record in tree && Relevant(record);
      expected := expected + {record.name};
      if record.mode !in {"100644", "100755"} || record.kind != "blob" {
        return Some(NotARegularBlob(record.name));
      }
      if record.name in c.nodes && c.nodes[record.name].Symlink? {
        return Some(Escapes(record.name));
      }
      var parent := Parent(record.name);
      if parent !in checkedParents {
        if parent in c.outside {
          return Some(Escapes(record.name));
        }
        checkedParents := checkedParents + {parent};
      }
      if record.name !in c.nodes || !c.nodes[record.name].RegularFile? {
        return Some(Missing(record.name));
      }
      if BlobOf(c.nodes[record.name].content) != record.oid {
        return Some(Differs(record.name));
      }
    }
    assert expected == set r | r in tree && Relevant(r) :: r.name;
    if expected == {} {
      assert forall r :: r in tree && Relevant(r) ==> r.name in expected;
      return Some(NoSchemas);
    }
    if JsonPaths(c, directory) != expected {
      return Some(UnexpectedFiles);
    }
    return None;
  }

  /** The tree lists exactly the files of `pinned`, each as a regular blob. */
  ghost predicate Lists(tree: seq<Record>, pinned: map<string, seq<Byte>>) {
    && (forall r :: r in tree && Relevant(r) ==>
          && r.mode in {"100644", "100755"} && r.kind == "blob"
          && r.name in pinned && r.oid == BlobOf(pinned[r.name]))
    && (forall name :: name in pinned ==> exists r :: r in tree && Relevant(r) && r.name == name)
  }

  /**
   Inspection finds nothing exactly when the schema files on disk are the pinned ones:
   the same set of paths, every one a regular file, byte for byte.
   */
  lemma CleanMeansEqual(c: Checkout, revision: string, directory: Option<string>, pinned: map<string, seq<Byte>>)
    requires c.hasGit && c.head == Some(revision) && c.tree.Some? && Lists(c.tree.value, pinned)
    requires pinned != map[]
    requires forall name :: name in pinned ==> Parent(name) !in c.outside
    ensures Clean(c, revision, directory) <==>
      && JsonPaths(c, directory) == pinned.Keys
      && forall name :: name in pinned ==> name in c.nodes && c.nodes[name] == RegularFile(pinned[name])
  {
  }

  /** A changed, lost or added schema file is always noticed. */
  lemma TamperingDetected(c: Checkout, d: Checkout, revision: string, directory: Option<string>, path: string)
    requires Clean(c, revision, directory)
    requires d == c.(nodes := d.nodes)
    requires IsJson(path) && Under(directory, path)
    requires path in c.nodes || path in d.nodes
    requires path in c.nodes && path in d.nodes ==> c.nodes[path] != d.nodes[path]
    ensures !Clean(d, revision, directory)
  {
    if path in c.nodes && path in d.nodes {
      assert path in JsonPaths(c, directory);
      var r :| r in c.tree.value && Relevant(r) && r.name == path;
      assert Faithful(c, r);
      assert !Faithful(d, r);
    } else {
      assert path in JsonPaths(c, directory) <==> path !in JsonPaths(d, directory);
    }
  }
}
