/** The store of pinned upstream snapshots and the committed lock that names two of them. */
module SchemaStore {
  import opened Wrappers
  import opened RepositorySnapshot

  datatype Pin = Pin(repository: string, track: string, resolved: string)

  /** `spec.validation` of the workspace. */
  datatype Policy = Policy(
    kubernetesVersion: string,
    generateFromCrds: bool,
    catalogRepository: string,
    catalogTrack: string
  )

  datatype Lock = Lock(
    workspace: string,
    kubernetesVersion: string,
    generateFromCrds: bool,
    kubernetes: Pin,
    catalog: Pin
  )

  const KUBERNETES_REPOSITORY := "yannh/kubernetes-json-schema"
  const KUBERNETES_TRACK := "master"

  /** One snapshot directory of the store. */
  datatype Destination = Destination(repository: string, revision: string, directory: Option<string>)

  datatype StoreError = Corrupt(at: Destination) | NotCached | NoSuchDirectory | FetchFailed | PublishFailed

  datatype LockError = NoPolicy | NoLock | PolicyMismatch | Store(error: StoreError)

  function Repositories(lock: Lock): (r: seq<Destination>)
    ensures |r| == 2 && r[0] != r[1]
  {
    [Destination(lock.kubernetes.repository, lock.kubernetes.resolved,
                 Some("v" + lock.kubernetesVersion + "-standalone-strict")),
     Destination(lock.catalog.repository, lock.catalog.resolved, None)]
  }

  ghost predicate Verified(at: Destination, c: Checkout) {
    Clean(c, at.revision, at.directory)
  }

  /** Every snapshot the lock needs is in the store and passes inspection. */
  ghost predicate Serves(snapshots: map<Destination, Checkout>, lock: Lock) {
    forall at :: at in Repositories(lock) ==> at in snapshots && Verified(at, snapshots[at])
  }

  /** Every authored field that controls the locked bytes agrees with the lock. */
  predicate Matches(workspace: string, policy: Policy, lock: Lock) {
    && lock.workspace == workspace
    && lock.kubernetesVersion == policy.kubernetesVersion
    && lock.generateFromCrds == policy.generateFromCrds
    && lock.kubernetes.repository == KUBERNETES_REPOSITORY
    && lock.kubernetes.track == KUBERNETES_TRACK
    && lock.catalog.repository == policy.catalogRepository
    && lock.catalog.track == policy.catalogTrack
  }

  /** The lock `update` builds from the policy and the two resolved references. */
  function BuildLock(workspace: string, policy: Policy, kubernetesCommit: string, catalogCommit: string): (lock: Lock)
    ensures Matches(workspace, policy, lock)
    ensures Repositories(lock)[0].revision == kubernetesCommit && Repositories(lock)[1].revision == catalogCommit
  {
    Lock(workspace, policy.kubernetesVersion, policy.generateFromCrds,
         Pin(KUBERNETES_REPOSITORY, KUBERNETES_TRACK, kubernetesCommit),
         Pin(policy.catalogRepository, policy.catalogTrack, catalogCommit))
  }

  /**
   What a checkout of one repository leaves in the staging directory, or why it failed;
   `Unpublishable` when the operating system refuses the directory or its rename.
   */
  datatype Fetched = Staged(checkout: Checkout) | DirectoryNotFound | CommandFailed | Unpublishable

  class Snapshots {
    var snapshots: map<Destination, Checkout>

    constructor ()
      ensures snapshots == map[]
    {
      snapshots := map[];
    }

    /** Which of the lock's snapshots are missing or corrupt, and how many are usable. */
    method Status(lock: Lock) returns (present: nat, missing: seq<Destination>, corrupt: seq<Destination>)
      ensures present + |missing| + |corrupt| == 2
      ensures forall at :: at in missing <==> at in Repositories(lock) && at !in snapshots
      ensures forall at :: at in corrupt <==>
        at in Repositories(lock) && at in snapshots && !Verified(at, snapshots[at])
      ensures missing == [] && corrupt == [] <==> Serves(snapshots, lock)
    {
      var repositories := Repositories(lock);
      present, missing, corrupt := 0, [], [];
      for i := 0 to 2
        invariant present + |missing| + |corrupt| == i
        invariant forall at :: at in missing <==> at in repositories[..i] && at !in snapshots
        invariant forall at :: at in corrupt <==>
          at in repositories[..i] && at in snapshots && !Verified(at, snapshots[at])
      {
        var at := repositories[i];
        assert repositories[..i + 1] == repositories[..i] + [at];
        if at !in snapshots {
          missing := missing + [at];
          continue;
        }
        var problem := Inspect(snapshots[at], at.revision, at.directory);
        if problem.Some? {
          corrupt := corrupt + [at];
        } else {
          present := present + 1;
        }
      }
      assert repositories[..2] == repositories;
      NothingWrong(lock, missing, corrupt);
    }

    lemma NothingWrong(lock: Lock, missing: seq<Destination>, corrupt: seq<Destination>)
      requires forall at :: at in missing <==> at in Repositories(lock) && at !in snapshots
      requires forall at :: at in corrupt <==>
        at in Repositories(lock) && at in snapshots && !Verified(at, snapshots[at])
      ensures missing == [] && corrupt == [] <==> Serves(snapshots, lock)
    {
      if missing != [] {
        assert missing[0] in missing;
      }
      if corrupt != [] {
        assert corrupt[0] in corrupt;
      }
    }

    /**
     Stage, verify and publish every missing snapshot. A snapshot that exists is never
     touched, whatever its state, and nothing unverified is published, even on failure.
     */
    method Sync(lock: Lock, fetch: Destination -> Fetched) returns (r: Result<bool, StoreError>)
      modifies this
      ensures old(snapshots).Keys <= snapshots.Keys
      ensures forall at :: at in old(snapshots) ==> snapshots[at] == old(snapshots)[at]
      ensures forall at :: at in snapshots && at !in old(snapshots) ==>
        at in Repositories(lock) && Verified(at, snapshots[at]) && fetch(at) == Staged(snapshots[at])
      ensures r.Ok? ==> Serves(snapshots, lock) && (r.value <==> snapshots != old(snapshots))
      ensures r.Err? && r.error.Corrupt? ==>
        r.error.at in old(snapshots) && !Verified(r.error.at, old(snapshots)[r.error.at])
      ensures r.Ok? <==> forall at :: at in Repositories(lock) ==>
        if at in old(snapshots) then Verified(at, old(snapshots)[at])
        else fetch(at).Staged? && Verified(at, fetch(at).checkout)
    {
      var repositories := Repositories(lock);
      var published := false;
      for i := 0 to 2
        invariant old(snapshots).Keys <= snapshots.Keys
        invariant forall at :: at in old(snapshots) ==> snapshots[at] == old(snapshots)[at]
        invariant forall at :: at in snapshots && at !in old(snapshots) ==>
          at in repositories[..i] && fetch(at) == Staged(snapshots[at])
        invariant forall at :: at in repositories[..i] ==> at in snapshots && Verified(at, snapshots[at])
        invariant published <==> snapshots != old(snapshots)
      {
        var at := repositories[i];
        assert at in repositories;
        assert repositories[..i + 1] == repositories[..i] + [at];
        if at in snapshots {
          assert at in old(snapshots);
          var problem := Inspect(snapshots[at], at.revision, at.directory);
          if problem.Some? {
            return Err(Corrupt(at));
          }
          continue;
        }
        var fetched := fetch(at);
        match fetched {
          case DirectoryNotFound => return Err(NoSuchDirectory);
          case CommandFailed => return Err(FetchFailed);
          case Unpublishable => return Err(PublishFailed);
          case Staged(stage) =>
            var problem := Inspect(stage, at.revision, at.directory);
            if problem.Some? {
              return Err(FetchFailed);
            }
            snapshots := snapshots[at := stage];
            published := true;
        }
      }
      assert repositories[..2] == repositories;
      return Ok(published);
    }
  }

  /**
   Serve the locked schemas from disk: the committed lock must exist and match the policy,
   and both its snapshots must pass inspection.
   */
  ghost function Locations(
    workspace: string, policy: Option<Policy>, lock: Option<Lock>, snapshots: map<Destination, Checkout>)
    : (r: Result<seq<Destination>, LockError>)
    ensures r.Ok? <==>
      policy.Some? && lock.Some? && Matches(workspace, policy.value, lock.value) && Serves(snapshots, lock.value)
  {
    if policy.None? then Err(NoPolicy)
    else if lock.None? then Err(NoLock)
    else if !Matches(workspace, policy.value, lock.value) then Err(PolicyMismatch)
    else
      var repositories := Repositories(lock.value);
      if exists i ::
          0 <= i < 2 && repositories[i] in snapshots && !Verified(repositories[i], snapshots[repositories[i]]) then
        Err(Store(Corrupt(if repositories[0] in snapshots && !Verified(repositories[0], snapshots[repositories[0]])
                          then repositories[0] else repositories[1])))
      else if exists i :: 0 <= i < 2 && repositories[i] !in snapshots then Err(Store(NotCached))
      else Ok(repositories)
  }
}
