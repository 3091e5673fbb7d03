# Verification of chart-manager's core logic

This project models the parts of chart-manager whose correctness is a matter of logic rather
than of talking to a cluster, and proves what they promise:

- **Strict schema compilation** (`JsonSchema`, `StrictSchema`, `SchemaNode`, `CanonicalSchema`,
  `CrdEnvelope`, `CrdSchemas`): what a JSON Schema accepts, the in-place rewrite of a CRD's schema
  tree and its exact meaning, the text it is written as, the resource envelope, and the merge of CRD
  providers with conflict detection.
- **Pinned snapshots and the derived cache** (`RepositorySnapshot`, `SchemaStore`, `SchemaProtocol`,
  `GeneratedCache`): inspection against the pinned Git tree, the store's operations, the publish
  protocol as interleaved processes that may crash at any step, and a fingerprinted cache that
  agrees with rendering everything afresh.
- **The parallel validate runner** (`ValidateRunner`): row threads, the memoised schema load and the
  per-chart dependency locks as a step relation over threads.
- **Install ordering** (`InstallPlan`, `LocalConverge`, `ConvergeRun`): the depth-first planner,
  preflight with bootstrap ownership and deduplication, and the accounting of a converge run.
- **Change selection** (`Glob`, `Select`, `DependencyIndex`, `DependencyFreshness`): the `**` matcher,
  the reasons for which changed files select rows, and the local dependency index.
- **Promotion** (`PromotionState`, `Classify`, `Monitor`, `Fanout`, `PromotionTiming`, `PromotionRun`):
  the verdict fold, the status classifier, the watcher with its three budgets, the fan-out inside its
  telemetry bracket, and how long a whole run can take.
- **Versions** (`SemVer`, `Publish`, `Changelog`, `Finalize`): the SemVer 2.0.0 grammar, printing and
  precedence, preview suffixes, and the upgrade finalizer.

`Ordering`, `AsciiCase` and `Wrappers` are shared: orders, stable sorting, case folding, `Option` and
`Result`.
`dafny verify dfyconfig.toml` checks everything.

Code that changes things step by step is modelled imperatively (classes, loops, in-place updates)
and proved against a specification function or an if-and-only-if; concurrent code is a state
machine whose runs are sequences of states related by steps. Calls to git, helm, kubectl, the
registry and the clock are parameters: functions or sequences of replies about which nothing is
assumed but what a lemma's `requires` says.

## Where the code and its documentation differ

The model follows the code. The differences found are lemmas with a concrete input:

- `Changelog.PreambleIsLost`: text above the first `## ` section of a changelog survives one
  finalize run and is deleted by the next. `Changelog.RewriteIsFixpoint` gives the exact condition
  under which a second run changes nothing.
- `Classify.SameSignatureOtherPhase`: the dedupe key of a waiting transition is documented as
  describing the situation, but two statuses with the same key can be in different phases, since the
  key omits the generation and the history version. `Classify.SamePhaseExactly` and
  `Classify.SignatureSettlesPhase` say exactly when the phases agree.
- `Monitor.ListingFailuresFillTheBuffer`: a workload listing that keeps failing is documented to be
  recorded once; it is recorded at every poll, together with the wait it interrupts, so three polls
  fill the five-entry buffer. Failing status reads are recorded once, as documented.
- `GeneratedCache.StaleLoadPoisonsCache`: a chart is loaded when the providers are listed and
  fingerprinted later, so an edit in between can be cached under the new fingerprint with the old
  environment list. `GeneratedCache.WrittenIsSound` gives the exact condition: the two lists agree.
- `CrdEnvelope.OpenedForgets`: authored metadata is documented to keep its constraints, but an authored
  `additionalProperties` is overwritten. `CrdEnvelope.OpenedKeeps` says exactly which documents that
  lets in.
- `Publish.PushedTwice`: a publish is documented to yield one row per chart, but names are compared as they
  are spelled, so `grafana` and `grafana/` give two rows and two pushes to one reference.
  `Publish.ReferencesEqual` says exactly when two names share a reference, and
  `Publish.ReferencesDistinct` that plain directory names never do.
- Without a `*` a path pattern is compared literally, so `?` and `[` mean something only in a
  pattern that also has a `*` (`Glob.LiteralIsSubtree`).
- The schema load of the validate runner is documented to happen on first use and its first error to
  be remembered; an exception outside chart-manager's own error type is not remembered, so the next
  row loads again. `ValidateRunner.LoadedTwice` is such a run, and `ValidateRunner.LoadedOnce` says
  exactly when the load is attempted at most once.

One property holds only under a condition without anything promising more: folding the verdicts of two
batches and then folding the results is folding everything at once, unless an empty batch stands beside
one in which everything is suspended (`PromotionState.VerdictsCompose`, and
`PromotionState.EmptyBatchDoesNotCompose` for that case).

## Model

| member | source | states |
|---|---|---|
| StrictSchema.StrictMeaning | src/chart_manager/commands/validate/schemas/crd.py:152-224 | Outside a fragment, a document is accepted by the compiled schema exactly when the input schema admits it (reading `nullable` as "null, or the rest, with `enum` always applied" and int-or-string as "integer or string") and it has no undeclared field at any object the compiler closes. |
| StrictSchema.FragmentMeaning | src/chart_manager/commands/validate/schemas/crd.py:186-205 | Inside a combinator fragment the rewrite is an equivalence: the compiled schema accepts exactly the documents the input admits. |
| StrictSchema.ClosingMeaning | src/chart_manager/commands/validate/schemas/crd.py:206-214 | Adding `additionalProperties: false` where none is given removes exactly the documents with an undeclared field and changes nothing else. |
| StrictSchema.WrappedMeaning | src/chart_manager/commands/validate/schemas/crd.py:216-224 | Moving a nullable node under `anyOf` with the enum kept outside accepts null or the rest, both under the enum. |
| StrictSchema.StrictOnlyStrengthens | src/chart_manager/commands/validate/schemas/crd.py:152-224 | A document the compiled schema accepts is one the input admits; the compiler never lets a new document in. |
| StrictSchema.StrictIdempotent | src/chart_manager/commands/validate/schemas/crd.py:152-224 | Compiling a compiled schema changes nothing, at any depth and in either position, although wrapping moves whole subtrees into fragment position. |
| StrictSchema.StrictSettles | src/chart_manager/commands/validate/schemas/crd.py:158-224 | Nothing in a compiled tree still asks to be rewritten: no `nullable`, and int-or-string nodes carry their type. |
| StrictSchema.StrictShuts | src/chart_manager/commands/validate/schemas/crd.py:206-214 | Every object outside a fragment of a compiled tree says what happens to undeclared fields. |
| SchemaNodes.SchemaNode.Walk | src/chart_manager/commands/validate/schemas/crd.py:158-224 | The in-place rewrite of a node and everything below it leaves the tree that the specification assigns to the tree it started from, and touches only nodes of that tree. |
| SchemaNodes.SchemaNode.WalkEntries | src/chart_manager/commands/validate/schemas/crd.py:161-204 | Walking the children in place rewrites each with its own fragment flag and keeps the node's keywords and slots. |
| SchemaNodes.SchemaNode.WalkEntry | src/chart_manager/commands/validate/schemas/crd.py:165-165 | Walking one child leaves every sibling's subtree as it was. |
| SchemaNodes.SchemaNode.Close | src/chart_manager/commands/validate/schemas/crd.py:208-214 | Closing appends the refusal of undeclared fields and keeps every other child. |
| SchemaNodes.SchemaNode.Unwrap | src/chart_manager/commands/validate/schemas/crd.py:219-224 | The node keeps its identity and its enum, and everything else moves to a fresh node beside a null alternative. |
| SchemaNodes.SchemaNode.OfferNull | src/chart_manager/commands/validate/schemas/crd.py:220-224 | `clear` and refill: the old content sits under the second alternative, without the enum. |
| CrdEnvelope.GeneratedMeaning | src/chart_manager/commands/validate/schemas/crd.py:94-135 | For every well-formed authored schema: a generated schema accepts a document exactly when it meets the CRD's own words with the envelope fields counted as declared, is a resource of that group, version and kind with metadata wherever the CRD does not author the envelope itself (an authored `apiVersion` or `kind` stands as authored, an authored `metadata` opened), and has no undeclared field at a closed object. |
| CrdEnvelope.AuthoredMeaning | src/chart_manager/commands/validate/schemas/crd.py:94-127 | How far completing departs from the authored schema: exactly the unopened metadata, and an authored `additionalProperties` asked of envelope fields the CRD does not declare. |
| CrdEnvelope.GeneratedPlain | src/chart_manager/commands/validate/schemas/crd.py:94-135 | A CRD that authors neither metadata nor `additionalProperties` at its root gets exactly: the authored schema, the missing envelope, and no undeclared field at a closed object. |
| CrdEnvelope.EnvelopeKidsByMember | src/chart_manager/commands/validate/schemas/crd.py:103-127 | The completed properties ask exactly what the authored ones ask, metadata opened, and what each missing envelope property asks; constraints and conditions are untouched. |
| CrdEnvelope.RequiredEnvelope | src/chart_manager/commands/validate/schemas/crd.py:129-134 | The sorted, deduplicated `required` list asks for the authored names and the three envelope names, no more. |
| CrdEnvelope.OpenObjectMeaning | src/chart_manager/commands/validate/schemas/crd.py:113-118 | The supplied metadata schema accepts exactly the objects, whatever their fields. |
| CrdEnvelope.OpenedMeaning | src/chart_manager/commands/validate/schemas/crd.py:119-124 | Opened metadata keeps every keyword and every declared field, is an object unless a type is authored, and lets any other field in. |
| CrdEnvelope.OpenedKeeps | src/chart_manager/commands/validate/schemas/crd.py:119-124 | For every document: it is authored metadata of the default type exactly when the opened schema admits it and the authored `additionalProperties` lets in its undeclared fields. So opening lets in only what that keyword refused, and refuses only what the default `type: object` refuses. |
| CrdEnvelope.OpenedKeepsOpen | src/chart_manager/commands/validate/schemas/crd.py:119-124 | Where the authored metadata says nothing about other fields, or admits them all, opening only gives the default type. |
| CrdEnvelope.OpenedForgets | src/chart_manager/commands/validate/schemas/crd.py:119-124 | Metadata authored as an object without any field lets every object with a field in, although the comment promises to keep authored constraints. |
| CanonicalSchema.CanonicalAccepts | src/chart_manager/commands/validate/schemas/crd.py:137-137 | Writing a schema as JSON with sorted keys changes nothing about the documents it accepts. |
| CanonicalSchema.CanonicalExactly | src/chart_manager/commands/validate/schemas/crd.py:137-137 | Two schemas are written alike exactly when they differ at most in the order of mappings, at any depth; the order of combinator lists, enums and nested `required` lists counts. |
| CanonicalSchema.StrictReordered | src/chart_manager/commands/validate/schemas/crd.py:152-224 | Schemas that differ only in the order of mappings compile to schemas that do, in either mode. |
| CrdEnvelope.MappingOrderIrrelevant | src/chart_manager/commands/validate/schemas/crd.py:94-137 | Authored schemas that differ only in the order of mappings, in how the root lists its required names, or in leaving out an empty `properties`, give the same text. |
| CrdSchemas.ContentMeaning | src/chart_manager/commands/validate/schemas/crd.py:94-137 | The content of an artifact accepts exactly the documents the generated schema is meant to accept. |
| CrdSchemas.DisagreeExactly | src/chart_manager/commands/validate/schemas/crd.py:30-36 | Two providers of one kind disagree exactly when more than the order of mappings tells their generated schemas apart. |
| CrdSchemas.AlikeNeverDisagree | src/chart_manager/commands/validate/schemas/crd.py:30-36 | Providers that author one kind alike up to mapping order emit the same artifact. |
| CrdSchemas.SchemasForCrd | src/chart_manager/commands/validate/schemas/crd.py:58-149 | A CRD yields a schema for exactly its served versions that carry one, or an error exactly when it is malformed: a version that is no mapping, or a served one with a schema and a bad name, schema, `properties`, `metadata` or `required`. |
| CrdSchemas.Merge | src/chart_manager/commands/validate/schemas/crd.py:23-55 | Merging keeps one artifact per kind and fails exactly when two of one kind differ in their sorted text. |
| CrdSchemas.GenerateCrdSchemas | src/chart_manager/commands/validate/schemas/crd.py:23-55 | Generation succeeds exactly when every CRD is well formed and no two disagree, and then yields exactly the emitted artifacts in key order; an error names a malformed CRD or a kind that really clashes. |
| CrdSchemas.ProviderOrderIrrelevant | src/chart_manager/commands/validate/schemas/crd.py:23-55 | Whatever the order of the providers, success, and on success the artifacts, are the same. |
| RepositorySnapshot.Inspect | src/chart_manager/integrations/kubeconform/repository_snapshot.py:84-130 | No problem is reported exactly when the checkout is clean: right revision, right sparse directory, a non-empty listing, every listed JSON file a regular file under real directories with the pinned bytes, and no JSON file besides. |
| RepositorySnapshot.CleanMeansEqual | src/chart_manager/integrations/kubeconform/repository_snapshot.py:84-130 | A clean checkout holds exactly the pinned JSON files with exactly the pinned bytes. |
| RepositorySnapshot.TamperingDetected | src/chart_manager/integrations/kubeconform/repository_snapshot.py:84-130 | Two checkouts of one revision that are both clean agree on every JSON path: any added, removed or changed file makes one of them fail inspection. |
| SchemaStore.Snapshots.Status | src/chart_manager/commands/validate/schemas/store.py:73-87 | Status counts the verified snapshots and lists exactly the missing and the corrupt ones. |
| SchemaStore.Snapshots.Sync | src/chart_manager/commands/validate/schemas/store.py:89-127 | Sync succeeds exactly when it can, leaves the store serving the lock, never touches a snapshot already there, publishes only what was verified, and reports whether it published. |
| SchemaStore.Snapshots.NothingWrong | src/chart_manager/commands/validate/schemas/lock.py:219-232 | Nothing missing and nothing corrupt means the lock is served. |
| SchemaStore.BuildLock | src/chart_manager/commands/validate/schemas/lock.py:83-111 | The lock that `update` writes matches the workspace policy it was built from. |
| SchemaProtocol.StepInv | src/chart_manager/commands/validate/schemas/store.py:89-142 | Every step of every process, crashes included, keeps the protocol invariant and only ever adds snapshots and committed locks. |
| SchemaProtocol.OnlyVerifiedVisible | src/chart_manager/commands/validate/schemas/store.py:103-126 | In every state of every interleaving with crashes, a visible snapshot is a verified one. |
| SchemaProtocol.SnapshotsImmutable | src/chart_manager/commands/validate/schemas/store.py:115-126 | Once visible, a snapshot stays and never changes. |
| SchemaProtocol.OneHydratesAtATime | src/chart_manager/commands/validate/schemas/store.py:129-142 | At most one process is between taking and dropping the file lock. |
| SchemaProtocol.SyncNeverReportsCorruption | src/chart_manager/commands/validate/schemas/store.py:89-110 | No process ever finds a corrupt snapshot that the protocol published. |
| SchemaProtocol.LockNeverAbandoned | src/chart_manager/commands/validate/schemas/store.py:129-142 | A held file lock belongs to a process that can take its next step. |
| SchemaProtocol.LockFileCommitted | src/chart_manager/commands/validate/schemas/lock.py:330-351 | The lock file is the one the run started with or one that `update` committed. |
| SchemaProtocol.CommittedLockServes | src/chart_manager/commands/validate/schemas/lock.py:65-111 | A lock file committed by `update` names two verified snapshots, so `locations` succeeds whenever the policy still matches. |
| ValidateRunner.StepInv | src/chart_manager/commands/validate/run.py:259-341 | Every step of every row thread keeps the lock and memo invariant. |
| ValidateRunner.LoadedOnce | src/chart_manager/commands/validate/run.py:259-277 | The schema load is attempted exactly once per attempt that an unremembered exception aborted, and once more when a result is remembered or a load is under way; hence at most once exactly when nothing was aborted, or the one abort has not been followed by another attempt. Every row that asked saw the remembered result. |
| ValidateRunner.LoadedTwice | src/chart_manager/commands/validate/run.py:259-277 | A concrete run of two rows on two workers: both charts render, the first row's load ends in such an exception while the second waits for the lock, and the second row loads again. |
| ValidateRunner.MemoIsFinal | src/chart_manager/commands/validate/run.py:259-277 | A remembered result or error never changes and nothing is loaded after it. |
| ValidateRunner.CheckedOnce | src/chart_manager/commands/validate/run.py:297-303 | Each chart has at most one successful dependency check. |
| ValidateRunner.LockOrder | src/chart_manager/commands/validate/run.py:259-303 | The schema lock is never waited for while a dependency lock is held. |
| ValidateRunner.TemplatesFollowUpdates | src/chart_manager/commands/validate/run.py:297-341 | Once a chart has been templated, no dependency update of it is running or ever runs again. |
| ValidateRunner.NoDeadlock | src/chart_manager/commands/validate/run.py:259-341 | Until every row is finished, some thread can take a step. |
| ValidateRunner.RunsEnd | src/chart_manager/commands/validate/run.py:50-118 | Every interleaving ends within a bound fixed by the rows and the renders of one load. |
| ValidateRunner.StuckMeansDone | src/chart_manager/commands/validate/run.py:50-118 | A run that cannot go on has left every lock free, and either every row ended with a result, or the first row that did not has raised: that exception is the run's. |
| ValidateRunner.RunCancels | src/chart_manager/commands/validate/run.py:101-102 | A row is cancelled before it begins only when an earlier row raised and every row before that one ended with a result. |
| GeneratedCache.DerivedSchemas.Prepare | src/chart_manager/commands/validate/schemas/generated.py:306-441 | A preparation writes back exactly the charts it may, and publishes exactly the files of the merged schemas, or fails exactly when two targets define a kind differently or one target contradicts itself. |
| GeneratedCache.DerivedSchemas.WriteCharts | src/chart_manager/commands/validate/schemas/generated.py:365-382 | Only charts rendered without failure whose inputs stayed stable are cached, under the fingerprint taken after rendering. |
| GeneratedCache.DerivedSchemas.Publish | src/chart_manager/commands/validate/schemas/generated.py:407-441 | A publish that ends leaves exactly this generation complete, whatever an earlier one left in its place; one that dies while staging, removing or before the rename leaves no other generation changed and never a complete one damaged. |
| GeneratedCache.MergeTargets | src/chart_manager/commands/validate/schemas/generated.py:383-391 | Targets are merged in order; the merge fails exactly when two contents under one kind differ. |
| GeneratedCache.AddTarget | src/chart_manager/commands/validate/schemas/generated.py:384-391 | Adding one target keeps one content per kind or finds the clash. |
| GeneratedCache.WrittenIsSound | src/chart_manager/commands/validate/schemas/generated.py:319-382 | What is cached under a fingerprint is what rendering that content yields, for every renderer, exactly when the chart that was loaded declares the environments of the chart that was fingerprinted. |
| GeneratedCache.ReachableSound | src/chart_manager/commands/validate/schemas/generated.py:207-251 | In every reachable cache state, upgrades of Helm or of chart-manager itself included, every entry that reads back holds what rendering its fingerprint yields; something is asked only of targets that were written. |
| GeneratedCache.CachedAgreesWithFresh | src/chart_manager/commands/validate/schemas/generated.py:306-441 | From every reachable cache, damaged entries included, a preparation publishes the same files, or fails the same way, as one that starts with an empty cache; only charts that hit the cache need to stay as they are while it runs. |
| GeneratedCache.UnstableNotWritten | src/chart_manager/commands/validate/schemas/generated.py:370-382 | A chart that failed to render, or whose inputs changed while it rendered, is never written. |
| GeneratedCache.StaleLoadPoisonsCache | src/chart_manager/commands/validate/schemas/generated.py:319-325 | A chart that gains an environment between loading and fingerprinting leaves an entry that lacks what its fingerprint renders: a concrete case in which every lifecycle is valid. |
| InstallPlan.Planner.Visit | src/chart_manager/shared/charts/install_plan.py:35-60 | A visit plans the key after everything it requires, leaves the stack of open visits as it was, and fails only with an error that names something the request really reaches. |
| InstallPlan.Planner.VisitRequired | src/chart_manager/shared/charts/install_plan.py:43-51 | Every requirement is planned before the visit goes on. |
| InstallPlan.Planner.Load | src/chart_manager/shared/charts/install_plan.py:45-49 | Loading through the per-plan memo gives what loading afresh gives. |
| InstallPlan.Plan | src/chart_manager/shared/charts/install_plan.py:24-63 | A plan is returned exactly when everything reachable installs and no cycle is reachable; it holds each reachable chart:profile exactly once, requirements first and the request last. |
| InstallPlan.ChainDescends | src/chart_manager/shared/charts/install_plan.py:35-60 | Along any requirement chain, positions in a plan strictly go down. |
| InstallPlan.PlannedMeansResolvable | src/chart_manager/shared/charts/install_plan.py:35-60 | A dependencies-first plan can exist only when nothing reachable is broken or circular. |
| LocalConverge.ResolveRelease | src/chart_manager/commands/local/run.py:366-372 | A lifecycle release resolves exactly when its request does, to the located entries of its plan. |
| LocalConverge.BootstrapPreflight | src/chart_manager/shared/cluster/bootstrap.py:95-124 | Bootstrap resolves to one step per release with requirements first and no chart-test hooks, and is refused only for a release that does not resolve or declares hooks. |
| LocalConverge.KeepFailsOnConflict | src/chart_manager/commands/local/run.py:373-387 | Keeping fails exactly when two entries that bootstrap does not own claim one chart directory differently; otherwise one entry per directory is kept and stands for every unowned entry. |
| LocalConverge.KeepPlan | src/chart_manager/commands/local/run.py:370-395 | The loop over one plan with its `seen` map keeps exactly what the specification keeps, or fails exactly where it does. |
| LocalConverge.KeepEntry | src/chart_manager/commands/local/run.py:373-394 | One entry is skipped, kept or refused by what `seen` says of its directory. |
| LocalConverge.Preflight | src/chart_manager/commands/local/run.py:352-395 | Preflight succeeds exactly when every lifecycle release resolves and no two unowned wanted entries disagree about a directory, whatever their order. |
| LocalConverge.KeptSatisfied | src/chart_manager/commands/local/run.py:352-395 | A requirement of a kept entry is satisfied earlier, by bootstrap or by what the target kept. |
| LocalConverge.Prepare | src/chart_manager/commands/local/run.py:218-229 | In the whole converge order every entry comes after its requirements, the target installs each chart directory at most once, and whatever the target names is installed under exactly the identity it names. |
| ConvergeRun.EveryReleaseOnce | src/chart_manager/commands/local/run.py:297-331 | Every planned release ends in exactly one of the three buckets, however many fail. |
| ConvergeRun.KnownMeansInstalled | src/chart_manager/commands/local/run.py:281-294 | A key counts as installed exactly when `helm list` showed it or this run converged it. |
| ConvergeRun.TriedAgainOnlyAfterFailure | src/chart_manager/commands/local/run.py:306-331 | With `--skip-installed`, a release is tried again only when every earlier try of it failed. |
| ConvergeRun.EverythingTried | src/chart_manager/commands/local/run.py:306-331 | Without it, every release is tried, in planned order. |
| ConvergeRun.Bootstrap | src/chart_manager/shared/cluster/bootstrap.py:62-79 | Bootstrap returns every outcome exactly when nothing fails, and otherwise stops at the first failure. |
| ConvergeRun.RunSummary.ConvergeOne | src/chart_manager/commands/local/run.py:297-331 | One release goes to the bucket its reply and the installed keys call for; a failure changes nothing else. |
| ConvergeRun.RunSummary.RecordBootstrap | src/chart_manager/commands/local/run.py:249-252 | Bootstrap outcomes fill the applied and unchanged buckets and the installed keys. |
| ConvergeRun.Converge | src/chart_manager/commands/local/run.py:232-278 | A bootstrap failure raises before any target release is tried; otherwise the summary accounts for every planned release and the cluster was asked for exactly the releases not skipped. |
| PromotionState.FoldVerdicts | src/chart_manager/commands/promote/state.py:182-195 | The scan over severities computes the run verdict. |
| PromotionState.RunVerdictMeaning | src/chart_manager/commands/promote/state.py:78-83 | Each run verdict says exactly which verdicts the releases have, worst first. |
| PromotionState.PassingRun | src/chart_manager/commands/promote/state.py:182-195 | The run verdict passes exactly when every release passes. |
| PromotionState.VerdictOrderIrrelevant | src/chart_manager/commands/promote/state.py:182-195 | The order of the outcomes does not matter. |
| PromotionState.VerdictsCompose | src/chart_manager/commands/promote/state.py:182-195 | Folding two batches and then their verdicts is folding everything at once exactly when neither is an empty batch beside one in which everything is suspended. |
| PromotionState.EmptyBatchDoesNotCompose | src/chart_manager/commands/promote/state.py:189-195 | The case that does not compose: a suspended batch beside an empty one folds to success. |
| PromotionState.GreenPhases | src/chart_manager/commands/promote/state.py:169-179 | PROMOTED or ROLLOUT_OK is recorded exactly for a run that passes and in which some release became ready or passed. |
| Classify.VerdictsExactly | src/chart_manager/commands/promote/classify.py:81-167 | READY, FAILED and SKIPPED are decided for exactly the statuses that say so, in that precedence. |
| Classify.WorkloadsDecideLast | src/chart_manager/commands/promote/classify.py:145-167 | Workloads are asked for exactly when nothing else is missing, and reading them ends in READY or a wait for named workloads. |
| Classify.NoNamesMeansConverged | src/chart_manager/commands/promote/classify.py:149-156 | No pending name is left exactly when every workload has converged. |
| Classify.SameSignatureOtherPhase | src/chart_manager/commands/promote/classify.py:174-182 | Two statuses with one dedupe key and different phases: the key omits the generation and the history. |
| Classify.SamePhaseExactly | src/chart_manager/commands/promote/classify.py:174-182 | Two waiting statuses with one dedupe key are in the same phase exactly when they lag alike in generation, then alike in history, and count as many pending workloads. |
| Classify.SignatureSettlesPhase | src/chart_manager/commands/promote/classify.py:174-182 | When each workload is listed once, the count follows from the key: the phase is the same exactly when the generations lag alike and, once caught up, the histories match alike. |
| Monitor.Evaluate | src/chart_manager/commands/promote/monitor.py:369-401 | One look ends the watch only with a verdict the status and the workloads just listed have earned, and records exactly the transitions its dedupe key calls for. |
| Monitor.Poll | src/chart_manager/commands/promote/monitor.py:403-432 | A read is a fresh status, the end when kubectl says not found, or a recorded flake. |
| Monitor.WatchState.Record | src/chart_manager/commands/promote/fanout.py:99-116 | The bounded buffer holds the last five transitions recorded. |
| Monitor.WatchState.RecordDeduped | src/chart_manager/commands/promote/monitor.py:454-471 | A transition is recorded unless the previous one had the same key. |
| Monitor.PollUntilTerminal | src/chart_manager/commands/promote/monitor.py:273-350 | The watch ends within its evaluation and time bounds, the bound after a cancellation included, for a reason that its last observation explains; a timeout means the last status read was still waiting. |
| Monitor.Watch | src/chart_manager/commands/promote/monitor.py:241-271 | At most ceil(per_hr/3)+1 evaluations; the loop ends no later than max(start, deadline) + 3s + two polls, and no later than max(start, cancellation) + 3s + two polls. The duration reported is that of the loop. The worker is free after the event calls of a verdict that does not pass, at most six polls later, and at once otherwise. READY carries a converged, unsuspended, unbroken status and the workloads just listed, all converged. |
| Monitor.ComposeDiagnostics | src/chart_manager/commands/promote/monitor.py:566-588 | The report asks for the namespace's events when a namespace is known, then for those of the first five workloads still pending, in order, and takes no longer than those calls. |
| Monitor.PollFailuresRecordedOnce | src/chart_manager/commands/promote/monitor.py:454-471 | A read that keeps failing the same way is recorded once. |
| Monitor.ListingFailuresFillTheBuffer | src/chart_manager/commands/promote/monitor.py:384-401 | A listing that keeps failing the same way is recorded at every look, twice: the dedupe does not hold there. |
| PromotionTiming.WatchOne | src/chart_manager/commands/promote/monitor.py:241-271 | Whenever the pool takes a watch up, its worker is free within 3s and eight polls of the total deadline, and of the cancellation once the flag is set, or of its own start. |
| PromotionTiming.WatchAll | src/chart_manager/commands/promote/monitor.py:208-226 | Every watch of a run frees its worker within that grace. |
| Monitor.WorkerGraceIs | src/chart_manager/commands/promote/monitor.py:473-588 | The grace of a worker is 3s and eight polls: two in the loop and six for events. |
| PromotionTiming.RunEnds | src/chart_manager/commands/promote/fanout.py:183-233 | A fan-out over n releases with w workers is over within ceil(n / w) worker graces after its total deadline, and after a cancellation, whatever the cluster answers. |
| PromotionTiming.RoundIsCeiling | src/chart_manager/commands/promote/fanout.py:205-206 | The rounds counted are ceil(n / w). |
| Fanout.RunFanout | src/chart_manager/commands/promote/fanout.py:183-233 | Outcomes are appended in completion order up to the first worker that raises; the cancel flag is set exactly by a bad outcome, the deadline or a crash. |
| Fanout.CollectedPermutes | src/chart_manager/commands/promote/fanout.py:208-227 | Two completion orders of the same workers collect the same outcomes, each as often. |
| Fanout.SortedUnique | src/chart_manager/commands/promote/fanout.py:236-242 | Sorted by reference, the same outcomes give the same tuple when references differ. |
| PromotionRun.RunMatched | src/chart_manager/commands/promote/fanout.py:245-369 | Nothing matched: one synthetic outcome, no telemetry. Otherwise the interval opens once and is closed once by every end but an interrupt, with the folded verdict or, after a crash, with completed plus failures equal to matched and at least one failure. |
| PromotionRun.Conclude | src/chart_manager/commands/promote/fanout.py:348-359 | A finished run has exactly one outcome per matched release, in reference order, and closes with their folded verdict and failure count. |
| PromotionRun.PromotionTelemetry.Finished | src/chart_manager/commands/promote/telemetry.py:82-97 | Closing emits the terminal phases of the stage and verdict in order, and nothing without an environment. |
| PromotionRun.PromotionTelemetry.Started | src/chart_manager/commands/promote/telemetry.py:78-80 | Opening emits the start phase of the stage, and nothing without an environment. |
| PromotionRun.CompletionOrderIrrelevant | src/chart_manager/commands/promote/fanout.py:236-242 | The same reports in any completion order give the same outcomes when no two releases share a reference. |
| PromotionRun.OkMeansAllPassing | src/chart_manager/commands/promote/fanout.py:160-175 | `ok`, no failures, and a passing run verdict are one and the same. |
| PromotionRun.CutExactlyOnFailure | src/chart_manager/commands/promote/monitor.py:144-152 | Inside its deadline a run is cut short exactly when fail-fast is on and some release failed or timed out; a skip never cuts it. |
| PromotionRun.PromotedMeansOk | src/chart_manager/commands/promote/telemetry.py:82-97 | A finished run records PROMOTED or ROLLOUT_OK exactly when it is ok and some release was not merely suspended. |
| Glob.MatchesIffLaid | src/chart_manager/shared/workspace.py:86-99 | A pattern matches exactly when its segments can be laid over the whole path, each `**` over any number of segments and every other one over a single segment it matches. |
| Glob.Matcher.Match | src/chart_manager/shared/workspace.py:86-99 | The memoised recursion answers what the plain one does, from any cache it has filled. |
| Glob.PatternMatches | src/chart_manager/shared/workspace.py:78-101 | The matcher means what the pattern says: a glob when a `*` occurs anywhere, otherwise that path and everything below it. |
| Glob.LiteralIsSubtree | src/chart_manager/shared/workspace.py:82-84 | Without a `*` a pattern is the literal path followed by `**`; `?` and `[` are not special there. |
| Glob.DoubleStar | src/chart_manager/shared/workspace.py:91-94 | `**` twice in a row means `**` once. |
| Select.Triggered | src/chart_manager/commands/validate/select.py:243-262 | The trigger loop selects exactly the environments the merged triggers pick, or all of them when nothing matched and the chart asks for that. |
| Select.AddChange | src/chart_manager/commands/validate/select.py:202-230 | One changed file adds exactly its own contribution to each row and is reported as ignored or unmatched exactly when it is. |
| Select.ReasonsFor | src/chart_manager/commands/validate/select.py:156-235 | Each row gets exactly the reasons of the changed paths that select it, in path order, and rows without reasons are absent. |
| Select.UnionHomomorphism | src/chart_manager/commands/validate/select.py:156-235 | A row's reasons under A + B are the merge, by changed path, of its reasons under A and under B. |
| Select.OrderIrrelevant | src/chart_manager/commands/validate/select.py:189-189 | Order and repetition of the change list do not matter. |
| Select.SelectedIsDeclared | src/chart_manager/commands/validate/select.py:85-117 | Every selected row is a declared environment of a chart with validation enabled, so it is in the selection without changes. |
| Select.FanoutSelectsAll | src/chart_manager/commands/validate/select.py:191-199 | One fan-out path among the changes selects every row, with that path among its reasons. |
| Select.SelectionGrows | src/chart_manager/commands/validate/select.py:156-235 | A row is selected by A + B exactly when A or B selects it. |
| Select.SelectRows | src/chart_manager/commands/validate/select.py:85-117 | The rows come in order and each selected row comes exactly once. |
| DependencyIndex.BuildDependencyIndex | src/chart_manager/shared/charts/dependencies.py:90-119 | A chart is indexed under a name exactly when it loads and declares a local dependency of that name other than its own. |
| DependencyFreshness.MaterializedIdentities | src/chart_manager/shared/charts/dependencies.py:300-333 | The charts found, unless an entry is suspect or a chart is there twice. |
| DependencyFreshness.DependenciesAreFresh | src/chart_manager/shared/charts/dependencies.py:133-185 | Fresh exactly when the files are there, the recorded digest is that of the authored and locked lists, and every locked chart is materialised exactly once with nothing besides. |
| SemVer.PrintParse | src/chart_manager/plumbing/semver.py:14-67 | A text is accepted exactly when the grammar spells it, and every accepted text prints back unchanged. |
| SemVer.ParsePrint | src/chart_manager/plumbing/semver.py:34-67 | Every well-formed version reparses to itself. |
| SemVer.ReadSound | src/chart_manager/plumbing/semver.py:17-21 | What is read is well spelled and spells the text. |
| SemVer.ReadComplete | src/chart_manager/plumbing/semver.py:17-21 | Whatever the grammar spells is read back field by field. |
| SemVer.PrecedenceIsSection11 | src/chart_manager/plumbing/semver.py:42-52 | The sort key orders versions exactly as section 11 of SemVer 2.0.0 does. |
| SemVer.PrecedenceTotal | src/chart_manager/plumbing/semver.py:42-52 | Precedence is a total preorder; two versions tie exactly when they differ at most in build metadata. |
| SemVer.LexFirstDifference | src/chart_manager/plumbing/semver.py:42-52 | Tuple comparison is decided at the first difference, a proper prefix being smaller. |
| SemVer.NumberDecimal | src/chart_manager/plumbing/semver.py:14-14 | A number without leading zeros is the decimal of its value. |
| Publish.SuffixIdExactly | src/chart_manager/commands/publish/run.py:36-39 | A suffix identifier is a SemVer prerelease identifier that neither starts nor ends with a hyphen. |
| Publish.SuffixedParses | src/chart_manager/commands/publish/run.py:221-226 | A suffix is applied exactly when base and suffix are accepted; the result parses, with core and build kept and the prerelease extended. |
| Publish.SuffixedOrder | src/chart_manager/commands/publish/run.py:221-226 | The suffixed version sorts below a release base and above a prerelease base. |
| Publish.PreviewAccepted | README.md:201-203 | The suffix of a pull-request build is accepted for every alphanumeric commit. |
| Publish.LaterBuildSortsHigher | README.md:201-203 | A larger run number sorts higher, whatever the commits. |
| Publish.PublishedVersion | src/chart_manager/commands/publish/run.py:66-73 | Whatever is published has a SemVer version; a release is published as asked for or as declared, and a suffix makes a preview that sorts below a declared release and above a declared prerelease. |
| Publish.ReferencesEqual | src/chart_manager/commands/publish/run.py:124-141 | Two names asked for are pushed to one reference exactly when their paths end in one directory name and they are published at one version. |
| Publish.SamePathSameReference | src/chart_manager/commands/publish/run.py:58-97 | Two spellings of one chart directory prepare alike, to one reference. |
| Publish.ReferencesDistinct | src/chart_manager/commands/publish/run.py:58-97 | When every chart is asked for by the plain name of its directory, no reference is pushed to twice. |
| Publish.PushedTwice | src/chart_manager/commands/publish/run.py:58-97 | A chart asked for as `name` and as `name/` passes the request checks, gets two equal rows, and is pushed twice to one reference. |
| Publish.Prepare | src/chart_manager/commands/publish/run.py:124-141 | A chart is prepared exactly when it loads under the name of its directory, declares a version, the target version is valid, and it packages; its row names the loaded chart, that version and its reference. |
| Publish.Run | src/chart_manager/commands/publish/run.py:42-121 | A run succeeds exactly when the request makes sense (charts named, an OCI repository, not both version and suffix, a version only for one chart and only SemVer, no suffixed release) and every chart prepares; otherwise nothing is pushed. Then there is one row per chart, a failed push stops no other, and a dry run pushes nothing. |
| Publish.PushAll | src/chart_manager/commands/publish/run.py:144-165 | Exactly the rows whose push succeeds reach the registry, in order, and the others lose their reference. |
| Changelog.RewriteIsFixpoint | src/chart_manager/commands/upgrade/finalize.py:334-348 | Rewriting again changes nothing exactly when the section was there, or the file was empty but for newlines, or its first line after them is a section heading. |
| Changelog.PreambleIsLost | src/chart_manager/commands/upgrade/finalize.py:334-348 | Text above the first section survives the first rewrite and is deleted by the second: the concrete case. |
| Changelog.OtherSectionsKept | src/chart_manager/commands/upgrade/finalize.py:334-348 | The rewrite changes this heading's own section, or puts one first, and drops at most leading newlines of the rest. |
| Changelog.SplitConcat | src/chart_manager/commands/upgrade/finalize.py:340-348 | Joining lines that kept their ends and splitting again gives the same lines. |
| Finalize.LooseMajorExactly | src/chart_manager/commands/upgrade/finalize.py:329-331 | The loose major is the number of the first digit run that a dot and a digit follow. |
| Finalize.TargetAboveBaseline | src/chart_manager/commands/upgrade/finalize.py:224-229 | The target is always above the baseline and depends only on it and on which updates there are. |
| Finalize.DecidedAgain | src/chart_manager/commands/upgrade/finalize.py:206-235 | A decision made from the baseline is made again from its own target. |
| Finalize.DiffExactly | src/chart_manager/commands/upgrade/finalize.py:297-326 | Without metadata, an update is inferred for exactly the dependencies in both documents whose version moved, and it qualifies. |
| Finalize.EntryIsOneSection | src/chart_manager/commands/upgrade/finalize.py:351-363 | A changelog entry is one heading and lines that start no other section. |
| Finalize.ReadAgain | src/chart_manager/commands/upgrade/finalize.py:244-246 | Text once read back has no carriage return, and reading it again changes nothing. |
| Finalize.ChartDirectory.Finalize | src/chart_manager/commands/upgrade/finalize.py:124-203 | A run decides, then writes only the files whose text changes; when it reports no change, no file changed. |
| Finalize.SecondWrite | src/chart_manager/commands/upgrade/finalize.py:238-262 | Writing again what was just written changes a file exactly when the changelog was not in a stable form. |
| Finalize.SecondRun | src/chart_manager/commands/upgrade/finalize.py:124-203 | A second run with the same baseline and updates picks the same version, and changes no file exactly when nothing qualified or the first changelog was in a stable form. |

## Left out

- Subprocesses, git, helm, kubectl, kind, kyverno, GitHub, DynamoDB and the registry: their replies are parameters.
- YAML, JSON and tar decoding: the models start from decoded documents.
- Real filesystem behaviour (symbolic links beyond what inspection tests, permissions, durability of a rename): a tree is a map from paths to contents.
- Digests: SHA-1 and SHA-256 are abstract and injective; Helm's dependency digest is a parameter.
- JSON Schema `$ref`, formats and numeric or string facets: an opaque predicate, since the compiler does not touch them.
- Aliased YAML nodes in a CRD: a schema document is a tree, so no node is rewritten twice.
- Keywords whose value has the wrong JSON type, below the checks that CRD generation makes: not representable in the schema tree.
- The text of a number: `1` and `1.0` in an authored `enum` are one value here, while the generated files differ. The `$schema` line is left out.
- Snapshot deletion from outside and a file lock that outlives its process: the protocol assumes neither.
- GeneratedCache.CachedAgreesWithFresh: assumes that rendering is deterministic, that no edit or upgrade restores an earlier state while a chart that is written is prepared, that such a chart without a fingerprint up front gets its dependencies from rendering alone, that every chart an earlier preparation wrote was loaded with the environments it was fingerprinted with, and that charts that hit the cache are not edited while the preparation runs; nothing is assumed of earlier charts that were not written, nor of those that miss the cache now.
- The scan of templates for possible CRD providers: taken as given that every real provider is a target; its conservativeness rests on Go template semantics.
- The manifest of current charts written next to the derived cache: presentation for cache pruning, read by nothing modelled here.
- Report text, log lines, timestamps and progress rendering; transition details are not kept.
- `promote test`'s helm pipeline: only its verdict reaches the fan-out, as a parameter.
- JSON Schema drafts: every keyword is read as the newest draft that has it defines it, while the generated files declare draft-07, under which `prefixItems` and `dependentSchemas` say nothing; `items` is read as applying to every element.
- Verbose and fail-fast validation: rows one at a time, in which a fail-fast run reports the rows after a failed one as skipped; of a check after the schemas, only whether it raises.
- InstallPlan.Plan: keys are the authored spellings, as in the code, so `b` and `./b` are two keys of one chart; what local converge compares are resolved paths and loaded names.
- Threads of the fan-out pool: a run is a completion order and each worker's report, and for time a schedule in which no worker idles while a release waits; the worker that finishes its current call first is inside the bound on one poll.
- Monitor.Watch: time passes in sleeps and kubectl calls only; recording and composing text take none, and both reads of the clock at the deadline give the same time. The telemetry written after the fan-out is outside its bound.
- The promotion's request validation (`check_request`) and the preflight reports of the doctor: single-branch checks.
- The lifecycle events of a publish and the log lines around it.
- Select: paths are given as their segments; release and namespace of a row are presentation.
- `fnmatch` itself: a parameter of the matcher and of selection.
- Python's limit of 4300 digits on `int(str)`: version numbers are unbounded.
- Case folding and digits beyond ASCII in the upgrade finalizer.
- The YAML editor that writes Chart.yaml's version: the version text is replaced and nothing else.
- Readiness gates after a bootstrap release: a failure there raises like a failed release.
- The dashboard, the event stores, settings and the command-line surfaces.
