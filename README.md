# declastruct, modelled in Dafny

declastruct reconciles declared infrastructure resources against their
remote state. It has two engines, and this project models the core of both.

**The current engine** (`src/domain.operations`, `src/domain.objects`):
- It routes each declared resource to the one provider whose DAO serves its class.
- It reads the resource's remote state by unique key and computes a change (CREATE, UPDATE, KEEP, DESTROY or REPLACE).
- It assembles the changes into a plan stamped with a hash.
- On apply, it re-plans, refuses a stale plan, and walks the plan's changes through the DAOs' `findsert`, `upsert` and `delete`.
- The module also covers the DAO factory with its ref conversions, the displayable diff, and the deletion marker.

**The legacy engine** (`src/logic`):
- It builds references to declared resources by unique or primary key, and looks resources up by reference through the first provider that serves their class.
- It resolves references into a common comparable form.
- It renders references as short "grokable" strings.
- It proposes a change per resource and executes the proposals against a remote-state interface.
- It counts the proposed actions for the plan command's summary.

How the model represents the system:
- **Values.** A JavaScript value is a `Values.Value`. An object is an ordered list of fields, because key order is observable: it decides what `JSON.stringify` writes, the order of a diff's keys and the order of flattened keys.
- **Remote state, current engine.** A map from identity (class name plus unique-key values) to resource, behind the `Applying.RemoteStore` class.
- **Remote state, legacy engine.** A sequence of stored resources, behind `LegacyProposals.LegacyRemote`. A lookup finds the first stored resource of the class that carries every value of the key.
- **Foreign calls are parameters:**
  - the slug of a resource;
  - the hash of the changes;
  - the clock;
  - the legacy difference detector.

One file per module:

| file | module | models |
|---|---|---|
| wrappers.dfy | Wrappers | `Option`, `Result` |
| values.dfy | Values | JSON-like values, ordered objects, key projection (`Pick`), `omit` (`Without`) |
| resources.dfy | Resources | resource classes, refs, the identity-keyed store, the DAO read/write semantics |
| changes.dfy | Changes | `computeChange`, `computeDiff`, `resourcesAreEquivalent` |
| display_diff.dfy | DisplayDiff | `getDisplayableDiff` and its key ordering |
| routing.dfy | Routing | `getDaoByResource` |
| daos.dfy | Daos | `genDeclastructDao`, `getRefByPrimary`, `getRefByUnique` |
| planning.dfy | Planning | `planChanges`, `assertPlanStillValid`, `extractResourcesFromPlan` |
| applying.dfy | Applying | `applyChange`, `applyChanges`, and convergence of apply-then-replan |
| deletion.dfy | Deletion | `del`, `isMarkedForDeletion` |
| legacy_references.dfy | LegacyReferences | key constituents, `buildUniqueKeyTo`, `buildPrimaryKeyTo`, `buildReferenceTo`, `getReferenceTo`, `isUniqueKeyReference`, the legacy errors |
| legacy_providers.dfy | LegacyProviders | first-match provider routing, provider contexts, `canUpdateResource` |
| legacy_lookups.dfy | LegacyLookups | `getByReference` and the key-by-reference lookups |
| legacy_comparable.dfy | LegacyComparable | common-comparable-form resolution |
| legacy_grokable.dfy | LegacyGrokable | `castReferenceToGrokableString` |
| legacy_proposals.dfy | LegacyProposals | `proposeChangeForResource`, `executeProposal`, the apply command's loop |
| legacy_commands.dfy | LegacyCommands | the plan command: `countTimesActionRequired`, summary rows, the early return |

## Model

| member | source | states |
|---|---|---|
| Values.Keys | src/domain.operations/plan/getDisplayableDiff.ts:31 | `Object.keys`: one key per field, in field order |
| Values.Assign | src/logic/tools/compare/resolveReferencesToCommonComparableForm.ts:45 | after `obj[k] = v` the key is present and reads `v` |
| Values.AssignOther | src/logic/tools/compare/resolveReferencesToCommonComparableForm.ts:45 | assigning one key leaves every other key's presence and value as they were |
| Values.PickSpec | src/logic/tools/reference/buildUniqueKeyTo.ts:55-59 | the key projection holds exactly the listed keys, each with the input's value (undefined when absent) |
| Values.PickHasAll | src/logic/tools/reference/buildUniqueKeyTo.ts:55-59 | the projection carries every listed key |
| Values.PickAgree | src/logic/tools/reference/buildUniqueKeyTo.ts:55-59 | the projection reads only the listed keys: inputs agreeing on them project identically |
| Values.PickIdempotent | src/logic/tools/reference/buildUniqueKeyTo.ts:55-59 | projecting a projection onto the same keys changes nothing |
| Values.Without | src/domain.operations/plan/computeChange.ts:24-25 | `omit`: a field survives exactly when it was there and its key is not dropped |
| Values.Defined | src/domain.operations/plan/computeChange.ts:28-29 | what `JSON.stringify` writes: exactly the fields whose value is not undefined |
| Values.WithoutAssignDropped | src/domain.operations/plan/computeChange.ts:24-25 | overwriting or adding a dropped key is invisible after `omit` |
| Resources.RefByUnique | src/domain.operations/ref/getRefByUnique.ts:48 | `refByUnique(resource)` is unique-shaped for the resource's class |
| Resources.RefByPrimary | src/domain.operations/ref/getRefByPrimary.ts:41 | `refByPrimary(resource)` is primary-shaped for a class that declares a primary key |
| Resources.IdentityOf | src/domain.objects/DeclastructDao.ts:43-46 | a stored resource is addressed by its class name and one value per unique-key attribute |
| Resources.SameIdentity | src/domain.objects/DeclastructDao.ts:43-46 | refs agreeing on every unique-key attribute address the same stored resource |
| Resources.ByUnique | src/domain.objects/DeclastructDao.ts:43-46 | `get.one.byUnique` finds something exactly when the identity is stored, and finds what is stored there |
| Resources.ByPrimary | src/domain.objects/DeclastructDao.ts:54-57 | `get.one.byPrimary` finds something exactly when a stored resource of the class carries the ref's primary-key values, and only such a resource |
| Resources.Findsert | src/domain.objects/DeclastructDao.ts:105-112 | `findsert` keeps an existing resource with the same unique key, and otherwise inserts the new one |
| Resources.Upsert | src/domain.objects/DeclastructDao.ts:114-123 | `upsert` stores the resource under its unique key and leaves every other entry alone |
| Resources.Delete | src/domain.objects/DeclastructDao.ts:125-131 | `delete` removes exactly the entry under the ref's unique key |
| Changes.ComputeDiff | src/domain.operations/plan/computeChange.ts:39-60 | nothing exactly when both sides are null; a null side is diffed as `{}` |
| Changes.ComputeChange | src/domain.operations/plan/computeChange.ts:67-124 | CREATE iff remote is null; DESTROY iff only desired is null; KEEP iff both equivalent; UPDATE iff both differ; difference null iff KEEP, else the diff; states are the inputs; `forResource` from desired, else remote |
| Changes.MetadataOnlyDifferenceKeeps | src/domain.operations/plan/computeChange.ts:19-32 | a difference confined to a metadata attribute yields KEEP |
| DisplayDiff.RankIsIndexOf | src/domain.operations/plan/getDisplayableDiff.ts:37-41 | `indexOf`: the first position of the key, or past the end (Infinity) exactly when absent |
| DisplayDiff.InsertSorted | src/domain.operations/plan/getDisplayableDiff.ts:37-41 | inserting into a key-ordered list keeps it ordered |
| DisplayDiff.InsertStable | src/domain.operations/plan/getDisplayableDiff.ts:37-41 | insertion keeps equally ranked fields in their order |
| DisplayDiff.SortByKeyOrder | src/domain.operations/plan/getDisplayableDiff.ts:31-41 | the sort is ordered by rank, a permutation, and stable |
| DisplayDiff.AbsentKeysLast | src/domain.operations/plan/getDisplayableDiff.ts:40 | keys missing from the order come after every key it lists |
| DisplayDiff.SortKeepsSorted | src/domain.operations/plan/getDisplayableDiff.ts:37-41 | an already ordered list comes back unchanged |
| DisplayDiff.DesiredSideInOwnOrder | src/domain.operations/plan/getDisplayableDiff.ts:31 | the desired side is shown in its own key order |
| DisplayDiff.GetDisplayableDiff | src/domain.operations/plan/getDisplayableDiff.ts:9-45 | null iff both sides null or both serialize alike without readonly attributes; otherwise both sides (`{}` for null) as permutations ordered by the desired side's keys |
| DisplayDiff.ReadonlyOnlyDifferenceHidden | src/domain.operations/plan/getDisplayableDiff.ts:20-24 | resources differing only in a readonly attribute have no displayable difference |
| Routing.Candidates | src/domain.operations/plan/getDaoByResource.ts:26-32 | the candidates are exactly the providers with a DAO for the class, one per such provider |
| Routing.CandidatesOne | src/domain.operations/plan/getDaoByResource.ts:26-32 | one provider contributes its own entry when it has a DAO for the class, and nothing otherwise |
| Routing.CandidatesAppend | src/domain.operations/plan/getDaoByResource.ts:23-32 | candidates are collected provider by provider: the list of a concatenation is the concatenation of the lists, so provider order and multiplicity are kept |
| Routing.SingleClaimant | src/domain.operations/plan/getDaoByResource.ts:46-57 | a single claim identifies its provider: no other provider serves the class |
| Routing.NoClaimant | src/domain.operations/plan/getDaoByResource.ts:46-55 | no claim means no provider serves the class |
| Routing.GetDaoByResource | src/domain.operations/plan/getDaoByResource.ts:12-58 | succeeds iff exactly one provider serves the class, with that provider's DAO and context; more than one names the candidates; none lists every provider and what it serves |
| Routing.Names | src/domain.operations/plan/getDaoByResource.ts:40 | the candidates' names, in order |
| Routing.Summaries | src/domain.operations/plan/getDaoByResource.ts:50-53 | each provider's name with the classes it serves, in order |
| Routing.RoutingIgnoresAttributes | src/domain.operations/plan/getDaoByResource.ts:23 | routing depends on the class name only |
| Daos.GenDeclastructDao | src/domain.objects/genDeclastructDao.ts:164-243 | `ref.*` exists iff `byPrimary` was given; `byPrimary`, `upsert` and `delete` pass through as given |
| Daos.ByRef | src/domain.objects/genDeclastructDao.ts:173-189 | primary-shaped refs go to `byPrimary` when present (checked first), unique-shaped refs to `byUnique`, any other ref is a BadRequestError |
| Daos.PrimaryRefOf | src/domain.operations/ref/getRefByPrimary.ts:41 | a primary-key projection exists iff the class declares a primary key |
| Daos.GetRefByPrimary | src/domain.operations/ref/getRefByPrimary.ts:18-46 | a primary-shaped ref is returned as is; a unique-shaped one is fetched, a miss giving null and a hit its primary projection; any other ref is "invalid ref type" |
| Daos.GetRefByUnique | src/domain.operations/ref/getRefByUnique.ts:18-53 | a unique-shaped ref is returned as is; a primary-shaped one needs `byPrimary`, a miss giving null and a hit its unique projection; any other ref is "invalid ref type" |
| Daos.CallRefByPrimary | src/domain.objects/genDeclastructDao.ts:207-209 | `ref.byPrimary` is `getRefByPrimary` over the same DAO, and is not a function without `byPrimary` |
| Daos.CallRefByUnique | src/domain.objects/genDeclastructDao.ts:210-211 | `ref.byUnique` is `getRefByUnique` over the same DAO, and is not a function without `byPrimary` |
| Daos.GeneratedRefByUniqueHasByPrimary | src/domain.objects/genDeclastructDao.ts:195-212 | a generated DAO never reaches the "dao does not support byPrimary lookup" branch |
| Daos.RefRoundTrip | src/domain.operations/ref/getRefByUnique.ts:33-48 | primary ref to unique ref and back gives the original primary ref for a stored resource |
| Deletion.DeclaredInstance.constructor | src/domain.operations/del/del.ts:29-34 | a fresh resource carries no deletion flag |
| Deletion.DeclaredInstance.IsMarkedForDeletion | src/domain.operations/del/del.ts:29-34 | marked exactly when the flag is the boolean `true`; no flag, `false`, or a truthy string or number leaves the resource unmarked |
| Deletion.Del | src/domain.operations/del/del.ts:18-22 | `del` marks the object in place, returns that same object, and keeps its attributes |
| Deletion.DelTwice | src/domain.operations/del/del.ts:18-22 | `del(del(r))` is still marked and keeps every attribute |
| Planning.PlanResource | src/domain.operations/plan/planChanges.ts:41-54 | a routing error propagates; otherwise the change is `computeChange` of the resource and what `byUnique` finds |
| Planning.PlanAllSpec | src/domain.operations/plan/planChanges.ts:38-67 | the in-order map of a per-resource planner succeeds iff every resource plans, keeps length and order, and otherwise fails with the first failing resource's error |
| Planning.PlanChanges | src/domain.operations/plan/planChanges.ts:18-78 | succeeds iff every resource routes; change i is resource i's; none is DESTROY; hash of the changes, clock time, and wish URI stamped |
| Planning.ReplanSameHash | src/domain.operations/plan/planChanges.ts:70-76 | the hash depends only on the resources, the providers and the store: a replan with another wish-file URI and another clock succeeds with the same hash |
| Planning.AssertPlanStillValid | src/domain.operations/plan/validate.ts:10-26 | passes iff the hashes are equal; otherwise "plan is stale" with both hashes |
| Planning.ExtractResourcesFromPlan | src/domain.operations/plan/extractResourcesFromPlan.ts:10-19 | the non-null desired states, never more than the changes, each one some change's desired state |
| Planning.DesiredStates | src/domain.operations/plan/extractResourcesFromPlan.ts:14-16 | one resource per change with a desired state, each some change's desired state |
| Planning.DesiredStatesOne | src/domain.operations/plan/extractResourcesFromPlan.ts:14-16 | one change contributes its desired state when it has one, and nothing for null |
| Planning.DesiredStatesAppend | src/domain.operations/plan/extractResourcesFromPlan.ts:14-16 | desired states are collected change by change: the result for a concatenation is the concatenation of the results, so plan order is kept |
| Planning.ExtractResourcesInOrder | src/domain.operations/plan/extractResourcesFromPlan.ts:10-19 | plan order: change i's desired state is the extracted resource at the position counting the desired states before it |
| Planning.DesiredStatesAllPresent | src/domain.operations/plan/extractResourcesFromPlan.ts:14-16 | when every change has a desired state, extraction returns them all, in order |
| Planning.ExtractAfterPlan | src/domain.operations/plan/extractResourcesFromPlan.ts:14-16 | the resources extracted from a fresh plan are the resources it was made from |
| Applying.RemoteStore.constructor | src/domain.objects/DeclastructDao.ts:104-132 | the remote store starts with the given entries |
| Applying.RemoteStore.Findsert | src/domain.objects/DeclastructDao.ts:105-112 | the store becomes its `findsert` image |
| Applying.RemoteStore.Upsert | src/domain.objects/DeclastructDao.ts:114-123 | the store becomes its `upsert` image |
| Applying.RemoteStore.Delete | src/domain.objects/DeclastructDao.ts:125-131 | the store becomes its `delete` image |
| Applying.ApplyChangeOutcome | src/domain.operations/apply/applyChange.ts:16-119 | KEEP returns at once; a class mismatch fails before routing; a routing error fails as `Unroutable`; CREATE find-or-inserts the desired state; UPDATE needs `upsert` and upserts it; DESTROY needs `delete` and deletes the remote state; REPLACE needs `delete`, deletes the remote state and then find-or-inserts the desired state on the reduced store, a missing desired state failing after the delete with no rollback; a missing desired or remote state fails as `MissingDesired`/`MissingRemote`; every failure but that one leaves the store alone; success returns the change; OMIT is an unknown action |
| Applying.DestroyAndReplaceEffects | src/domain.operations/apply/applyChange.ts:72-112 | after a successful DESTROY the remote state's place is empty and everything else is kept; after a successful REPLACE the desired state is stored, in the remote state's place when they share the unique key, and every other resource is kept or was the deleted remote state |
| Applying.ApplyChange | src/domain.operations/apply/applyChange.ts:16-119 | the imperative dispatch returns and leaves exactly what `ApplyChangeOutcome` says |
| Applying.WalkChanges | src/domain.operations/apply/applyChanges.ts:46-80 | the loop over the plan's changes returns and leaves exactly what the walk says |
| Applying.FindResource | src/domain.operations/apply/applyChanges.ts:56-65 | the first resource with the change's class name and slug, or none when no resource has that tag |
| Applying.WalkStopsAtFailure | src/domain.operations/apply/applyChanges.ts:67-77 | once a change fails, later changes are never attempted |
| Applying.NonKeep | src/domain.operations/apply/applyChanges.ts:50-53 | the changes that are not KEEP, in plan order |
| Applying.WalkAppliesNonKeep | src/domain.operations/apply/applyChanges.ts:46-80 | a successful walk returns exactly the non-KEEP changes, in plan order |
| Applying.AllKeepAppliesNothing | src/domain.operations/apply/applyChanges.ts:48-53 | a plan of KEEP changes applies nothing and writes nothing |
| Applying.ApplyChangesOutcome | src/domain.operations/apply/applyChanges.ts:21-81 | re-plan with the plan's wish URI; routing failure or a stale hash fails before any write; success returns the non-KEEP changes |
| Applying.ApplyChanges | src/domain.operations/apply/applyChanges.ts:21-81 | the loop over the plan's changes returns and leaves exactly what `ApplyChangesOutcome` says |
| Applying.FindsOwnResource | src/domain.operations/apply/applyChanges.ts:56-61 | with distinct tags, a resource's own tag finds that resource |
| Applying.ApplyPlannedChange | src/domain.operations/apply/applyChange.ts:42-70 | a planned CREATE or UPDATE succeeds and leaves its resource stored |
| Applying.WalkStep | src/domain.operations/apply/applyChanges.ts:48-78 | one step of the walk over a plan made against the store keeps every earlier resource in place |
| Applying.WalkPlanned | src/domain.operations/apply/applyChanges.ts:48-78 | walking a plan made against the store applies every non-KEEP change |
| Applying.ApplyThenReplanKeepsAll | src/domain.operations/apply/applyChanges.ts:21-81 | after an apply, re-planning yields KEEP everywhere, and applying that plan changes nothing |
| LegacyReferences.IsArrayOfStrings | src/logic/tools/reference/defineReferenceKeyConstituentsOf.ts:19-23 | true iff the value is an array whose elements are all strings (an empty array passes; null and undefined fail) |
| LegacyReferences.Strings | src/logic/tools/reference/defineReferenceKeyConstituentsOf.ts:41-42 | the strings of an array of strings, element by element |
| LegacyReferences.DefineReferenceKeyConstituentsOf | src/logic/tools/reference/defineReferenceKeyConstituentsOf.ts:25-44 | succeeds iff both statics are arrays of strings; `primary` is checked first; both are returned as declared |
| LegacyReferences.Projection | src/logic/tools/reference/buildUniqueKeyTo.ts:55-59 | the reduce yields exactly the listed keys, with the input's values |
| LegacyReferences.BuildKey | src/logic/tools/reference/buildUniqueKeyTo.ts:46-60 | succeeds iff every key is present (membership); otherwise CanNotBuildReferenceError; the result is the projection |
| LegacyReferences.BuildUniqueKeyTo | src/logic/tools/reference/buildUniqueKeyTo.ts:36-61 | declaration errors propagate; a missing unique-key attribute fails; otherwise exactly the unique keys with the input's values |
| LegacyReferences.BuildPrimaryKeyTo | src/logic/tools/reference/buildPrimaryKeyTo.ts:36-61 | the same over the primary key |
| LegacyReferences.BuildReferenceTo | src/logic/tools/reference/buildReferenceTo.ts:102-144 | by unique key when the whole unique key is present, else by primary key, else CanNotBuildReferenceError; `referenceOf` is the class name |
| LegacyReferences.IsUniqueKeyReference | src/logic/tools/reference/isUniqueKeyReference.ts:6-20 | a reference is by unique key exactly when its key type is neither the primary key nor any other key type |
| LegacyReferences.UniqueKeyByKeyTypeOnly | src/logic/tools/reference/isUniqueKeyReference.ts:6-20 | two references with the same key type answer alike, whatever class they reference and whatever key values they carry |
| LegacyReferences.ReferencePrefersUnique | src/logic/tools/reference/buildReferenceTo.ts:116-135 | a built reference is by unique key iff the input carries the whole unique key |
| LegacyReferences.ReferenceRebuildsFromOwnKey | src/logic/tools/reference/buildReferenceTo.ts:116-135 | building a reference from a reference's own key gives that reference back |
| LegacyReferences.GetReferenceTo | src/logic/tools/reference/getReferenceTo.ts:39-79 | non-DomainObjects and non-entities are refused; otherwise `buildReferenceTo` on the resource's class, a build error rewrapped and any other passed on |
| LegacyProviders.FirstClaimant | src/logic/tools/provider/getProviderResourceRemoteStateInterfaceFromContextForResourceClass.ts:22-24 | the first provider, in list order, whose interfaces include the class; none when no provider has it |
| LegacyProviders.GetInterfaceForClass | src/logic/tools/provider/getProviderResourceRemoteStateInterfaceFromContextForResourceClass.ts:11-40 | fails iff no provider serves the class ("could not find provider"); otherwise the first claimant's interface for the class |
| LegacyProviders.ClaimedByMembers | src/logic/tools/provider/getProviderContextFromGlobalContextForResourceClass.ts:34-36 | a resource passes the filter exactly when it is declared and its class is served by the provider |
| LegacyProviders.ClaimedByOne | src/logic/tools/provider/getProviderContextFromGlobalContextForResourceClass.ts:34-36 | one resource passes exactly when its class is served |
| LegacyProviders.ClaimedByAppend | src/logic/tools/provider/getProviderContextFromGlobalContextForResourceClass.ts:34-36 | the filter of a concatenation is the concatenation of the filters, so declaration order and repetitions are kept |
| LegacyProviders.ClaimedByAll | src/logic/tools/provider/getProviderContextFromGlobalContextForResourceClass.ts:34-36 | resources all served by the provider pass the filter whole |
| LegacyProviders.GetProviderContextForClass | src/logic/tools/provider/getProviderContextFromGlobalContextForResourceClass.ts:18-44 | the same first claimant, its own resources, the log unchanged; the same error when none serves the class |
| LegacyProviders.InterfaceAndContextAgree | src/logic/tools/provider/getProviderContextFromGlobalContextForResourceClass.ts:25-27 | the interface and the provider context come from the same provider |
| LegacyProviders.CastProviderContextToGlobalContext | src/logic/tools/provider/castProviderContextToGlobalContext.ts:6-12 | the provider alone, its resources or `[]`, and the log |
| LegacyProviders.CastRoundTrip | src/logic/tools/provider/castProviderContextToGlobalContext.ts:6-12 | casting a provider context to a global one and routing back gives the same provider context |
| LegacyProviders.ExecutionDependencies | src/logic/tools/provider/getProviderResourceRemoteStateInterfaceExecutionDependenciesForResource.ts:13-51 | a non-entity fails before any lookup; otherwise both lookups by class name, paired, a missing provider failing |
| LegacyProviders.CanUpdateResource | src/logic/actions/execute/canUpdateResource.ts:6-19 | true iff the routed interface defines `update`; routing errors propagate |
| LegacyProviders.CanUpdateDependsOnClassOnly | src/logic/actions/execute/canUpdateResource.ts:11-18 | the answer depends only on the resource's class |
| LegacyLookups.Find | src/domain/DeclastructProviderResourceRemoteStateInterface.ts:64-74 | nothing iff no stored resource of the class matches the key; otherwise the first one that does |
| LegacyLookups.FindsSoleMatch | src/domain/DeclastructProviderResourceRemoteStateInterface.ts:64-74 | a resource that alone matches the key is what the lookup finds |
| LegacyLookups.GetByReferencedKey | src/logic/tools/reference/getByReferencedUniqueKey.ts:29-70 | the first serving provider's interface looks up the key; no provider is "could not find provider" |
| LegacyLookups.GetByReferencedPrimaryKey | src/logic/tools/reference/getByReferencedPrimaryKey.ts:6-41 | `findByPrimary` of the first serving provider's interface, its result (null included) unchanged |
| LegacyLookups.GetByReferencedUniqueKey | src/logic/tools/reference/getByReferencedUniqueKey.ts:8-71 | `findByUnique` of the first serving provider's interface, its result (null included) unchanged |
| LegacyLookups.GetByReference | src/logic/tools/reference/getByReference.ts:37-79 | primary-key references go to the primary lookup, unique-key ones to the unique lookup; any other key type is an invalid declaration |
| LegacyLookups.GetPrimaryKeyByReference | src/logic/tools/reference/getPrimaryKeyByReference.ts:22-58 | a primary-key reference gives its value without a lookup; a unique-key one is looked up, a miss a BadRequestError, a hit its primary key; others invalid |
| LegacyLookups.GetUniqueKeyByReference | src/logic/tools/reference/getUniqueKeyByReference.ts:22-58 | the mirror image; a miss is an error, never null |
| LegacyLookups.MatchesOwnKey | src/domain/DeclastructProviderResourceRemoteStateInterface.ts:64-74 | a stored resource matches its own projection onto any keys |
| LegacyLookups.KeyByReferenceRoundTrip | src/logic/tools/reference/getUniqueKeyByReference.ts:40-51 | primary key to unique key and back through the remote state gives the primary key again |
| LegacyComparable.ByReference | src/logic/tools/compare/resolveReferenceToCommonComparableForm.ts:56 | the resolver's look-up is `getByReference` against the context and remote state |
| LegacyComparable.LookUpUniqueReference | src/logic/tools/compare/resolveReferenceToCommonComparableForm.ts:56-70 | a successful look-up yields a unique-key reference |
| LegacyComparable.LookUpOutcomes | src/logic/tools/compare/resolveReferenceToCommonComparableForm.ts:56-70 | look-up errors propagate; a miss is a BadRequestError; a non-unique reference of the found resource is an unexpected code path |
| LegacyComparable.ResolveRef | src/logic/tools/compare/resolveReferenceToCommonComparableForm.ts:29-76 | a unique-key reference keeps `referenceOf` and key with its value resolved; others go through the look-up; the result is always by unique key and in common form |
| LegacyComparable.ResolveValue | src/logic/tools/compare/resolveReferencesToCommonComparableForm.ts:13-56 | literals and null unchanged; arrays keep length; objects keep their keys; domain objects keep their class; references go to the reference resolver |
| LegacyComparable.ResolveItems | src/logic/tools/compare/resolveReferencesToCommonComparableForm.ts:22-27 | a resolved array keeps its length and is in common form |
| LegacyComparable.ResolveFields | src/logic/tools/compare/resolveReferencesToCommonComparableForm.ts:37-46 | a resolved object keeps its keys in order and is in common form |
| LegacyComparable.ItemsElementwise | src/logic/tools/compare/resolveReferencesToCommonComparableForm.ts:22-27 | arrays resolve element by element, failing with the first failing element's error |
| LegacyComparable.FieldsElementwise | src/logic/tools/compare/resolveReferencesToCommonComparableForm.ts:39-46 | objects resolve key by key, failing with the first failing value's error |
| LegacyComparable.ResolveObjectFields | src/logic/tools/compare/resolveReferencesToCommonComparableForm.ts:37-46 | the key-by-key loop computes exactly the object branch |
| LegacyComparable.Resolve | src/logic/tools/compare/resolveReferencesToCommonComparableForm.ts:13-56 | the method computes exactly `ResolveValue` |
| LegacyComparable.RefInCommonFormFixed | src/logic/tools/compare/resolveReferenceToCommonComparableForm.ts:36-53 | a reference already in common form resolves to itself |
| LegacyComparable.CommonFormFixed | src/logic/tools/compare/resolveReferencesToCommonComparableForm.ts:13-56 | a value already in common form resolves to itself |
| LegacyComparable.ItemsInCommonFormFixed | src/logic/tools/compare/resolveReferencesToCommonComparableForm.ts:22-27 | an array in common form resolves to itself |
| LegacyComparable.FieldsInCommonFormFixed | src/logic/tools/compare/resolveReferencesToCommonComparableForm.ts:37-46 | an object in common form resolves to itself |
| LegacyComparable.ResolveIdempotent | src/logic/tools/compare/resolveReferencesToCommonComparableForm.ts:13-56 | resolving a resolved value again changes nothing |
| LegacyComparable.NoReferencesInCommonForm | src/logic/tools/compare/resolveReferencesToCommonComparableForm.ts:17-19 | a value with no reference anywhere is in common form |
| LegacyComparable.NoReferencesUnchanged | src/logic/tools/compare/resolveReferencesToCommonComparableForm.ts:13-56 | a value with no reference anywhere comes back equal |
| LegacyComparable.ResolvesThroughLookUp | src/logic/tools/compare/resolveReferenceToCommonComparableForm.ts:71-75 | a non-unique reference resolves as the unique reference its look-up gives |
| LegacyGrokable.IntToString | src/logic/tools/compare/castReferenceToGrokableString.ts:71 | a number is written with a sign and digits only |
| LegacyGrokable.JoinDots | src/logic/tools/compare/castReferenceToGrokableString.ts:77 | the joined string starts with its first part |
| LegacyGrokable.Flat | src/logic/tools/compare/castReferenceToGrokableString.ts:38 | flattening writes only leaves |
| LegacyGrokable.Flatten | src/logic/tools/compare/castReferenceToGrokableString.ts:38 | the flat object holds only booleans, numbers and strings |
| LegacyGrokable.StripMarker | src/logic/tools/compare/castReferenceToGrokableString.ts:49 | removing `identifiedBy.value.` matches never lengthens a key, and leaves a key without a match unchanged |
| LegacyGrokable.Rewrite | src/logic/tools/compare/castReferenceToGrokableString.ts:43-53 | a kept entry keeps its value |
| LegacyGrokable.HighSignal | src/logic/tools/compare/castReferenceToGrokableString.ts:42-54 | filtering never adds entries |
| LegacyGrokable.HighSignalOne | src/logic/tools/compare/castReferenceToGrokableString.ts:43-54 | an entry whose key contains `referenceOf` or `identifiedBy.key` is dropped; any other is kept with its value, under its key with `identifiedBy.value.` matches removed |
| LegacyGrokable.HighSignalAppend | src/logic/tools/compare/castReferenceToGrokableString.ts:42-54 | each entry is rewritten on its own and in order: the result for a concatenation is the concatenation of the results, for flat objects of any nesting depth |
| LegacyGrokable.HighSignalMembers | src/logic/tools/compare/castReferenceToGrokableString.ts:43-54 | an entry is in the result exactly when it is the rewrite of an input entry whose key is not metadata |
| LegacyGrokable.HighSignalLeaves | src/logic/tools/compare/castReferenceToGrokableString.ts:42-54 | the kept entries are still leaves |
| LegacyGrokable.Depth | src/logic/tools/compare/castReferenceToGrokableString.ts:57-58 | `split('.').length` is at least one |
| LegacyGrokable.DotlessDepth | src/logic/tools/compare/castReferenceToGrokableString.ts:57-58 | a key without dots has one part |
| LegacyGrokable.InsertByDepthSorted | src/logic/tools/compare/castReferenceToGrokableString.ts:55-62 | inserting into a depth-ordered list keeps it ordered |
| LegacyGrokable.InsertByDepthStable | src/logic/tools/compare/castReferenceToGrokableString.ts:55-62 | insertion keeps equally deep entries in their order |
| LegacyGrokable.SortByDepth | src/logic/tools/compare/castReferenceToGrokableString.ts:55-62 | the sort is by ascending depth, a permutation, and stable |
| LegacyGrokable.SortByDepthFlat | src/logic/tools/compare/castReferenceToGrokableString.ts:55-62 | equally deep entries come back in their order |
| LegacyGrokable.FromEntriesLeaves | src/logic/tools/compare/castReferenceToGrokableString.ts:41 | `Object.fromEntries` of leaves holds only leaves |
| LegacyGrokable.FromEntriesHasKeys | src/logic/tools/compare/castReferenceToGrokableString.ts:41 | `Object.fromEntries` has a key for every entry |
| LegacyGrokable.FromEntriesDistinct | src/logic/tools/compare/castReferenceToGrokableString.ts:41 | entries with distinct keys come back unchanged |
| LegacyGrokable.PlainJsonUnescaped | src/logic/tools/compare/castReferenceToGrokableString.ts:71 | `JSON.stringify` leaves a plain string's characters as they are |
| LegacyGrokable.SingleQuotesEscaped | src/logic/tools/compare/castReferenceToGrokableString.ts:72 | after escaping, every single quote has a backslash before it |
| LegacyGrokable.RequoteQuoted | src/logic/tools/compare/castReferenceToGrokableString.ts:73-74 | surrounding double quotes become single quotes |
| LegacyGrokable.RenderString | src/logic/tools/compare/castReferenceToGrokableString.ts:71-74 | a string renders between single quotes, its inner quotes escaped |
| LegacyGrokable.RenderNumber | src/logic/tools/compare/castReferenceToGrokableString.ts:71-74 | a number renders unquoted |
| LegacyGrokable.NoQuotesUnescaped | src/logic/tools/compare/castReferenceToGrokableString.ts:72 | escaping changes nothing in a string without single quotes |
| LegacyGrokable.RenderEntries | src/logic/tools/compare/castReferenceToGrokableString.ts:68-76 | one `key:value` part per entry |
| LegacyGrokable.GrokableEntries | src/logic/tools/compare/castReferenceToGrokableString.ts:38-63 | the listed pairs are leaves |
| LegacyGrokable.GrokableString | src/logic/tools/compare/castReferenceToGrokableString.ts:22-79 | fails iff the resolution fails, with its error; otherwise starts with `referenceOf` |
| LegacyGrokable.PrimaryAndUniqueRenderAlike | src/logic/tools/compare/castReferenceToGrokableString.ts:32-35 | a primary-key reference renders as the unique-key reference its look-up gives |
| LegacyGrokable.FlattenShallowReference | src/logic/tools/compare/castReferenceToGrokableString.ts:38 | a flat shallow unique-key reference is its two metadata keys, then its attributes under `identifiedBy.value.` |
| LegacyGrokable.HighSignalShallow | src/logic/tools/compare/castReferenceToGrokableString.ts:43-54 | metadata is dropped and attributes come back under their own names |
| LegacyGrokable.ShallowEntries | src/logic/tools/compare/castReferenceToGrokableString.ts:38-63 | a shallow unique-key reference lists its attributes, in order |
| LegacyGrokable.ShallowRendering | src/logic/tools/compare/castReferenceToGrokableString.ts:66-77 | a shallow unique-key reference renders as the class name and `name:value` parts joined by '.' |
| LegacyProposals.ChooseAction | src/logic/actions/propose/proposeChangeForResource.ts:45-70 | DO_NOTHING iff identical or no usable change; CREATE iff remote null; DESTROY iff desired null; UPDATE or REPLACE as the interface has `update`; routing errors propagate |
| LegacyProposals.ProposeChangeForResource | src/logic/actions/propose/proposeChangeForResource.ts:29-89 | remote state read through the resource's own reference; action chosen; grokable name; difference null iff DO_NOTHING; the remote-state lookup, action choice and grokable-name errors each propagate, in that order; when every step succeeds the proposal is made and its identifier is the grokable string |
| LegacyProposals.ProposalNeverDestroys | src/logic/actions/propose/proposeChangeForResource.ts:54 | a proposal for a declared resource is never DESTROY |
| LegacyProposals.SameStateDoesNothing | src/logic/actions/propose/proposeChangeForResource.ts:47-48 | a remote state equal to the desired state gives DO_NOTHING with no difference |
| LegacyProposals.MissingRemoteCreates | src/logic/actions/propose/proposeChangeForResource.ts:51 | no remote state gives CREATE with the displayable diff |
| LegacyProposals.FindByUnique | src/domain/DeclastructProviderResourceRemoteStateInterface.ts:64-74 | `findByUnique` looks up the resource's unique key; a key that can not be built fails |
| LegacyProposals.Overwrite | src/domain/DeclastructProviderResourceRemoteStateInterface.ts:167-181 | `update` replaces every stored resource of the class matching the key, keeping the others |
| LegacyProposals.LegacyRemote.constructor | src/domain/DeclastructProviderResourceRemoteStateInterface.ts:134-181 | the remote state starts with the given resources |
| LegacyProposals.LegacyRemote.Create | src/domain/DeclastructProviderResourceRemoteStateInterface.ts:134-144 | `create` stores the resource after every other |
| LegacyProposals.LegacyRemote.Update | src/domain/DeclastructProviderResourceRemoteStateInterface.ts:167-181 | `update` leaves the overwritten remote state |
| LegacyProposals.RoutedBy | src/logic/actions/execute/executeProposal.ts:15-19 | routing by the desired state, else the remote state |
| LegacyProposals.CreateThenFind | src/logic/actions/execute/executeProposal.ts:54-69 | `create` appends the desired state; the re-read's hit is returned, a miss fails as missing-after-create, a lookup error propagates |
| LegacyProposals.ExecuteOutcome | src/logic/actions/execute/executeProposal.ts:15-88 | a dependency error fails at once; DO_NOTHING reads and fails on a miss; CREATE returns a found resource unwritten, else creates; UPDATE needs `update`; DESTROY/REPLACE unsupported; only CREATE and UPDATE write |
| LegacyProposals.ExecuteBranches | src/logic/actions/execute/executeProposal.ts:21-83 | every branch once the interface is found: no desired state fails; DO_NOTHING returns the re-read or fails on a miss; CREATE returns what is found unwritten, else creates and returns the re-read, a miss after creating an error; UPDATE returns the desired state after `update` overwrites by its unique key |
| LegacyProposals.ExecuteProposal | src/logic/actions/execute/executeProposal.ts:15-88 | the method returns and leaves exactly what `ExecuteOutcome` says |
| LegacyProposals.FindKeepsFirstMatch | src/logic/actions/execute/executeProposal.ts:42-57 | storing resources after a match does not change what the lookup finds |
| LegacyProposals.CreatedIsFound | src/logic/actions/execute/executeProposal.ts:54-69 | a resource just created is found by its own unique key |
| LegacyProposals.CreateFindsWhatItCreated | src/logic/actions/execute/executeProposal.ts:57-69 | CREATE never fails with "could not find resource after creating it" |
| LegacyProposals.CreateTwiceCreatesOnce | src/logic/actions/execute/executeProposal.ts:42-54 | running CREATE again writes nothing and returns the same resource |
| LegacyProposals.ApplyStep | src/logic/commands/command.apply.ts:28-82 | DO_NOTHING changes nothing; DESTROY and REPLACE are logged without a write |
| LegacyProposals.ApplyChanges | src/logic/commands/command.apply.ts:17-88 | the loop returns and leaves exactly what the walk over the proposals says |
| LegacyProposals.ApplyStopsAtFailure | src/logic/commands/command.apply.ts:71-82 | after the first failure, later proposals are never attempted |
| LegacyProposals.Skipped | src/logic/commands/command.apply.ts:35-47 | the DESTROY and REPLACE proposals, in order |
| LegacyProposals.ApplyLogsSkipped | src/logic/commands/command.apply.ts:35-47 | a run that throws nothing logs exactly the DESTROY and REPLACE proposals |
| LegacyProposals.NothingToApply | src/logic/commands/command.apply.ts:31-47 | with no CREATE or UPDATE, nothing is written and nothing thrown |
| LegacyProposals.CreateKeepsResources | src/logic/actions/execute/executeProposal.ts:41-70 | a CREATE only appends, keeps earlier resources in place, and puts its own in place |
| LegacyProposals.CreatesLeaveResources | src/logic/commands/command.apply.ts:28-82 | applying CREATE proposals only appends and leaves each of their resources in place |
| LegacyProposals.ApplyWhenAllThere | src/logic/commands/command.apply.ts:28-82 | CREATE proposals whose resources are all in place apply as nothing |
| LegacyProposals.ReapplyingCreatesChangesNothing | src/logic/commands/command.apply.ts:28-82 | re-applying the same CREATE proposals writes and throws nothing |
| LegacyCommands.Bump | src/logic/commands/command.plan.ts:37-48 | one more for the class, the others unchanged, the class listed, the sum one higher |
| LegacyCommands.BumpKeepsShape | src/logic/commands/command.plan.ts:43-47 | counts stay positive and each class is listed once |
| LegacyCommands.CountTimesActionRequired | src/logic/commands/command.plan.ts:27-54 | the total is at most the number of proposals, the per-class counts sum to the total, and no more classes are listed than proposals counted |
| LegacyCommands.ListedInFirstSeenOrder | src/logic/commands/command.plan.ts:36-48 | the classes are listed in the order of the first proposal with the action for each, each once |
| LegacyCommands.BumpNames | src/logic/commands/command.plan.ts:43-47 | bumping a listed class keeps the listing; bumping a new class appends it last |
| LegacyCommands.ListedIffNamed | src/logic/commands/command.plan.ts:39-40 | a class is listed exactly when it is among the listed names |
| LegacyCommands.CountsAreRight | src/logic/commands/command.plan.ts:27-54 | `total` is the number of proposals with the action; `perResource` counts them per class, sums to `total`, lists each class once, with no zero |
| LegacyCommands.ListedIffProposed | src/logic/commands/command.plan.ts:39-46 | a class is listed iff some proposal with the action is for it |
| LegacyCommands.ListedIffCounted | src/logic/commands/command.plan.ts:39-46 | a class is listed iff its count is positive |
| LegacyCommands.TotalsCoverEveryProposal | src/logic/commands/command.plan.ts:173-194 | the five totals add up to the number of proposals |
| LegacyCommands.RowsFor | src/logic/commands/command.plan.ts:195-211 | rows only for actions required at least once, and one for each such action |
| LegacyCommands.SummaryIsRight | src/logic/commands/command.plan.ts:195-211 | a row for an action iff it is required; its total; no lines for DO_NOTHING; otherwise the per-class counts |
| LegacyCommands.SummaryCoversEveryProposal | src/logic/commands/command.plan.ts:173-211 | the rows' totals add up to the number of proposals |
| LegacyCommands.RowsTotal | src/logic/commands/command.plan.ts:196 | leaving out zero rows does not change the sum |
| LegacyCommands.WithChange | src/logic/commands/command.plan.ts:145-148 | exactly the non-DO_NOTHING proposals; empty iff all are DO_NOTHING |
| LegacyCommands.ProposerFor | src/logic/commands/command.plan.ts:73-128 | each resource's proposal is `proposeChangeForResource` against one context and remote state |
| LegacyCommands.ProposeAll | src/logic/commands/command.plan.ts:73-128 | proposals in resource order, one per resource |
| LegacyCommands.ProposeAllFailsAtFirst | src/logic/commands/command.plan.ts:73-128 | a failed run fails with the first failing resource's error |
| LegacyCommands.ProposeAllStopsAtFailure | src/logic/commands/command.plan.ts:73-128 | resources after a failing one do not change the outcome |
| LegacyCommands.Report | src/logic/commands/command.plan.ts:141-223 | all proposals returned; "up to date" iff full detail and all DO_NOTHING, then nothing else shown; otherwise the summary rows; detailed only in full detail and only changes |
| LegacyCommands.ProposeEach | src/logic/commands/command.plan.ts:73-128 | the loop over the resources computes exactly `ProposeAll` |
| LegacyCommands.PlanChanges | src/logic/commands/command.plan.ts:61-224 | proposes for every resource in order and returns the proposals with their report, or the first error |

## Left out

- Hashing (SHA-256 over `JSON.stringify`), the clock, resource slugs and jest-diff rendering are foreign calls. They are parameters: the hash is a function of the change list; the current diff is kept as the pair of stripped sides.
- The legacy difference detector is a parameter: a function of the desired and remote states giving the usable diff and the displayable text.
- Bottleneck scheduling and `Promise.all` are modelled as a sequential, order-preserving map. When several resources fail concurrently, the model reports the first in resource order.
- The time-based caches around `getByReference` and `castReferenceToGrokableString` are left out. With the remote state fixed, a cache hit equals a fresh call.
- Logging, spinners, colours, console output and timers are left out. The legacy apply loop returns the proposals it would log as skipped. The plan command's report is data: an "up to date" flag, the detailed proposals and the summary rows. The "summary" heading shown in full detail is not modelled.
- The CLI, SDK wrappers, context creation and file I/O are not part of this model.
- The remote-state interfaces (`findByUnique`, `findByPrimary`, `create`, `update`) and the DAO operations are provider code. They are modelled by their documented semantics:
  - current-engine DAOs work on a map keyed by unique key;
  - legacy interfaces find the first stored resource of the class carrying the key's values;
  - `create` appends;
  - `update` overwrites matching resources.
- The current engine calls the DAO members `finsert` and `get.byUnique`, while the DAO type declares `findsert` and `get.one.byUnique`. The model has one abstract DAO.
- Reflection on class statics and the choice of reference constructor are left out. `defineReferenceClassOf` is not part of this model.
- `domain-objects` helpers (`omitMetadataValues`, `omitReadonly`, `serialize`, `refByUnique`, `refByPrimary`, `isRefByUnique`, `isRefByPrimary`, `flattie`) are foreign. They are specified over the class's key, metadata and readonly declarations, and `flattie` is an explicit recursive walk.
- `JSON.stringify` equality in `computeChange` is modelled at the top level: fields with an undefined value are dropped, and nested values are compared as values.
- The legacy identity check `desiredState === remoteState` is modelled as value equality.
- Numbers are integers; floating point is not modelled.
- Object keys are assumed distinct, as in any JavaScript object. Integer-like keys, which JavaScript orders first, are not modelled.
- Strings are sequences of characters; lone surrogates and Unicode escapes beyond control characters are not modelled.
- LegacyComparable.ResolveRef: a `fuel` bound limits how many look-ups a chain of primary-key references may take. A chain deeper than the fuel fails with `ResolutionTooDeep`, where the source would keep looking up. No lemma states that more fuel preserves a success.
- LegacyGrokable.PrimaryAndUniqueRenderAlike is weaker than the source's promise. It needs the looked-up unique key to be in common form and to name the same class; a nested reference inside the unique key is not covered.
- LegacyGrokable.SortByDepth: `Array.prototype.sort` with a comparator that never answers "equal" is modelled as a stable insertion sort by depth.
- Changes.ComputeChange requires one side to be present. With both null, the source picks CREATE and then dereferences null.
- Daos.RefRoundTrip needs a primary-key attribute outside the unique key, a stored resource, and no other stored resource sharing its primary key.
- Daos.GetRefByPrimary: a fetched resource whose class declares no primary key fails with `NoPrimaryDeclared`; the source's `refByPrimary` behaviour there is not part of this model.
- Daos.GetRefByPrimary: the promise of exactly one `byUnique` call is not observable in a model without call counting.
- Applying.ApplyThenReplanKeepsAll holds only under stated conditions:
  - no two resources share a stored identity or a class and slug;
  - every UPDATE goes to a DAO with `upsert`.

  The source's integration test assumes both.
- Applying.ApplyChangeOutcome: an unknown action (OMIT) fails; no plan contains one.
- Routing.Summaries: the classes a provider serves are kept as a set, so the order in which the source's error message lists `Object.keys(provider.daos)` is not modelled.
- DisplayDiff.SameSerialization: key order is ignored only at the top level. Nested values are compared as values, so two resources whose nested objects differ only in key order count as different, whatever `serialize` does with nested key order.
- LegacyProposals.ExecuteOutcome: an interface method reached with no desired state fails with `NoDesiredState`, where the source would hand `null` to provider code.
- Planning.PlanChanges never consults the deletion marker and never yields DESTROY. Neither does the source.
- `applyChanges` walks the given plan's changes, not the re-plan, and has no all-KEEP shortcut. The source does the same.
- The source prefers the unique key over the primary key in `buildReferenceTo`. A skipped test in the repository expects the opposite; the model follows the code.
- `getRefByUnique` returns null on a miss, while the legacy `getUniqueKeyByReference` fails. Both are modelled as written.
