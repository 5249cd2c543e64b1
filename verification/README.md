# Verified model of yaho

yaho is a Helm operator: it manages repositories, charts, values and releases as
Kubernetes objects. This project models the parts of it that carry algebra,
concurrency and recursion, and proves properties of them for all inputs, all
schedules and all runs. `dafny verify dfyconfig.toml` checks everything.

Kubernetes API calls are operations on finite maps that succeed unless the model
says otherwise; deleting an object removes it from the map. Go's choices (map
iteration order, which goroutine steps next, which message is received first)
are left open everywhere: as nondeterministic statements in methods, as explicit
schedules, or as runs of a step relation. A send and its receive on an
unbuffered channel are one step.

| files | what they model |
|---|---|
| `JsonTree`, `MergeAlgebra`, `MergeOrder` | `MergeMaps` as a function on JSON trees, its algebra, and when the order of arrival can be seen |
| `Nesting`, `GoHeap` | `MergeMaps` and `MergeUntypedMaps` on Go's mutable, shared maps |
| `ReverseIndex`, `ValuesGraph`, `Collect`, `IndexRuns` | the depth-limited collection of `Values` objects, and the `releases` annotation over whole runs |
| `CallGraph`, `Cycles`, `Assemble`, `Siblings`, `ManageValues` | `manageStruct`, `parse` and `ManageValues`, and when they return |
| `CollectedWalks`, `ChainDocument`, `ChainEndToEnd`, `SharedChains`, `ManageChains`, `SharedExample`, `LeafReferences`, `Provenance` | the document delivered for a chain of references and for several references side by side, among any number of base objects, and what no document can hold |
| `GroupCluster`, `GroupLoop`, `GroupRuns`, `ReleaseGroupRuns` | the RepoGroup and ReleaseGroup reconcilers |
| `ChartNames`, `ChartFiles`, `ChartFilesReload`, `ConfigMapPipeline`, `ChartStorage` | chart files in ConfigMaps, written by a channel pipeline and read back |
| `Dependencies`, `SubCharts`, `ChartPasses`, `VersionPick` | the dependency edges of a chart version, the spreading of dependency charts, and the choice of a version |
| `ReleaseHistory` | install, upgrade or leave alone |

## Where the code does not do what its names suggest

- Precedence in `MergeMaps` alternates with depth, because each recursive call
  swaps its arguments (`MergeAlgebra.PathLaw`).  The merge is not associative in
  general; `MergeAlgebra.MergeAssociatesIffRegroups` says when it is.
- `MergeUntypedMaps` looks up its second key at the top level. On an empty map it
  nests under the key path only if keys 2i and 2i+1 are equal for every complete
  pair; otherwise the values are lost (`Nesting.NestsIffPairsEqual`). So a chain of
  references under two different keys loses values (`ChainEndToEnd.TwoKeysExample`).
- `manageStruct` returns after its first message, so of several references to
  objects without references at most one is in the document, under every schedule
  (`LeafReferences.AllArriveIffAtMostOne`, `LeafReferences.NotAllArrive`, with a
  concrete cluster in `LeafReferences.TwoLeavesExample`); an object that is
  referenced under two keys is never delivered under both
  (`LeafReferences.TwoKeysOneObjectExample`).
- The list that is assembled holds a reference once for each walk that leads to it
  from any base object, and the copies are treated as siblings.  If two base objects
  share a part of a chain, or one is listed twice, values can end up one key too
  deep or be lost (`SharedChains.ChainDeliversIffUnshared`, with a concrete cluster in
  `SharedExample.SharedChainExample`).
- The goroutines of siblings share a variable and an array.  A message can be empty
  or hold its values under other keys than its own (`Assemble.Sent`), so even a
  single reference can be lost if it was collected twice
  (`LeafReferences.EveryScheduleDeliversIff`).
- `manageStruct` never returns if an object within reach leads back to itself,
  although `collectValues` does (`Cycles.AllReturnIffNoNearCycle`; an object that
  refers to itself: `Cycles.CollectSelf`).
- `removeRelease` reaches releases of other namespaces: the list call is not
  limited to the group's own (`GroupCluster.AfterPassAt`, with a concrete cluster in
  `GroupCluster.OtherNamespaceExample`).
- Template files below a directory come back without it
  (`ChartFilesReload.NameKeptIffInRoot`).
- Reading chart files does not select the repository: files of the same chart and
  version of another repository are mixed in
  (`ChartStorage.OtherRepositoryMixesIn`, exact condition in
  `ChartStorage.FilesComeBack`).  Of CRDs with equal names, which a chart and its
  dependencies can have, only one is kept.
- ConfigMap names of different charts can be equal
  (`ConfigMapPipeline.NamesClashIff`), and the chart stored later overwrites the
  other one's (`ChartStorage.SurvivesIffStemsDiffer`), unless the API server
  rejects the update because the ConfigMaps are marked immutable.
- A dependency version that differs from the loaded archive's is corrected in the
  index at the first dependency, whichever it belongs to
  (`Dependencies.IndexFollowsIffOnlyFirstDiffers`).
- An index entry 0.0.0 is selected even if it does not meet the constraint
  (`VersionPick.ZeroIsPickedUnchecked`).
- Inside a repository group the lookup of a dependency's repository never finds
  another repository of the group, because it asks for the label `repoGroup` and
  the group controller sets `yaho.soer3n.dev/repoGroup`
  (`Dependencies.GroupLookupFindsNothing`).

## Model

| member | source | states |
|---|---|---|
| MergeAlgebra.Merge | internal/utils/config.go:104-127 | recursion ends although the arguments swap, and the keys of a merged level are the union |
| MergeAlgebra.PathLaw | internal/utils/config.go:115-123 | at a key path that is reached in both trees: an entry of one tree is kept, two objects are merged, otherwise the first argument wins at odd path lengths and the second at even ones |
| MergeAlgebra.MergeIdempotent | internal/utils/config.go:104-127 | merging a tree with itself gives it back |
| MergeAlgebra.MergeEmpty | internal/utils/config.go:104-127 | the empty map is neutral on either side |
| MergeAlgebra.MergeCommutesIffAgree | internal/utils/config.go:104-127 | the merge commutes on exactly the pairs of trees that agree at every shared path |
| MergeAlgebra.AbsorbsIffAddsNothing | internal/utils/config.go:104-127 | merging a tree into another changes nothing if and only if it has no key of its own and agrees where it wins |
| MergeAlgebra.MergeAssociatesIffRegroups | internal/utils/config.go:104-127 | the merge is associative on exactly the triples in which no leaf of the second tree stands between an object of the first and one of the third that would change it |
| MergeAlgebra.MergeAssociates | internal/utils/config.go:104-127 | in particular on three trees that pairwise hold equal kinds at shared paths |
| MergeAlgebra.MergeDoesNotAssociate | internal/utils/config.go:115-123 | three concrete trees of unequal kinds for which it is not |
| MergeAlgebra.MergeKeepsAgreement | internal/utils/config.go:104-127 | merging two trees that agree keeps their agreement with a third |
| MergeOrder.FoldPermutes | internal/values/values.go:95-102 | documents that agree give the same result in every order of arrival |
| MergeOrder.ConflictingOrders | internal/values/values.go:95-102 | for two documents in conflict, two orders that give different results |
| MergeOrder.ArrivalOrderIrrelevantIffAgree | internal/values/values.go:79-108 | the order of arrival can not be seen if and only if the documents agree wherever they share a path |
| Nesting.EqualPairsNest | internal/utils/config.go:158-200 | keys equal in pairs: the source stands under exactly the key path |
| Nesting.UnequalPairDrops | internal/utils/config.go:174-199 | otherwise an empty map stands under the path up to the first key of the first unequal pair |
| Nesting.NestsIffPairsEqual | internal/utils/config.go:142-209 | both directions of the above |
| GoHeap.CopyInto | internal/utils/config.go:168-170 | writing all entries of a map into another, which may be the same one |
| GoHeap.CopyUntypedMap | internal/utils/config.go:130-139 | a fresh map with the same entries, an empty one for nil |
| GoHeap.MergeMaps | internal/utils/config.go:104-127 | on shared mutable maps: a nil argument gives dest itself; otherwise a fresh map that spells out the merged tree, with neither argument nor anything below it written |
| GoHeap.MergeNested | internal/utils/config.go:117-120 | the recursive call with swapped arguments, nil where dest holds no map |
| GoHeap.TrimKeys | internal/utils/config.go:151-156 | blank keys are dropped |
| GoHeap.MergeUntypedMaps | internal/utils/config.go:142-209 | the result is a fresh map; on an empty destination it spells out the nesting and no other map is written; with no key all entries are joined, with one key the map nested under it is written in place |
| GoHeap.OnlyRound | internal/utils/config.go:159-172 | one key: the nested map of dest is changed in place, and no other |
| GoHeap.SecondRound | internal/utils/config.go:175-199 | the second key: nothing is written if it is no map at the top level |
| ReverseIndex.AnnotatedLists | internal/values/collect.go:116-140 | a release is appended to the list unless it is there, and no name is removed or moved |
| ReverseIndex.SplitJoins | internal/values/collect.go:116-140 | the names of an annotation are the pieces between its commas |
| ReverseIndex.RunAppendsFirstOccurrences | internal/values/collect.go:116-140 | over any run the list grows by the new names, once each, in order of first occurrence |
| ValuesGraph.EntryIsReference | internal/values/collect.go:103-109 | an entry names the object before the last step of its walk as parent, and satisfies that parent's references under its key |
| ValuesGraph.ResolvableIffNothingDangles | internal/values/collect.go:80-92 | everything within reach resolves if and only if no walk within reach ends before a reference without an object |
| ValuesGraph.BranchUnfolds | internal/values/collect.go:94-109 | the entries of one reference: those below it, then its own |
| ValuesGraph.JoinBranches | internal/values/collect.go:78-110 | unfoldings through different keys add up to an unfolding |
| Collect.ValuesStore.UpdateValuesAnnotations | internal/values/collect.go:116-140 | the annotation written from the caller's copy of the object |
| Collect.ValuesStore.Record | internal/values/collect.go:50-52 | a copy fetched before the collection is as good as a fresh one |
| Collect.ValuesStore.CollectValues | internal/values/collect.go:60-114 | it returns on every graph; it fails exactly if a reference within reach is missing; else the list is the base entry and one entry per walk of length 1 to 11, longer walks before those they extend, and exactly the collected objects are annotated |
| Collect.ValuesStore.CollectReferences | internal/values/collect.go:78-110 | the loop over the references, in any order |
| Collect.ValuesStore.CollectReference | internal/values/collect.go:80-109 | one reference: fetched, annotated, unfolded, then its own entry |
| Collect.ValuesStore.GetValuesByReference | internal/values/collect.go:14-39 | the objects of the names that exist, in the order of the names and as often as they occur; names without an object are skipped |
| Collect.ValuesStore.GetRefList | internal/values/collect.go:41-58 | one block of entries per base object in order, failure exactly if some object can not be collected, and the annotations afterwards |
| Collect.RecordedIndex | internal/values/collect.go:41-58 | after one collection every collected object lists the release, and all other lists are as before |
| IndexRuns.RunKeepsIndex | internal/values/collect.go:41-58 | over any run of collections, for every object: its list is the list at the start followed by the releases whose collections touched it, each once, in order; so every collection's release stays listed and no name is duplicated |
| IndexRuns.LaterKeepsEarlier | internal/values/collect.go:116-140 | no later collection removes or moves a name |
| IndexRuns.CollectReleases | internal/values/collect.go:41-58 | collecting for one release after the other is such a run |
| CallGraph.HaltsIffNoLoop | internal/values/values.go:127-191 | a call of manageStruct returns if and only if no chain of nested calls from it comes back to an entry |
| CallGraph.CollectedFromAll | internal/values/collect.go:41-58 | every collected entry is a base object or a reference of its parent |
| Cycles.ReferenceIsCollected | internal/values/collect.go:78-110 | the references of every object at most 10 references away from a base object are collected |
| Cycles.CollectedIsReference | internal/values/collect.go:78-110 | and nothing else is, apart from the base objects |
| Cycles.AllReturnIffNoNearCycle | internal/values/values.go:127-191 | after collecting, the calls for all base objects return if and only if no object within reach leads back to itself through objects within reach |
| Cycles.AcyclicReturns | internal/values/values.go:135-162 | so they all return if no walk comes back to the object it starts from |
| Cycles.HeightBoundsNesting | internal/values/values.go:135-162 | calls are nested no deeper than the longest walk from their object |
| Cycles.CompleteIffShallow | internal/values/collect.go:63-66 | an object is unfolded completely if and only if no walk from it is longer than 11 |
| Cycles.CollectSelf | internal/values/collect.go:60-114 | an object that refers to itself is collected without an error, and what was collected is never assembled |
| Assemble.Filter | internal/values/filter.go:16-25 | the order-preserving subsequence of entries with an equal parent |
| Assemble.FilterMembers | internal/values/filter.go:27-38 | which entries it holds |
| Assemble.OnlyFirstArrives | internal/values/values.go:151-182 | of several children without references only what the first message holds is in the document |
| Siblings.StructHead | internal/values/values.go:151-180 | any object, key path, number of children and schedule: where the message and the nested documents share a path, at even lengths the message wins and then the last nested document that shows something, at odd lengths the first nested document and the message only if none does |
| Siblings.DeliveredHead | internal/values/values.go:116-124 | at odd lengths the base object's own values win, at even ones what was assembled below it |
| Siblings.DocumentStands | internal/values/values.go:153-169 | a child's values stand under the caller's path, its key once per child so far, and the child's own keys, if those are equal in pairs, and are lost otherwise |
| LeafReferences.OneReferenceArrives | internal/values/values.go:151-182 | a first message that is as it was meant brings exactly one key: with its object's values if the object is referenced under no other key, and empty otherwise |
| LeafReferences.AtMostOneArrives | internal/values/values.go:152-182 | every first message brings the values of at most one object |
| LeafReferences.AllArriveIffAtMostOne | internal/values/values.go:111-191 | with such a message the values with each key mapped to its object's values are delivered if and only if there is at most one reference, among any base objects |
| LeafReferences.NotAllArrive | internal/values/values.go:151-182 | of two references every schedule loses one |
| LeafReferences.EveryScheduleDeliversIff | internal/values/values.go:111-191 | every schedule delivers them if and only if there is no reference, or one that was collected once |
| LeafReferences.TwoLeavesExample | internal/values/values.go:175-182 | a concrete cluster of two leaves that always loses one |
| LeafReferences.TwoKeysOneObjectExample | internal/values/values.go:193-201 | a concrete leaf under two keys that is never delivered under both |
| ManageValues.GetRefKeyByValue | internal/values/values.go:193-201 | the path is extended by the keys of the value, in any order |
| ManageValues.ManageStruct | internal/values/values.go:127-191 | wherever it returns, the document is that of some schedule |
| ManageValues.ReceiveFirst | internal/values/values.go:166-177 | the first message: any child's document, or what later rounds made of the variable and the array that children share |
| ManageValues.ManageChild | internal/values/values.go:151-169 | one child: its nested document merged, and the keys its goroutine gets |
| ManageValues.Receive | internal/values/values.go:95-102 | the documents are folded in some order of arrival |
| ManageValues.ManageValues | internal/values/values.go:65-109 | an error exactly without base objects; else the fold of what the base objects deliver, the same for all orders if they agree |
| ChainDocument.ChainStruct | internal/values/values.go:135-180 | the document below a chain position, for every schedule |
| ChainDocument.CopiesNested | internal/values/values.go:151-161 | copies of a base object's reference contribute the same |
| ChainDocument.ChainDelivered | internal/values/values.go:111-125 | the document delivered for a chain with any keys |
| ChainDocument.BelowIsIdeal | internal/values/values.go:151-180 | equal pairs: each object's values stand under the key path |
| ChainDocument.BelowMisses | internal/values/values.go:151-180 | an unequal pair: nothing is delivered at the pair's second key |
| ChainDocument.ChainIsIdealIffPairsEqual | internal/values/values.go:111-191 | the delivered document is each object's values with its key mapped to the next object's document, if and only if every complete pair of keys is equal; for every schedule if the first reference was collected once, otherwise for those whose first message is as it was meant |
| ChainDocument.OneKeyChainIsIdeal | internal/values/values.go:111-191 | in particular if all references use one key |
| ChainEndToEnd.ChainIsCollected | internal/values/collect.go:41-114 | what is collected for a chain, among any base objects, is that chain, if its references below the first were collected once |
| ChainEndToEnd.CollectedChainDelivers | internal/values/values.go:111-191 | collecting and assembling such a chain, from the cluster to the document, with any keys |
| ChainEndToEnd.AloneIsUnshared | internal/values/collect.go:60-114 | with one base object every reference of a chain is collected once |
| ChainEndToEnd.ChainAloneDelivers | internal/values/values.go:111-191 | so a chain of up to 11 references of a single base object is delivered by every schedule exactly if every complete pair of keys is equal |
| CollectedWalks.ListHasOrigins | internal/values/collect.go:41-114 | the list holds one entry for each base object and each walk of length 1 to 11 from it |
| CollectedWalks.OnceIffOneLeads | internal/values/collect.go:78-110 | a reference is collected once if and only if exactly one walk of at most 10 references leads from the listed base objects to the object that holds it |
| CollectedWalks.BaseIsRoots | internal/values/values.go:69-73 | the entries of parent base are the base objects in their order |
| SharedChains.ChainDeliversIffUnshared | internal/values/values.go:111-191 | among any base objects, a one-key chain's document is delivered by every schedule with undisturbed messages if and only if no other walk leads to an object below its first; by every schedule at all if and only if moreover none leads to the first, or the message at risk is empty and not missed |
| SharedChains.SharedMisplaces | internal/values/values.go:151-169 | the failing schedule: the last copy everywhere puts values too deep |
| SharedChains.DisturbedLoses | internal/values/values.go:152-168 | the failing schedule for a base object whose reference was collected twice: an empty message |
| SharedExample.SharedChainExample | internal/values/values.go:151-169 | a concrete cluster of two base objects with a common reference, the list collected for it, and a schedule that delivers a value one key too deep |
| ManageChains.ManageChains | internal/values/values.go:65-109 | if the base objects begin chains that share no reference, the result is the fold of the documents the chains stand for, the same for all orders if they agree |
| ChainEndToEnd.TwoKeysLoseValues | internal/utils/config.go:179-198 | two references under different keys do not deliver the document they stand for, whatever else is collected, by any schedule whose first message is as it was meant |
| ChainEndToEnd.TwoKeysExample | internal/utils/config.go:179-198 | a concrete cluster of three objects that loses a value, from collecting to the document |
| Provenance.MergeHolds | internal/utils/config.go:104-127 | a merge holds only leaves of its arguments |
| Provenance.HoldsIffLookup | internal/utils/config.go:104-127 | a tree holds a leaf if and only if it stands under some key path |
| Provenance.StructHolds | internal/values/values.go:127-191 | for every graph and schedule manageStruct returns only leaves of collected objects |
| Provenance.DeliveredHolds | internal/values/values.go:111-125 | so does parse |
| Provenance.FoldHolds | internal/values/values.go:95-102 | merging the deliveries in any order adds none |
| GroupCluster.RemoveCommutes | controllers/manager/repogroup_controller.go:130-133 | removing an object and deploying entries of other names commute |
| GroupCluster.DeployAllAt | controllers/manager/repogroup_controller.go:152-183 | what a list of deployments leaves at each key: the last entry and the old metadata for repositories, what was there or the first entry for releases |
| GroupCluster.AfterPassAt | controllers/manager/repogroup_controller.go:77-143 | after a pass listed objects without an entry are gone, each name of the spec is present, everything else is untouched |
| GroupCluster.OtherNamespaceExample | controllers/agent/releasegroup_controller.go:100-108 | a release of another namespace that a group removes |
| GroupCluster.NothingDoomedAfterPass | controllers/agent/releasegroup_controller.go:100-168 | no object of the group is left without an entry |
| GroupCluster.SecondPassIsIdle | controllers/manager/repogroup_controller.go:77-143 | a second reconcile changes nothing |
| GroupRuns.CreatedIsOwned | controllers/manager/repogroup_controller.go:112-126 | what a pass creates has a name in the spec and exactly the labels, owner and namespace the controller sets, so the next list call finds it |
| GroupRuns.GroupOwnsWhatItCreates | controllers/manager/repogroup_controller.go:77-143 | over any run of passes with edits of the spec in between, for both controllers and every listing: an object the group created is there if and only if the last spec names it |
| GroupRuns.CreatedIsRemoved | controllers/agent/releasegroup_controller.go:100-168 | in particular it is gone after a pass that no longer finds its name in the spec |
| GroupRuns.RepositoryAsSpecified | controllers/manager/repogroup_controller.go:152-183 | a repository ends with the last entry of its name and keeps its metadata if it was there |
| GroupRuns.ReleaseAsSpecified | controllers/agent/releasegroup_controller.go:177-206 | a release that was there is left alone, one that was not gets the first entry of its name |
| GroupLoop.StepKeepsInv | controllers/manager/repogroup_controller.go:94-142 | every step keeps: counter counts the producers that have quit, and what was handled is what the producers have passed |
| GroupLoop.SentOnce | controllers/manager/repogroup_controller.go:94-110 | each removal is sent once |
| GroupLoop.NoDeadlock | controllers/manager/repogroup_controller.go:128-142 | some step is enabled until two quit messages have arrived, and none after |
| GroupLoop.StepsRunOut | controllers/agent/releasegroup_controller.go:152-166 | a measure falls with each step |
| GroupLoop.EveryRunEndsAlike | controllers/manager/repogroup_controller.go:88-142 | every interleaving is bounded, stops only at the return, has then handled each removal and each deployment exactly once, and ends in the same cluster |
| GroupLoop.Reconciler.RemoveOne | controllers/manager/repogroup_controller.go:145-150 | the object is gone, whether or not it was there |
| GroupLoop.Reconciler.DeployOne | controllers/manager/repogroup_controller.go:152-183 | create, update or leave alone |
| GroupLoop.Reconciler.Reconcile | controllers/manager/repogroup_controller.go:88-143 | the select loop with any ready channel taken next ends in the cluster after the pass |
| ReleaseGroupRuns.PassIsTheLoop | controllers/agent/releasegroup_controller.go:111-168 | a reconcile that finds its finalizer has the effect of every run of the loop |
| ReleaseGroupRuns.DeletingPassAt | controllers/agent/releasegroup_controller.go:208-221 | a deleting pass removes the releases named in the spec and nothing else |
| ReleaseGroupRuns.DeletingPassReleases | controllers/agent/releasegroup_controller.go:219-220 | and takes away this controller's finalizer and no other |
| ReleaseGroupRuns.FinalizerIsKept | controllers/agent/releasegroup_controller.go:223-229 | other passes see to it that the finalizer is there and leave the others alone; the pass that adds it touches no release |
| ReleaseGroupRuns.PassConverges | controllers/agent/releasegroup_controller.go:100-168 | afterwards every release of the group has a name in the spec, and every name of the spec exists in the group's namespace |
| ReleaseGroupRuns.SecondPassConverges | controllers/agent/releasegroup_controller.go:84-168 | without the finalizer the first pass touches no release and the second one converges |
| ReleaseGroupRuns.SpecReleaseSurvives | controllers/agent/releasegroup_controller.go:177-206 | over any run of reconciles and spec edits a release whose name stays in the spec is neither deleted nor overwritten |
| ChartNames.NameFromPlace | internal/chartversion/configmaps.go:146-163 | root, directory and key spell the name |
| ChartNames.PlaceIffSpells | internal/chartversion/configmaps.go:142-184 | a file is put under a key if and only if its name is the root and the key, or the root, a directory other than tests and the key, with no slash in either |
| ChartFiles.SortFiles | internal/chartversion/configmaps.go:142-184 | the loop puts each file where its path says |
| ChartFiles.PlaceFile | internal/chartversion/configmaps.go:146-183 | one round of it |
| ChartFiles.CreateTemplateConfigMap | internal/chartversion/configmaps.go:115-193 | the base ConfigMap and one per directory in use, each once, in any order; each holds exactly the keys that names of files spell, with the bytes of the last such file |
| ChartFilesReload.AppendFiles | internal/chartversion/files.go:75-93 | every key of every listed ConfigMap is read exactly once |
| ChartFilesReload.FilesInAt | internal/chartversion/configmaps.go:152-183 | files at different places never overwrite each other |
| ChartFilesReload.PlacesDifferIffNamesDo | internal/chartversion/configmaps.go:146-163 | places differ if and only if names do |
| ChartFilesReload.NameKeptIffInRoot | internal/chartversion/files.go:77-88 | a file keeps its name if and only if it lies directly in the root |
| ChartFilesReload.StoreThenReload | internal/chartversion/files.go:56-95 | for all orders, each file whose name is the root and a key, or the root, a directory other than tests and a key, comes back exactly once with its bytes, and nothing else does, if and only if those names differ and no foreign ConfigMap holds a file |
| ChartFilesReload.SetFiles | internal/chartversion/files.go:16-54 | Files is a reading of templates then one of CRDs, Templates a reading of templates |
| ChartStorage.StoreAfterRun | internal/chartversion/configmaps.go:87-113 | each name holds what was emitted under it, and otherwise what was there before |
| ChartStorage.ListedAfterRun | internal/chartversion/files.go:59-69 | the selectors then find the emitted ConfigMaps and those left over |
| ChartStorage.ReorderedIsListed | internal/chartversion/files.go:67-73 | they may be listed in any order |
| ChartStorage.FilesComeBack | internal/chartversion/configmaps.go:115-193 | from the loaded chart through every schedule of the pipeline into any cluster and back: exactly the files with such names, each once with its bytes, if and only if the names differ and no ConfigMap left over holds a file |
| ChartStorage.OwnAreNoLeftovers | internal/chartversion/configmaps.go:87-113 | the chart version's own ConfigMaps of an earlier reconcile do no harm |
| ChartStorage.OtherRepositoryMixesIn | internal/chartversion/files.go:59-69 | a ConfigMap of the same chart and version of another repository does |
| ChartStorage.ChartIsLoadedBack | internal/chartversion/files.go:16-54 | after any returned run Files holds the templates and then the CRDs, and Templates the templates, each exactly once |
| ChartStorage.SurvivesIffStemsDiffer | internal/chartversion/configmaps.go:87-113 | a ConfigMap survives the storing of another chart if and only if that chart spells its stem for none of its directories; otherwise it is the other chart's afterwards |
| ConfigMapPipeline.StepKeepsInv | internal/chartversion/chartversion.go:128-154 | what every step of the five goroutines keeps |
| ConfigMapPipeline.NoDeadlock | internal/chartversion/chartversion.go:134-151 | some goroutine can step until the method has returned |
| ConfigMapPipeline.StepsRunOut | internal/chartversion/chartversion.go:134-151 | a measure falls with each step |
| ConfigMapPipeline.EverySchedule | internal/chartversion/chartversion.go:128-154 | on both paths no schedule closes twice or sends after the close, runs are bounded and never stuck, and the method returns only after each emitted ConfigMap was deployed once |
| ConfigMapPipeline.EmittedNamesDiffer | internal/chartversion/configmaps.go:128-210 | no ConfigMap of a chart version has the name of another one of it |
| ConfigMapPipeline.SchedulesAgree | internal/chartversion/configmaps.go:87-113 | all schedules and all orders of the directory maps leave the same ConfigMaps in the cluster |
| ConfigMapPipeline.NamesEqualIff | internal/chartversion/configmaps.go:129-168 | when ConfigMaps of any two chart versions have the same name |
| ConfigMapPipeline.NamesClashIff | internal/chartversion/configmaps.go:129-168 | in one repository and version: if and only if kinds are equal and chart and directory spell the same string |
| ChartStorage.DirectoryNameClash | internal/chartversion/configmaps.go:129-168 | the ConfigMap of a directory has the name of the base ConfigMap of another chart |
| SubCharts.SpreadHas | internal/chartversion/chartversion.go:255-340 | one call adds at most its dependency, appends only, and duplicates nothing |
| SubCharts.ChartStore.CreateOrUpdateSubChart | internal/chartversion/chartversion.go:276-339 | create, append or return |
| SubCharts.ChartStore.CreateOrUpdateSubCharts | internal/chartversion/chartversion.go:156-167 | the dependencies of one version, in order |
| SubCharts.ChartStore.Pass | internal/chart/chart.go:65-76 | the versions of one chart, in order; afterwards exactly what was listed and all dependencies that the index has for those versions are listed |
| SubCharts.PassIsRun | internal/chart/chart.go:65-76 | a pass is a run of such steps |
| ChartPasses.Reconcile | internal/chart/chart.go:65-76 | a pass over a chart, if there is one |
| ChartPasses.PassesAreSound | internal/chartversion/chartversion.go:325-333 | any sequence of passes only appends, gives no duplicates, and lists only what the start reaches |
| ChartPasses.AtRestIffQuiet | internal/chart/chart.go:65-76 | no pass changes anything if and only if no single step does |
| ChartPasses.RestIsClosure | internal/chartversion/chartversion.go:156-167 | at rest after any sequence of passes the lists hold exactly the transitive closure of the start |
| ChartPasses.PassesReachClosure | internal/chartversion/chartversion.go:156-167 | on every finite index at most as many passes change something as chart versions are missing, and after more rounds than that the lists hold exactly the closure and stay as they are |
| SubCharts.RunIsSound | internal/chartversion/chartversion.go:325-333 | the same for any interleaving of the steps of passes: lists only grow, get no duplicates, and list only what the start reaches |
| SubCharts.QuietRunIsClosure | internal/chartversion/chartversion.go:156-167 | and at rest they hold exactly the transitive closure of the start |
| SubCharts.ChangesRunOut | internal/chartversion/chartversion.go:325-333 | on every finite index the number of changing steps is at most that of the missing chart versions |
| Dependencies.GetRepoName | internal/chartversion/dependencies.go:143-181 | the chart's own repository if it serves the URL or no selected one does, else the first one that does and, with a group set, carries the group's value |
| Dependencies.UpdateIndexIfNeeded | internal/chartversion/dependencies.go:83-141 | the first entry of the version that has dependencies is patched at its first dependency |
| Dependencies.CreateDependenciesList | internal/chartversion/dependencies.go:51-81 | one edge per dependency in order with the version the archive holds, none while the chart is not loaded, and the index afterwards |
| Dependencies.EdgeVersionIs | internal/chartversion/dependencies.go:65-69 | the version of an edge is that of the last chart of its name in the archive |
| Dependencies.IndexFollowsIffOnlyFirstDiffers | internal/chartversion/dependencies.go:115-141 | the index holds the versions of the edges afterwards if and only if no dependency but the first was corrected |
| Dependencies.ListOrderIrrelevant | internal/chartversion/dependencies.go:161-176 | with one repository per URL the order of the list call can not be seen |
| Dependencies.GroupLookupFindsNothing | internal/chartversion/dependencies.go:152-169 | with a group set and only repositories that group controllers create, every dependency resolves to the chart's own repository |
| VersionPick.LessByRules | internal/chartversion/chartversion.go:394-397 | precedence by the rules of section 11: the first different number decides; a release stands above its pre-releases; identifiers by value, kind, ASCII order and length |
| VersionPick.StandardExample | internal/chartversion/chartversion.go:394-397 | the standard's own chain of examples |
| VersionPick.PrecedenceOrder | internal/chartversion/chartversion.go:394-397 | it is a total order up to build metadata |
| VersionPick.GetParsedVersion | internal/chartversion/chartversion.go:377-401 | which error for which input; else the first of the highest versions above 0.0.0 that meet the constraint, or 0.0.0; no entry that meets the constraint has a greater major, with equal major a greater minor, and so on down to the identifiers |
| VersionPick.OrderOfIndexIrrelevant | internal/chartversion/chartversion.go:389-398 | the result does not depend on the order of the index, up to build metadata |
| VersionPick.FindVersion | internal/chartversion/chartversion.go:58-64 | the first entry with the version string |
| VersionPick.Select | internal/chartversion/chartversion.go:51-68 | which error for which input, and on a canonical index an entry that meets the constraint and that no other one stands above, whenever there is one above 0.0.0 |
| VersionPick.SelectionIsExact | internal/chartversion/chartversion.go:51-68 | on a canonical index: invalid if and only if no version above 0.0.0 meets the constraint and no entry reads 0.0.0; else the entry chosen is a best one, or one that reads 0.0.0 |
| VersionPick.SelectionAboveZero | internal/chartversion/chartversion.go:51-68 | with all versions above 0.0.0: invalid exactly if none meets the constraint, else one of highest precedence |
| VersionPick.ZeroIsPickedUnchecked | internal/chartversion/chartversion.go:383-400 | a concrete index whose entry is chosen against the constraint |
| ReleaseHistory.Release.Update | internal/release/release.go:120-173 | install, upgrade or nothing, nothing stored in a dry run, and an error without effect if the chart is not loaded |
| ReleaseHistory.Release.Upgrade | internal/release/release.go:188-207 | one more revision with the values passed, stored unless it is a dry run |
| ReleaseHistory.ChangedIffDifferent | internal/release/values.go:49-57 | values have changed exactly if they differ |
| ReleaseHistory.RevisionCountsChanges | internal/release/release.go:136-156 | from any stored release, empty values included, or none: after calls with non-empty values the last ones are stored, and the revision has grown by the number of values that differ from those before |
| ReleaseHistory.UpdateAll | internal/release/release.go:120-173 | calling Update for one set of values after the other has that effect |
| ReleaseHistory.RepeatedCallIsIdle | internal/release/values.go:49-57 | repeating a call changes nothing |

## Left out

- ManageValues.ReceiveFirst: sibling goroutines race for the variable `merged` and the array behind `parents` (internal/values/values.go:129, 152-153, 166-169). A message is taken to hold the child's document, the empty map, or the child's values under overwritten keys; the first key can only become the caller's, and those behind it are left open although the code writes particular ones. Other effects of a data race are not modelled.
- ChainDocument.ChainIsIdealIffPairsEqual: for a base object whose reference was collected more than once it speaks of schedules whose first message is undisturbed; `SharedChains.ChainDeliversIffUnshared` covers the others for one key.
- LeafReferences.OneReferenceArrives: for an undisturbed first message; `LeafReferences.AtMostOneArrives` covers the others.
- ManageValues.ManageStruct: requires that the call returns, because the code overflows the stack otherwise; `CallGraph.HaltsIffNoLoop` and `Cycles.AllReturnIffNoNearCycle` say when that is.
- GoHeap.MergeUntypedMaps: states the value of the result on a non-empty destination for up to one key only, because the code never passes one; for more keys it states which maps may be written.
- ChainDocument.ChainIsIdealIffPairsEqual: blank keys and objects whose own values define the key of their reference are excluded; `ChainDocument.ChainDelivered` covers the latter.
- ReleaseHistory.RevisionCountsChanges: the values passed are not empty, because Helm's own treatment of an upgrade with empty values is not part of this repository.
- GoHeap.SecondRound: the value on a non-empty map is left open if the second key is a map at the top level, because no caller gets there.
- ReleaseHistory.Release.Update: that Helm's dry run (internal/release/options.go:55, 71) reports a revision and stores nothing is taken from Helm; the other flags are not modelled.
- SubCharts.ChartStore.CreateOrUpdateSubChart: dependency charts carry both the repository and the chart label and create their own dependencies; a created chart gets its chart label from the chart controller, and until then the list call does not find it.
- SubCharts.QuietRunIsClosure: other writers of version lists (internal/repository/charts.go:60-68) and failing watches do not occur, and dependency edges are fixed: rewritten index entries (internal/chartversion/dependencies.go:83-141) are not followed up.
- ChartPasses.PassesReachClosure: under the same assumptions.
- ChartFilesReload.StoreThenReload: a file of equal name and bytes in a foreign ConfigMap can stand in for one that was lost, so the two halves of the condition are stated one at a time.
- ChartStorage.FilesComeBack: one version for writing and reading; the code writes under the resolved version and reads under the requested one (internal/chartversion/chartversion.go:51-87, internal/chartversion/files.go:28, 62), and finds nothing of what it wrote if they differ. Files of one kind start with its root directory, as those that Helm's loader sorts into Templates and CRDs do; a name without a slash makes the code panic.
- ChartStorage.StoreAfterRun: updates succeed, although the ConfigMaps are marked immutable (internal/chartversion/configmaps.go:116-117) and an API server that enforces this rejects an update that changes their files.
- Timeouts and watches: every goroutine delivers, and real time is not part of any claim.
- JSON decoding, and the reflection with which `Filter` reads the parent field.
- Parsing of version strings and constraints: a constraint is any predicate on versions, and an index entry carries what the parser makes of it.
- Content of the default-value ConfigMap, setting of owner references.
- HTTP download, archives, credentials, REST clients, status conditions, logging, and the repository controller.
- Deletion timestamps of child objects: deleting removes the object.
