# A verified model of dit

dit versions training data by rows.  Each object (row, manifest, tree, commit, sidecar, blob) is stored under the SHA-256 of its bytes.  A manifest lists the rows of one file, a tree names manifests, blobs and subtrees, and a commit names a tree and its parents.  This project models the algorithms over that object graph and proves what they promise.

## How the model is set up

- **Hashes are objects.**  A hash is identified with the object it names, so commits, trees and manifests are recursive datatypes: hashing is injective and the graph has no cycles.  `ObjId` adds the object's kind.  A store is the finite set of objects present, and a dangling reference is an object outside that set.  `Objects.Reach` is reachability through present objects.
- **Methods and specifications.**  Algorithms that work by loops and updates are methods with invariants.  Each is proved equal to a function of its inputs, and the laws are lemmas about that function.  Where such a function decides something, a further law says what it decides from the inputs alone, without the function's own parts (`FileMerge.FileFate`, `MergeLaws.MergedEntry`, `Blame.ManifestAtMeaning` and the others of their kind).  The object store, the summary cache, the integrity checker, the working directory and the server's byte store are classes.
- **Protocols are state machines.**  The server and the single-flight cache are proved over every run of interleaved atomic steps.  `ServerRuns.HandleMerge`, `ServerRuns.HandleResolve` and `ServerRuns.ComputeMergeability` tie the merge algorithm to the server's steps.
- **Fingerprints.**  A row's fingerprint is a function of the row; a manifest entry records one, and `Honest` says that it is the row's.  `None` and `""` are both false, as in Python.
- **Parameters.**  The clock, author names, the hash of raw bytes (in `Wire` and `Push`), the fates of the two attempts at each upload batch (`Push.Fates`) and the expensive summary computation are parameters.

| file | what it covers |
|---|---|
| `Objects`, `Store`, `Paths` | the object graph and closures, the store, slash-separated paths |
| `Trees`, `TreeBuilder`, `TreeWalker` | nested trees: build, flatten, look up |
| `Merge`, `MergeLaws` | the row-level three-way merge and the per-key rule it refines |
| `MergeBase` | the bidirectional search for a common ancestor |
| `FileMerge`, `MergeCommit` | the file-level merge and the commit built from it |
| `Walker`, `Gc`, `Fsck` | graph walks, garbage collection, integrity check |
| `Fetch`, `Push`, `Wire` | transfer in both directions, the binary batch format and its JSON fallback |
| `Server`, `ServerRuns` | pushes, merges, pull requests and resolutions racing on refs; the handlers, and runs that end in a merge or a resolution |
| `Diff`, `Blame` | manifest difference, blame, row history |
| `Checkout` | incremental checkout of the working files |
| `SingleFlight` | the bounded cache that computes each key once |

## Where the code does less than one might expect

Each of these is proved, with the exact condition where there is one.

- `docs/cookbook/three-way-merge.md:36` promises a fast-forward whenever one branch descends from the other.  The code fast-forwards when the computed merge base *is* the target.  That is always sound (`MergeBase.FastForwardSound`), but a merge commit can make the search stop at an older commit (`MergeBase.BaseNotLowest`).  Exactly: the base is the first commit at which the two searches, each run alone, meet (`MergeBase.BaseIsFirstMet`).  As a condition on the graph: when both histories enter their common part through one commit, that commit is the base and every common ancestor is an ancestor of it (`MergeBase.BaseIsGate`, `MergeBase.GateIsLowest`); so the fast-forward happens when the source reaches the target's history only through the target itself (`MergeBase.FastForwardThroughGate`).  Linear histories are a special case.  The force-push check at src/dit/server/routes/refs.py:156-166 uses the same test.
- `docs/cookbook/garbage-collection.md:66` says that the grace period protects running operations.  Writing an object that is already present leaves its modification time alone, so a just-written object is protected exactly when it is new, still young, or reachable (`Gc.FreshWriteSurvives`).
- `docs/cookbook/blame.md:76` lists a "removed" event.  The code has only "added" and "refresh" events, and every history ends in the former (`Blame.HistoryEndsAdded`).
- A row untouched by both sides of a merge can be lost when another row shares its fingerprint (`MergeLaws.SharedFingerprintLosesRow`, condition in `MergeLaws.UntouchedRowSurvives`).
- A row that one side deleted can return the same way: when each side deletes one of two rows of a fingerprint, ours' remaining row stays although theirs deleted it (`MergeLaws.SharedFingerprintReturnsRow`, conditions in `MergeLaws.TheirDeletedRowReturns` and `MergeLaws.OurDeletedRowReturns`).  `MergeLaws.RowFate` decides for every row of all honest manifests whether it is in the merge.
- A row refreshed on one side and deleted on the other silently goes to ours, which is the one thing that makes the merge depend on the order of the sides (`MergeLaws.SwapKeepsRows`).
- A merge commit holds manifests only (`MergeCommit.MergeTreeReadBack`): the blobs of both sides are gone (`MergeCommit.MergeDrops`).  A file's sidecar is copied from the target, else the source, and so can describe other rows: a file that only the source changed gets the source's rows under the target's old sidecar (`MergeCommit.StaleSidecar`, exact condition on the three versions in `MergeCommit.StaleSidecarIff`).
- The tree of a merge commit is flat, and looking up a path descends one name at a time, so after a merge on the server no file in a directory is found by its path (`MergeCommit.MergeTreeLookup`; src/dit/server/routes/manifest_api.py:44).
- Some conflicts cannot be resolved on the server at all: a resolution names one row per file, so a file with two disputed fingerprints, or a conflict between a deletion and an empty file, has no resolution (`Server.ResolvableIff`).  A file that is resolved keeps the chosen row and nothing else (`Server.ResolvedKeepsOneRow`).
- Previews, opened pull requests and merges that end in conflicts store merged manifests that no ref reaches (`ServerRuns.ComputeMergeability`, `ServerRuns.HandleMerge`).
- A merged pull request can get another status: a status change checks that the request is not merged and writes later, without looking again (`ServerRuns.MergedStatusLost`).
- Reordering a file moves the blame of all its rows (`Blame.ReorderTakesBlame`).
- A checkout from a clean working copy can fail.  It compares the unfiltered old tree with the new tree filtered by the sparse set, so it succeeds exactly when no path written or on disk is a directory of another, and no old path absent from the new view is a directory of either (`Checkout.CleanSwitchIff`; without a sparse set, `Checkout.FullSwitchIff`).  In particular an old file outside the sparse set, which is not even on disk, stops the switch to a tree with a directory of its name (`Checkout.HiddenFileBlocks`, with an input in `Checkout.HiddenFileBlocksExample`).  And it relies on unchanged files being intact, also under `--force` (`Checkout.IncrementalExactIff`).
- Clearing the summary cache can leave a waiter waiting forever: exactly those threads that wait on an unset event at the moment of a clear (`SingleFlight.StrandedIff`, and a run in `SingleFlight.ClearStrandsFollower`).  Nothing else strands a thread, and a state is stuck only when every unfinished thread is stranded (`SingleFlight.StuckIff`).
- A fetch looks for sidecars on manifest entries only.  What it leaves out of a remote closure is exactly named (`Fetch.Strays`); where there are none, the fetch into a downward-closed store is complete (`Fetch.ReadyWhenClosed`, `Fetch.FetchKeepsClosed`).

## Model

| member | source | states |
|---|---|---|
| Objects.ReachClosed | src/dit/core/walker.py:7-59 | what is reachable contains its root and everything that a reachable present object names |
| Objects.ReachLeast | src/dit/core/walker.py:7-59 | ... and is contained in every set with that property |
| Objects.ReachFrame | src/dit/core/walker.py:7-59 | two stores that agree on the reachable part reach the same objects |
| Objects.RefsMeaning | src/dit/core/walker.py:7-59 | what each kind of object names: a commit its tree and parents, a tree the targets and the true sidecars of its entries, a manifest its rows, the others nothing |
| Objects.CompleteGrows | src/dit/core/store.py:21-37 | adding objects keeps a complete closure complete and unchanged |
| Objects.AncestorsReach | src/dit/core/walker.py:158-178 | the ancestors of a commit are exactly the commits in its closure |
| Objects.AncestorsSmaller | src/dit/core/objects.py:79-86 | an ancestor is a proper part of its descendant, so ancestry is acyclic |
| Store.ObjectStore.Write | src/dit/core/store.py:21-37 | a missing object is added with the current time; a present one keeps even its modification time |
| Store.ObjectStore.WriteBatch | src/dit/core/store.py:51-102 | hashing first and writing each missing object once equals writing the items one after the other |
| Store.WrittenAllMeaning | src/dit/core/store.py:51-102 | a batch adds exactly its items; old files keep their times, new ones get the current time |
| Paths.JoinSplit | src/dit/core/tree_walker.py:33-83 | joining the parts of a path gives the path back |
| Paths.SplitJoin | src/dit/core/tree_walker.py:33-83 | splitting joined slash-free parts gives the parts back |
| Paths.LessMeaning | src/dit/core/objects.py:111-123 | a string comes before another exactly when it is a proper prefix or smaller at the first difference |
| TreeBuilder.Partition | src/dit/core/tree_builder.py:26-38 | one level of staged paths is split into its files and, per subdirectory, the paths below it: nothing lost, nothing invented |
| TreeBuilder.SortOrdered | src/dit/core/objects.py:111-123 | sorting entries by name orders them and keeps the same entries |
| TreeBuilder.BuildSubtree | src/dit/core/tree_builder.py:21-55 | the subtree holds exactly the staged leaves below the prefix, in canonical form, and it and all its subtrees are stored |
| TreeBuilder.BuildNestedTree | src/dit/core/tree_builder.py:14-18 | the same for the root |
| TreeBuilder.RootUnique | src/dit/core/tree_builder.py:14-55 | the root depends only on the staged map: not on insertion order or the store |
| Trees.CanonicalUnique | src/dit/core/objects.py:111-123 | two canonical trees with the same leaves are the same tree |
| Trees.HasUnique | src/dit/core/tree_walker.py:9-30 | a canonical tree has at most one leaf under a path |
| TreeWalker.FlattenTree | src/dit/core/tree_walker.py:9-30 | the recursive walk computes the flat map; a missing tree object flattens to nothing |
| TreeWalker.FlattenHas | src/dit/core/tree_walker.py:9-30 | the flat map of a canonical tree has a leaf at a path exactly when the tree holds it there |
| TreeWalker.RoundTrip | src/dit/core/tree_walker.py:9-30 | flattening a built tree gives back the staged map if and only if no staged path starts with a slash |
| TreeWalker.ResolveEntry | src/dit/core/tree_walker.py:86-115 | the loop over path components computes the lookup function |
| TreeWalker.StripMeaning | src/dit/core/tree_walker.py:86-115 | a path is looked up without the slashes at its two ends, and is otherwise unchanged |
| TreeWalker.ResolveMeaning | src/dit/core/tree_walker.py:86-115 | lookup answers a leaf exactly where the tree holds it and a tree exactly at a directory |
| TreeWalker.LookupRefinesFlat | src/dit/core/tree_walker.py:86-115 | for every path, slashes at its ends stripped: on a tree built from clash-free paths, lookup answers a file exactly where one was staged, a directory exactly above the staged paths, and otherwise nothing |
| Merge.IndexByFp | src/dit/core/merge.py:140-154 | the index by fingerprint has the last entry for each true fingerprint |
| Merge.DetectRefreshes | src/dit/core/merge.py:156-164 | the refreshes of both sides against base, by fingerprint |
| Merge.FillSkeleton | src/dit/core/merge.py:210-236 | our entries in order, each slot kept, replaced or dropped, without repeated rows |
| Merge.MergeManifests | src/dit/core/merge.py:130-244 | the merged entries equal the specification and the conflicts are exactly the specified ones, each once |
| MergeLaws.MergeIsRule | src/dit/core/merge.py:130-244 | on manifests with one entry per key the indexed algorithm equals a three-way rule applied per key: our order with slots replaced in place, then theirs-only rows in their order |
| MergeLaws.MergeMembers | src/dit/core/merge.py:194-244 | an entry is in the merge exactly when the rule keeps it under its key |
| MergeLaws.MergedEntry | src/dit/core/merge.py:194-244 | the same from the three versions alone: an entry is merged when both sides have it, when one has it and base nothing of its key, or when one side refreshed to it and the other kept the base row (or, if the refresh is ours, deleted it) |
| MergeLaws.ConflictsAreClashes | src/dit/core/merge.py:171-192 | the conflicts are exactly the keys refreshed differently by both sides, with the three versions attached |
| MergeLaws.ConflictEntries | src/dit/core/merge.py:171-192 | the same from the three versions alone: a base row that each side replaced by another row of its key, the two being different |
| MergeLaws.MergeAppends | src/dit/core/merge.py:210-244 | rows that both sides append end up behind the base rows, ours first |
| MergeLaws.MergeRefreshesInPlace | src/dit/core/merge.py:210-236 | a row that only theirs refreshed is replaced in its place |
| MergeLaws.ByFpMeaning | src/dit/core/merge.py:140-154 | the index has a fingerprint exactly when an entry records it and it is not empty, and then the last such entry |
| MergeLaws.DisputedIsClash | src/dit/core/merge.py:160-192 | two table lookups disagree about a fingerprint exactly when the rule finds its key clashing |
| MergeLaws.MergeTheirsUnchanged | src/dit/core/merge.py:130-244 | merging with an unchanged other side gives ours, in our order, without conflicts |
| MergeLaws.MergeSameChange | src/dit/core/merge.py:130-244 | two sides that made the same change merge to it, without conflicts |
| MergeLaws.SwapMirrorsConflicts | src/dit/core/merge.py:160-192 | for all manifests, exchanging the sides mirrors the conflicts |
| MergeLaws.SwapKeepsRows | src/dit/core/merge.py:194-244 | exchanging the sides keeps the merged rows if and only if no key is refreshed on one side and deleted on the other |
| MergeLaws.MergeProvenance | src/dit/core/merge.py:194-244 | for all manifests, every merged entry is one of ours or theirs and no row is repeated |
| MergeLaws.RowFate | src/dit/core/merge.py:140-244 | for all honest manifests, repeated fingerprints included: whether a given row is in the merge |
| MergeLaws.UntouchedRowSurvives | src/dit/core/merge.py:140-236 | an entry that all three versions have survives exactly when no other entry displaces it through its fingerprint |
| MergeLaws.TheirDeletedRowReturns | src/dit/core/merge.py:210-236 | a base row that only theirs deleted is in the merge exactly when it is the settled refresh of its fingerprint, or that is in dispute and the row is not our proposal |
| MergeLaws.OurDeletedRowReturns | src/dit/core/merge.py:210-236 | a base row that only ours deleted is in the merge exactly when it is the settled refresh of its fingerprint and ours has a row of it |
| MergeLaws.TheirRowArrives | src/dit/core/merge.py:210-244 | a row that only theirs has is in the merge unless it is a refresh without a row of ours to replace |
| MergeLaws.SharedFingerprintReturnsRow | src/dit/core/merge.py:210-236 | a concrete merge that keeps a row which one side deleted |
| MergeLaws.SharedFingerprintLosesRow | src/dit/core/merge.py:219-224 | a concrete merge that loses an untouched row |
| MergeBase.Expand | src/dit/core/merge_base.py:20-46 | one half-round of the search: take a commit, record its unseen parents, stop at one the other side has seen |
| MergeBase.FindMergeBase | src/dit/core/merge_base.py:10-48 | the two-queue search terminates with the outcome of the round-by-round specification |
| MergeBase.InvariantKept | src/dit/core/merge_base.py:14-46 | every round keeps both seen sets within the ancestors of their start and disjoint from each other until a meeting is found |
| MergeBase.ComputesUnique | src/dit/core/merge_base.py:10-48 | the search has one answer |
| MergeBase.BaseIsCommon | src/dit/core/merge_base.py:10-48 | the answer is a common ancestor, and None exactly when there is none |
| MergeBase.BaseIsFirstMet | src/dit/core/merge_base.py:10-48 | the base is exactly the first commit, in the order of the expanding side, at the first half-round after which two searches run on their own have met |
| MergeBase.SoloBreadthFirst | src/dit/core/merge_base.py:20-46 | each search sees its commits breadth first: all within some number of steps of its start, and none more than one step further |
| MergeBase.SharedParent | src/dit/core/merge_base.py:10-48 | when two heads share a parent and neither is a parent of the other, the base is the first parent of the source that is also one of the target |
| MergeBase.BaseIsGate | src/dit/core/merge_base.py:10-48 | on every graph: a common ancestor through which both histories enter their common part is the answer |
| MergeBase.GateIsLowest | src/dit/core/merge_base.py:10-48 | every common ancestor is an ancestor of such a commit |
| MergeBase.BaseIsLowest | src/dit/core/merge_base.py:10-48 | the corollary for histories without merges: every common ancestor is an ancestor of the answer |
| MergeBase.FastForwardSound | src/dit/server/routes/merge.py:173-194 | a base equal to the target makes the source a descendant of the target |
| MergeBase.FastForwardThroughGate | src/dit/server/routes/merge.py:173-194 | the base equals the target when the source's history enters the target's only at the target, whatever merges lie on either side |
| MergeBase.FastForwardLinear | src/dit/server/routes/merge.py:173-194 | the corollary for linear histories: the base equals the target exactly when the source descends from it |
| MergeBase.BaseNotLowest | src/dit/core/merge_base.py:34-46 | in a family of histories with a merge the answer is the parent of a common ancestor |
| MergeBase.BaseNotLowestExample | src/dit/core/merge_base.py:34-46 | such a history exists |
| FileMerge.Decide | src/dit/core/merge.py:57-125 | the chain of tests in the source amounts to the classic rule: the unchanged side yields, equal sides agree, otherwise conflict or merge rows |
| FileMerge.MergePath | src/dit/core/merge.py:52-125 | one path: what stays, what conflicts, what is stored, and which manifests must be readable for it |
| FileMerge.MergeFiles | src/dit/core/merge.py:49-127 | the loop over sorted paths gives the specified files and conflicts, conflicts ordered by path |
| FileMerge.LoadTreeManifests | src/dit/core/merge.py:32-36 | the manifests of a commit by path; blobs are ignored |
| FileMerge.ThreeWayMerge | src/dit/core/merge.py:39-127 | the whole merge: files, conflicts and the manifests added to the store, whenever what must be read is there |
| FileMerge.FileFate | src/dit/core/merge.py:57-125 | every file's fate from its three versions alone: equal sides agree, an unchanged side yields, a file that all three have is merged row by row, and any other two changes conflict, as "modify_delete" when base has the file, else as "both_added", with the entries of the three versions |
| FileMerge.FileReads | src/dit/core/merge.py:57-125 | a file is read only where both sides changed it differently, and a merged manifest is stored only where all three versions have the file |
| FileMerge.UnchangedSideYields | src/dit/core/merge.py:57-107 | merging with an unchanged or an equal side gives the other side's files and no conflict |
| FileMerge.SwapMirrorsAll | src/dit/core/merge.py:57-125 | exchanging the sides mirrors every conflict, of files and of rows, for all trees |
| FileMerge.MergedRowsProvenance | src/dit/core/merge.py:95-107 | every row of a merged file is a row of one of the two versions of that file |
| MergeCommit.CollectSidecars | src/dit/server/routes/merge.py:204-216 | later sidecars replace earlier ones per path |
| MergeCommit.CommitMerge | src/dit/server/routes/merge.py:204-233 | the commit has the two heads as parents and a sorted flat tree of the merged manifests with sidecars from the target, else the source |
| MergeCommit.DoMerge | src/dit/server/routes/merge.py:196-233 | a commit exactly when there is no conflict; its files, its sidecars as they were in the old store, and exactly the objects that are stored |
| MergeCommit.MergeTreeReadBack | src/dit/server/routes/merge.py:218-224 | reading the merge commit back gives exactly the merged manifests with their sidecars |
| MergeCommit.MergeDrops | src/dit/server/routes/merge.py:204-224 | no blob of either side is in the merge, and a side's manifest is there exactly when the merged file is that manifest |
| MergeCommit.StaleSidecarIff | src/dit/server/routes/merge.py:204-224 | a merged file's sidecar is the target's if it has one, else the source's; it describes another manifest exactly when that side has no rows there, or only the other side changed them, or the row merge differs from that side |
| MergeCommit.StaleSidecar | src/dit/server/routes/merge.py:204-224 | a file that only the source changed carries the target's sidecar if there is one, whatever the source brings; a file that only the target changed, without a sidecar, carries the source's |
| MergeCommit.MergeTreeLookup | src/dit/core/tree_walker.py:86-115 | in a merge commit's tree, lookup finds exactly the files without a slash in their path |
| Walker.WalkCommitObjects | src/dit/core/walker.py:7-59 | the worklist walk returns exactly what is reachable from the head |
| Walker.WalkCommitObjectsSince | src/dit/core/walker.py:62-155 | the bounded walk returns the commits reached without passing the stop commit and everything below their trees |
| Walker.NewCommitIffPath | src/dit/core/walker.py:62-155 | the commits of the bounded walk are those to which some path of parents leads from the head without touching the stop commit |
| Walker.SinceMeaning | src/dit/core/walker.py:62-155 | everything else it returns lies below the tree of one of them |
| Walker.DeltaLaw | src/dit/core/walker.py:62-155 | if the stop commit is an ancestor, what it reaches together with what is new is what the head reaches |
| Walker.IsAncestor | src/dit/core/walker.py:158-178 | the search decides ancestry |
| Walker.AncestorIffPath | src/dit/core/walker.py:158-178 | ancestry means that a path of parents read from the store exists |
| Gc.MarkIndex | src/dit/core/gc.py:38-48 | staged manifests with their readable rows, and staged blobs, are marked |
| Gc.CollectLiveSet | src/dit/core/gc.py:26-50 | the marked set is what the refs reach and the index stages |
| Gc.SweepKind | src/dit/core/gc.py:62-97 | one kind: the unmarked objects older than the cutoff are deleted (not in a dry run), and the counters count the scanned, deleted and spared |
| Gc.SweepTmp | src/dit/core/gc.py:99-114 | old temporary files are deleted and counted |
| Gc.Sweep | src/dit/core/gc.py:53-116 | the whole sweep and its whole report |
| Gc.Gc | src/dit/core/gc.py:119-127 | mark and sweep together: new store, new temporary files, report |
| Gc.GcDeletesExactly | src/dit/core/gc.py:26-127 | a present object survives exactly when a ref or the index reaches it or it is not older than the cutoff |
| Gc.RefSurvives | src/dit/core/gc.py:26-127 | what a ref reaches is the same afterwards, all its present objects survive, and a complete closure stays complete |
| Gc.StagedSurvives | src/dit/core/gc.py:38-48 | the same for staged entries |
| Gc.StagedFileSurvives | src/dit/core/gc.py:38-48 | a staged blob survives with its time, and so does a staged manifest with all of its rows that are present |
| Gc.KeptAsItWas | src/dit/core/gc.py:62-114 | what is left keeps its time, and a temporary file goes exactly when it is older than the cutoff, in a dry run not at all |
| Gc.LiveStable | src/dit/core/gc.py:26-50 | marking again after the sweep marks the same objects |
| Gc.GcIdempotent | src/dit/core/gc.py:53-127 | a second collection at the same cutoff deletes nothing |
| Gc.SweepBalances | src/dit/core/gc.py:62-97 | scanned = marked and present + deleted + spared, also summed over the kinds |
| Gc.ReportMeaning | src/dit/core/gc.py:53-116 | the numbers of the report, per kind and in total, are the sizes of the sets they count |
| Fsck.Checker.Lookup | src/dit/core/fsck.py:92-111 | a failed read is recorded once with its reason and counted |
| Fsck.Checker.CheckManifest | src/dit/core/fsck.py:194-240 | checking a manifest covers exactly what it reaches |
| Fsck.Checker.CheckTree | src/dit/core/fsck.py:120-192 | checking a tree covers exactly what it reaches |
| Fsck.Checker.CheckCommit | src/dit/core/fsck.py:87-118 | checking a commit covers exactly what it reaches; visited objects are not visited again |
| Fsck.VerifyGraph | src/dit/core/fsck.py:82-243 | the reported issues are exactly the reachable objects that are missing or damaged, the counter is the length of the list, and only rows, sidecars and blobs are reported twice |
| Fsck.IssuesMeaning | src/dit/core/fsck.py:82-243 | an object is reported exactly when a ref reaches it and it is missing or damaged, as the one that it is |
| Fsck.SilentIffComplete | src/dit/core/fsck.py:82-243 | nothing is reported if and only if every ref's whole closure can be read |
| Fsck.DamageNoticed | src/dit/core/fsck.py:82-243 | damaging or deleting one object of a healthy store is reported exactly when it is reachable |
| Fsck.GcKeepsReport | src/dit/core/gc.py:26-127 | a collection leaves the report on the same refs unchanged |
| Fetch.BatchDownload | src/dit/cli/main.py:68-98 | after batches of 200, exactly the requested objects that the remote has are added |
| Fetch.WalkTree | src/dit/cli/main.py:2189-2217 | walking a tree downloads its subtrees and collects what else is missing below them |
| Fetch.FetchTreeObjects | src/dit/cli/main.py:2173-2258 | if the remote holds the whole tree, everything below every local tree is local afterwards, but for sidecars on entries that are not manifests |
| Fetch.FetchObjectsSince | src/dit/cli/main.py:2261-2296 | from a remote holding the tip's closure, into a store that is downward-closed but for such sidecars and holds the stop commit: the store is so again and holds the tip's closure but for such sidecars |
| Fetch.FetchKeepsClosed | src/dit/cli/main.py:2261-2296 | where the remote has sidecars on manifests only, a downward-closed store stays so and the tip's closure is the remote's |
| Fetch.FetchedMeaning | src/dit/cli/main.py:2261-2296 | a fetched tip has everything reachable but sidecars, and the sidecars of manifests too |
| Push.ToUpload | src/dit/cli/main.py:1964-1973 | the hashes asked for that no object of that type on the server has, in order; a list of more than 10,000 is refused |
| Push.UploadBatch | src/dit/core/remote.py:72-82 | binary first, JSON when that fails in any way: the batch succeeds exactly when the binary attempt fits and is answered or the JSON attempt is answered, and its correctly hashed objects are stored exactly when an attempt gets to the server |
| Push.UploadType | src/dit/cli/main.py:1979-1999 | the batches concatenate to the readable objects in order, each is cut as soon as it has 100 items or 10 MB, only the last may fall short, and all correctly hashed objects arrive |
| Push.PlanUploads | src/dit/cli/main.py:1964-1973 | what is missing of every type is found out before anything is sent |
| Push.UploadInOrder | src/dit/cli/main.py:1975-1999 | types go one after the other, so however the upload ends, a new object of a type is on the server only with everything of the types before |
| Push.PushObjects | src/dit/cli/main.py:1964-1999 | the same for rows, manifests, sidecars, blobs, trees, commits; it is refused exactly when a list is too long, and otherwise fails exactly when both attempts at a batch fail |
| Push.PushArrives | src/dit/cli/main.py:1964-1999 | after a successful push every wanted object that the client holds is on the server |
| Push.ArrivedMeaning | src/dit/cli/main.py:1964-1999 | exactly what an upload adds: the wanted objects that the client holds under their hash and that the server did not have |
| Push.CommitsLast | src/dit/cli/main.py:1964-1999 | however a push ends, once it has added a commit, all wanted rows, manifests, sidecars, blobs and trees that the client holds are on the server |
| Wire.ToBytes4 | src/dit/core/remote.py:94-97 | four bytes whose big-endian value is the number |
| Wire.UploadBatchBin | src/dit/core/remote.py:84-98 | the bytes built are the specified encoding, or none when a length does not fit |
| Wire.BatchUploadBin | src/dit/server/routes/objects.py:155-203 | for all bytes: the answer and exactly what is added to the store, including cut-off bodies, unknown types, more than 200 items, undecodable hashes and mismatches |
| Wire.AnswerMeaning | src/dit/server/routes/objects.py:155-203 | the answer to any bytes: a server error when the length byte is missing or the type or a hash is not text, a refusal of unknown types and of more than 200 items, otherwise a reply |
| Wire.AddsMeaning | src/dit/server/routes/objects.py:183-198 | what is added: the data of the correctly hashed items before the first hash that is not text |
| Wire.MismatchesMeaning | src/dit/server/routes/objects.py:192-198 | every badly hashed item is reported, with the hash it claimed and the hash it has |
| Wire.ReceiveItems | src/dit/server/routes/objects.py:183-198 | the item loop stores and counts the correctly hashed items up to the first undecodable hash |
| Wire.BatchUploadJson | src/dit/server/routes/objects.py:119-152 | the JSON fallback: refusal of unknown types and more than 200 items, otherwise every correctly hashed item is stored and every other reported |
| Wire.RoundTrip | src/dit/server/routes/objects.py:166-198 | decoding an encoding gives the same type and items and ends at the end of the body, or refuses more than 200 items |
| Wire.ExactBodyEncodes | src/dit/core/remote.py:84-98 | a body that decoding consumes exactly is the encoding of what it decodes to |
| Wire.UploadStoresAll | src/dit/server/routes/objects.py:155-203 | a batch of at most 200 correctly hashed objects is stored whole, without errors |
| Wire.OnlyHonestAdded | src/dit/server/routes/objects.py:192-198 | whatever the bytes, only data with the stated hash and of a known type is added, and a reply accounts for every item |
| Server.PushPlan | src/dit/cli/main.py:1947-1962 | what a client uploads, on top of what the server has, makes the pushed commit whole there |
| Server.MergePlan | src/dit/server/routes/merge.py:196-233 | what a merge stores makes the merge commit whole: every merged row comes from one of the heads |
| Server.FastForwardPlan | src/dit/server/routes/merge.py:173-194 | a fast-forward publishes a whole commit that descends from the target |
| Server.PushStep | src/dit/server/routes/refs.py:168-219 | the compare-and-swap that ends a push keeps the invariant |
| Server.MergeFinished | src/dit/server/routes/pulls.py:490-509 | the compare-and-swap that ends a merge, with the pull request's new status, keeps the invariant |
| Server.PlanMergeStep | src/dit/server/routes/pulls.py:570-659 | planning a merge or a conflict resolution keeps the invariant |
| Server.PrStep | src/dit/server/routes/pulls.py:330-361 | starting a pull-request merge and changing a status keep the invariant |
| Server.NextSafe | src/dit/server/routes/refs.py:136-219 | every step of every actor, further stored objects included, keeps the invariant, keeps objects, and moves refs only to descendants |
| Server.RefsAlwaysWhole | src/dit/server/routes/refs.py:136-219 | over every run, at every moment, each ref's whole closure is on the server |
| Server.RefsOnlyAdvance | src/dit/server/routes/refs.py:168-219 | over every run, a ref stays and only ever names descendants of what it named |
| Server.MergeCommitStays | src/dit/server/routes/pulls.py:409-510 | the merge commit recorded in a pull request is in its target branch's history ever after |
| Server.PushSucceeds | src/dit/cli/main.py:1947-2008 | an undisturbed push moves its ref, stores just what is new and leaves all else as it was |
| Server.SomeRunPublishes | src/dit/cli/main.py:1947-2008 | from the empty server some run publishes any commit whose closure a client holds |
| Server.MergedRowOrigin | src/dit/core/merge.py:95-107 | every row of a merged file comes from one of the two heads |
| Server.ResolvableIff | src/dit/server/routes/pulls.py:585-616 | for honest files: some choice resolves all conflicts exactly when each offers a row and no file has two conflicts |
| Server.ResolvesMeaning | src/dit/server/routes/pulls.py:585-616 | a resolution must name, for every conflict, a row that one of its two sides offers |
| Server.ResolvedKeepsOneRow | src/dit/server/routes/pulls.py:618-630 | a resolved file consists of the chosen row, and every other file is merged as ever |
| ServerRuns.HandleMerge | src/dit/server/routes/merge.py:148-235 | the handler, from merge base to stored objects, takes exactly the server's steps: a fast-forward, a planned merge with its objects stored, or all conflicts, in which case no merge could be planned and the row merges are stored nonetheless |
| ServerRuns.HandleResolve | src/dit/server/routes/pulls.py:570-659 | the same for a resolution: a planned merge commit of the chosen rows, or no conflict, or a conflict without a chosen row of its own; what is stored is exact in each case |
| ServerRuns.PickEntries | src/dit/server/routes/pulls.py:585-616 | the loop over the conflicts finds an entry for every conflicting file, or fails exactly when some conflict has no chosen row |
| ServerRuns.ComputeMergeability | src/dit/server/routes/pulls.py:146-163 | the check behind previews and pull requests: mergeable exactly without conflicts, and what it stores on the way |
| ServerRuns.MergeableIff | src/dit/server/routes/pulls.py:146-163 | mergeable is what can be merged: without conflicts, and only then, the server can fast-forward or plan a merge |
| ServerRuns.WholeMergeable | src/dit/core/merge.py:39-127 | between two commits whose closures are on the server, the merge finds every object it must read |
| ServerRuns.ConflictsStop | src/dit/core/merge.py:39-127 | with conflicts there is no merge commit that the server could plan |
| ServerRuns.PlanSucceeds | src/dit/server/routes/pulls.py:618-659 | an undisturbed merge or resolution of a planned request publishes its commit and closes the pull request |
| ServerRuns.FastForwardSucceeds | src/dit/server/routes/merge.py:173-194 | an undisturbed fast-forward moves the target ref to the source, stores nothing, and closes the pull request with the source as its merge commit |
| ServerRuns.RequestMerges | src/dit/server/routes/pulls.py:365-510 | an open request without conflicts, its recorded commits up to date, is merged in these steps: the target ref ends on the source commit or on a commit with the recorded target and source as parents, in this order, and with the merged files; no other ref moves |
| ServerRuns.BranchesMerge | src/dit/server/routes/merge.py:148-235 | the same for two branches merged directly |
| ServerRuns.RequestResolves | src/dit/server/routes/pulls.py:517-674 | a request with conflicts, with a row chosen for each, ends with a commit of both heads on the target branch whose conflicting files consist of their chosen rows |
| ServerRuns.OpensRequest | src/dit/server/routes/pulls.py:237-287 | opening a request records its two refs and their heads |
| ServerRuns.RefreshesRequest | src/dit/server/routes/refs.py:28-90 | refreshing an open request records the present heads of its refs, each as what it is |
| ServerRuns.UpdatesStatus | src/dit/server/routes/pulls.py:330-361 | a status change sets the status of its request and nothing else |
| ServerRuns.StaleRequestFails | src/dit/server/routes/pulls.py:409-510 | a push or merge whose ref has moved in the meantime changes nothing |
| ServerRuns.MergedStatusLost | src/dit/server/routes/pulls.py:350-358 | exactly when a merged request gets another status: when a change to it, let through before the merge, is written after it |
| ServerRuns.SomeRunMerges | src/dit/server/routes/merge.py:148-235 | for every fork with an unchanged target tree, some run from the empty server ends with the merge commit on the target branch |
| ServerRuns.SomeRunResolves | src/dit/server/routes/pulls.py:517-659 | for every fork with conflicts and every choice of a row for each, some run ends with the resolved merge commit on the target branch and the pull request merged |
| Diff.DiffManifests | src/dit/core/diff.py:23-58 | the bucket-based matching computes the specified difference |
| Diff.MatchRefreshes | src/dit/core/diff.py:30-46 | popping the buckets pairs each addition with the first unused removal of its fingerprint |
| Diff.DiffEmptyIff | src/dit/core/diff.py:51-58 | the difference is empty exactly when the manifests are the same sequence |
| Diff.DiffApplies | src/dit/core/diff.py:23-58 | applying the difference to the old rows gives the new rows |
| Diff.RefreshesInOrder | src/dit/core/diff.py:39-46 | per fingerprint the refreshes pair the first removals with the first additions in order, as many as there are of both |
| Diff.DiffBalances | src/dit/core/diff.py:23-58 | with distinct rows, the growth of the file is additions less removals |
| Diff.PairsCount | src/dit/core/diff.py:39-46 | among distinct rows every refresh uses a removed and an added row of its own |
| Diff.BroughtIn | src/dit/core/diff.py:51-58 | a row is reported as brought in exactly when it is new or the whole file was reordered |
| Diff.RefreshEnds | src/dit/core/diff.py:39-46 | a refresh joins an old and a new row of one fingerprint |
| Diff.RefreshReported | src/dit/core/diff.py:30-46 | an old and a new row that are the only ones of their fingerprint to go and to come are reported as a refresh, and neither as removed or added |
| Diff.AdditionReported | src/dit/core/diff.py:23-58 | a new row without a vanished row of its fingerprint is reported as added |
| Diff.RemovalReported | src/dit/core/diff.py:23-58 | a vanished row without a new row of its fingerprint is reported as removed |
| Diff.ReorderReported | src/dit/core/diff.py:51-58 | the same rows in another sequence are reported as removed and added in full |
| Blame.TryGetManifest | src/dit/core/blame.py:25-58 | a commit's version of a file, or nothing when commit, path or manifest is missing or the path is a blob |
| Blame.ManifestAtMeaning | src/dit/core/blame.py:25-47 | on a tree built from staged files: all entries of the manifest staged at the path, in order, if its object is present, and nothing otherwise; slashes in front of the path do not matter |
| Blame.WalkBack | src/dit/core/blame.py:79-158 | the walk along first parents attributes every row to its origin |
| Blame.OriginNearest | src/dit/core/blame.py:79-158 | the origin of a row is the nearest commit along first parents that introduces it, and every commit before it has the file |
| Blame.BlameFile | src/dit/core/blame.py:72-171 | one line per row, in order, naming the nearest first-parent commit whose parent is absent, lacks the file, lacks the row, or has the rows in another sequence; the "unknown" fallback never appears |
| Blame.RowHistory | src/dit/core/blame.py:188-284 | the events of the row at a position, or the reason there are none |
| Blame.HistoryEndsAdded | src/dit/core/blame.py:216-260 | a history starts with the row asked for, ends in "added", and has only refreshes in between |
| Blame.HistoryLinks | src/dit/core/blame.py:262-276 | each refresh event replaced the row of the next older event |
| Blame.HistoryOneFingerprint | src/dit/core/blame.py:188-284 | all rows of a history have one fingerprint |
| Blame.HistoryNewest | src/dit/core/blame.py:123-158 | the newest event names the commit that blame names |
| Blame.HistoryIsIteratedBlame | src/dit/core/blame.py:209-276 | each older event is what blame says of the replaced row before the refresh |
| Blame.ReorderTakesBlame | src/dit/core/diff.py:51-56 | a reordering commit takes the blame of every row |
| Checkout.IsInSparseSet | src/dit/core/sparse.py:29-35 | listed, or below a listed path that ends in a slash |
| Checkout.RenderRows | src/dit/core/workspace.py:97-102 | the text of a manifest is its rows in order, each with a newline, if all can be read |
| Checkout.RenderLines | src/dit/core/workspace.py:97-102 | cutting the text at its newlines gives the texts of the rows in order, when no row holds one |
| Checkout.FreshCheckout | src/dit/cli/main.py:705-750 | from a staged map to the disk: a checkout from scratch leaves exactly the staged files of the sparse set, except missing blobs, each with the bytes of its blob or with the lines of its rows |
| Checkout.CheckoutAt | src/dit/cli/main.py:717-750 | what a checkout does to one path: nothing where neither tree has it or both have it alike, a deletion where only the old one has it, else the new content |
| Checkout.KeptMeaning | src/dit/cli/main.py:744-750 | a directory goes only when a deleted file was below it and nothing that is left is |
| Checkout.Workspace.MaterializeFile | src/dit/core/workspace.py:92-102 | succeeds exactly when the path clashes with no file or directory and every row can be read, and then writes the file and its directories |
| Checkout.Workspace.WriteManifests | src/dit/cli/main.py:726-730 | writes exactly the manifests that differ from the old tree |
| Checkout.Workspace.WriteBlobs | src/dit/cli/main.py:732-738 | writes exactly the blobs that differ and are present |
| Checkout.Workspace.Remove | src/dit/cli/main.py:744-750 | deletes a file and the directories it leaves empty, and no other |
| Checkout.Workspace.RemoveAll | src/dit/cli/main.py:740-750 | deletes the files of a set of names, failing where a name has become a directory |
| Checkout.Workspace.MaterializeTree | src/dit/cli/main.py:705-750 | from any working files and directories, empty ones included: when it succeeds, and exactly which files and directories are left then |
| Checkout.IncrementalExactIff | src/dit/cli/main.py:705-750 | the incremental checkout leaves exactly the new view if and only if the files it does not write are intact and every other file belongs to the old tree |
| Checkout.IncrementalIsFull | src/dit/cli/main.py:705-750 | from the old tree to the new one under one sparse set it leaves the same files and directories as a checkout from scratch |
| Checkout.CleanSwitchIff | src/dit/cli/main.py:717-750 | under any sparse set, from a clean working copy the switch succeeds exactly when the two views do not clash and no old path missing from the new view is a directory of either |
| Checkout.FullSwitchIff | src/dit/cli/main.py:726-750 | without a sparse set, exactly when the two trees do not clash |
| Checkout.FileMeetsDirectory | src/dit/cli/main.py:717-750 | a file on disk in the place of a new directory, or the reverse, stops the switch |
| Checkout.HiddenFileBlocks | src/dit/cli/main.py:740-750 | so does an old file outside the sparse set, in the place of a new directory inside it |
| Checkout.HiddenFileBlocksExample | src/dit/cli/main.py:740-750 | old tree `d`, new tree `d/x`, sparse set `d/`: nothing is on disk, and the switch fails |
| Checkout.TidyStaysTidy | src/dit/cli/main.py:744-750 | deleting files from a working copy without empty directories leaves none |
| SingleFlight.SummaryCache.EnterLock | src/dit/core/runtime_metadata.py:32-44 | the first critical section: hit and refresh the position, or join a computation, or register one |
| SingleFlight.SummaryCache.Clear | src/dit/core/runtime_metadata.py:16-19 | the cache and the registrations are emptied; events stay as they are |
| SingleFlight.SummaryCache.SetRegistered | src/dit/core/runtime_metadata.py:55-60 | after a failure the registered event is taken and set |
| SingleFlight.SummaryCache.PublishSummary | src/dit/core/runtime_metadata.py:62-69 | the value is stored, the oldest entries beyond the bound are evicted, and the registered event is set |
| SingleFlight.HitLookup | src/dit/core/runtime_metadata.py:35-38 | a request is answered from the cache exactly when it asks for no refresh and the key is there; a hit changes no lookup and makes the key the youngest, and a refresh forgets the key and no other |
| SingleFlight.PublishLookup | src/dit/core/runtime_metadata.py:62-65 | the published key is found, also by the next request for it; of the others only the oldest is lost, and only when a full cache gets a new key |
| SingleFlight.PutPlace | src/dit/core/runtime_metadata.py:62-65 | a key that is already there keeps its place, a new one is the youngest |
| SingleFlight.ReleaseMeaning | src/dit/core/runtime_metadata.py:55-69 | releasing a key sets the event registered for it and no other, and leaves the other registrations |
| SingleFlight.OneComputationServes | src/dit/core/runtime_metadata.py:22-69 | right after a computation, every thread that asks for the key without a refresh, and every follower that wakes for it, returns that summary without computing |
| SingleFlight.ClearForgets | src/dit/core/runtime_metadata.py:16-19 | after a clear no key is found and whoever asks first for one computes it; the clear itself moves no thread and sets no event |
| SingleFlight.FailureWakes | src/dit/core/runtime_metadata.py:52-60 | a failed computation publishes nothing and wakes its followers, who compute for themselves unless the key is cached |
| SingleFlight.ApplyKeeps | src/dit/core/runtime_metadata.py:16-69 | every step keeps the invariant: bounded correct cache, each registered event unset with its leader computing; and as long as nothing is cleared, every leader registered |
| SingleFlight.ResultsCorrect | src/dit/core/runtime_metadata.py:16-69 | over every run, failing computations and clears included, every returned summary is the computed one and the cache is within its bound |
| SingleFlight.WaiterHasLeader | src/dit/core/runtime_metadata.py:46-51 | unless a clear stranded it, a waiter's event is set or its leader is computing the same key |
| SingleFlight.OneLeader | src/dit/core/runtime_metadata.py:40-44 | without clears, at most one leader with an unset event computes a key |
| SingleFlight.NoDeadlock | src/dit/core/runtime_metadata.py:16-69 | over every run, while a thread is unfinished that no clear found waiting on an unset event, some thread can move |
| SingleFlight.StuckIff | src/dit/core/runtime_metadata.py:16-69 | over every run, nobody can move exactly when every thread is finished or stranded |
| SingleFlight.RunsEnd | src/dit/core/runtime_metadata.py:22-69 | a run has at most four steps per thread besides clears |
| SingleFlight.ClearStrandsIff | src/dit/core/runtime_metadata.py:16-19 | a clear strands exactly the threads that wait on an unset event |
| SingleFlight.OnlyClearStrands | src/dit/core/runtime_metadata.py:22-69 | no other step strands a thread or frees one |
| SingleFlight.StrandedForever | src/dit/core/runtime_metadata.py:46-51 | a stranded thread stays where it is for the rest of every run |
| SingleFlight.StrandedIff | src/dit/core/runtime_metadata.py:16-69 | over every run, a thread is stranded exactly when some earlier clear found it waiting on an unset event |
| SingleFlight.ClearStrandsFollower | src/dit/core/runtime_metadata.py:16-19 | a run in which a clear leaves a follower waiting and nobody can move |

## Left out

- SHA-256, zstd, JSON text and row canonicalisation: hashing is taken as injective, and serialising and deserialising as mutually inverse.  Malformed hash strings, objects that do not parse, and objects whose bytes do not match their name are therefore not representable; the hash pass of the integrity check (src/dit/core/fsck.py:38-79) only looks for those.
- HTTP, database sessions, tokens, branch protection, approvals, webhooks and limits on rates: plumbing.  A conditional `UPDATE` is one atomic step.  Checks that only refuse requests remove steps and so cannot break what is proved over all runs.
- Writes of unchanged values that the object-relational mapper leaves out: in the model a status change writes its status also when that is the status it read.
- Ref deletion and garbage collection on a live server: the server's runs contain neither.
- The mergeable flag and the list of conflicting files kept with a pull request: computed (`ServerRuns.ComputeMergeability`) but not part of the server's state, since no decision reads them.
- MergeLaws.MergeIsRule: needs one entry per key, because repeated fingerprints make the algorithm lose or resurrect rows; `MergeLaws.RowFate` covers all honest manifests, as a set of rows, and `MergeLaws.MergeProvenance` all manifests.
- Push.UploadBatch: takes base64 as exact, so the "invalid base64" reply cannot occur, and does not model the single uploads to a server without the batch routes (status 404).
- Fetch.BatchDownload: does not model the fallback to single downloads or the counts it prints.
- Checkout.Workspace.MaterializeTree: does not say what is left behind when it raises; when the old tree has a path that is a directory of another, whether the deletions succeed depends on their order, and only the sufficient condition is stated; and it does not model the path normalisation of `pathlib` (empty, "." and ".." components).
- Gc.Sweep: models no I/O errors, so the error list of the report is empty and left out.
- Fsck.VerifyGraph: does not fix the order of the list or model Python's recursion limit.
- Merge and cherry-pick continuation, which write flat trees from the index: they would repeat `MergeCommit` with other inputs.
- Command line, configuration, colours, search, export, validation, statistics, sidecar computation: easy scans and user interface.
- The staging index's file lock and the atomic rename of ref files: each operation is atomic here.
- Sparse clones, which keep stores that are not downward-closed on purpose.
- The row-size cache of src/dit/core/stats.py: a reader that fails there never sets its event.
