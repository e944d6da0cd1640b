# Buffout 4: models of the replaced structures and protocols

Most of Buffout 4 patches machine code. Some of its patches, though, put
hand-written data structures and concurrent protocols in the place of the
engine's, and why they are right is said in comments only. This project models
those and proves what the comments claim. `dafny verify dfyconfig.toml` checks
all of it.

| files | what they model |
|---|---|
| `FormIds`, `IdMaps`, `ShardedMap` | the VR map from form ids to objects: 64 shards, each an exact map for special ids and sorted buckets for the rest |
| `FlatGameMap` | the flat game's map, which appends and sorts, side by side with the VR one |
| `CullingProtocol`, `CullingLocks`, `CullingSafety`, `CullingSteps` | updates of our map and the stock table beside any number of passes and lookups |
| `ArenaWalk` | the walk over linked pages of records |
| `PerfCounters` | batched lookup statistics |
| `WorkshopSearch` | the cached, depth-capped search through form lists |
| `WorkshopLookup` | the memoised recipe lookup |
| `MenuOrder`, `MenuArrange`, `MenuTree`, `MenuContents`, `MenuBuilder` | order, arrangement, content and construction of the workshop menu, on values and in place |
| `Spinlock` | the replacement spinlock |
| `AllocTracer` | the debug allocation tracer |
| `WorkSplit` | the render-pass work splitter |
| `ModuleLookup` | finding the module of a code pointer |
| `Prelude` | options, map access and the binary search behind `std::lower_bound` |

## How the models read

Single-threaded code that changes things step by step is modelled by classes
and methods proved against functions. Code whose point is what several threads
do to each other is a transition system: a state, one action for each atomic
access or lock operation, and theorems about every reachable state or every run
of any number of threads.

**Culling.** `After`, `TablesAfter`, `RefsAfter` and `LocksAfter` say what one
action does. The assumptions are those of the comments at
`src/Patches/BSPreCulledObjectsPatchVR.cpp` lines 387-390 and 560-571:
`bUsePreCulledObjects` is on throughout and both tables start empty; every stock
update goes through the hook; the original updater changes the stock table only
while it holds the stock lock exclusively; the caller of an update holds a
reference to its argument until the call returns; no object's destructor calls
back into an update. The stock table appears as a map with one reference for
each entry.

**Workshop menu.** A node's data names recipes by their form ids, which are
unique. `Data.matches` is what the lookup table answers for a keyword;
`WorkshopLookup` proves that this is one fixed answer for each keyword whatever
was asked before. Form lists are acyclic, given by a rank that falls from a list
to the lists in it; on cyclic lists the original may not return. While the menu
is built, the root's own id field is the id counter; it starts at 2^32 - 1.
`MenuBuilder` builds objects with parent links in place and proves that they show
the value trees of `MenuTree`; `MenuContents` says what is in these trees without
mentioning how they are made.

**Spinlock.** The flag-first variant follows the comment at
`src/Fixes/EscapeFreeze.h` lines 46-50, which says what the earlier order of the
same stores led to.

**Allocation tracer.** A reallocation may return null, with the old block kept or
gone. The theorems hold for every run, those included.

**Work splitting.** `RunJobs` runs the claimed pieces one after the other in the
order of the claims. Threads that run them at the same time touch different tasks
and different jobs.

**Findings.** Places where a plain reading promises more than the code keeps, each
with an input and its exact condition:

- The search misses a match that only lies more than 64 lists deep
  (`SearchIsCappedReachability`, `CapMisses`).
- The module search compares with `>=`, so a pointer to a module's very base is
  not found although `in_range` would accept it (`MissesOnlyBases`,
  `FirstByteIsMissed`).
- When a traced block's reallocation returns null, the trace is moved to null. A
  later free of null with the other flag is then reported and ends the process,
  and a block that the failed reallocation kept has lost its trace
  (`NullFreeReported`, `MatchedFreesPassExactly`, `KeptBlockLosesItsTrace`).
- An arena that ends at the end of its last page is walked past its end when
  another page is linked there (`VisitsAreExact`, `RunsPastTheEnd`).
- What the hooked lookup returns outside a pass is safe only until an update of
  the same id starts (`FoundStaysAlive`, `AnswerCanBeDead`).

## Model

| member | source | states |
|---|---|---|
| `FormIds.SplitIsMaskAndShift` | `src/Patches/BSPreCulledObjectsPatchVR.cpp:11-20` | remainder and quotient by 2^24 are the masked base id and the shifted file index, for every 32-bit id |
| `FormIds.ShardIsMask` | `src/Patches/BSPreCulledObjectsPatchVR.cpp:200-207` | the base id modulo 64 is the double mask of ShardIndex, for every 32-bit id |
| `FormIds.SameBase` | `src/Patches/BSPreCulledObjectsPatchVR.cpp:200-207` | ids with one base share a shard, so a bucket lies wholly in one shard; inside a bucket ascending full id is ascending file index |
| `FormIds.SpecialRanges` | `src/Patches/BSPreCulledObjectsPatchVR.cpp:40-41` | the special ids are those below 0x01000000 and those from 0xFD000000 to 0xFDFFFFFF |
| `IdMaps.RepresentationDetermined` | `src/Patches/BSPreCulledObjectsPatchVR.cpp:154-161` | two well-formed container pairs (buckets non-empty, strictly sorted, keyed by their members' base; special ids apart) that represent one flat map are equal |
| `IdMaps.PutRepresents` | `src/Patches/BSPreCulledObjectsPatchVR.cpp:120-148` | putting an entry into its bucket at its lower bound keeps the buckets well formed and represents the flat map with that id assigned |
| `IdMaps.DropRepresents` | `src/Patches/BSPreCulledObjectsPatchVR.cpp:101-118` | taking an id out of its bucket, and dropping a bucket that becomes empty, represents the flat map without that id |
| `IdMaps.FindSlot` | `src/Patches/BSPreCulledObjectsPatchVR.cpp:49-50` | the slot returned separates the smaller ids of a bucket from the rest |
| `IdMaps.IDTo3DMap.FindOne` | `src/Patches/BSPreCulledObjectsPatchVR.cpp:38-57` | finds exactly the object that the flat map has for the id, special or not |
| `IdMaps.IDTo3DMap.InsertOrAssign` | `src/Patches/BSPreCulledObjectsPatchVR.cpp:62-70` | the flat map gains id and object, well-formedness is kept, and the value returned is the one displaced |
| `IdMaps.IDTo3DMap.InsertGeneric` | `src/Patches/BSPreCulledObjectsPatchVR.cpp:120-148` | the same for an ordinary id, where the special map is not touched |
| `IdMaps.IDTo3DMap.Erase` | `src/Patches/BSPreCulledObjectsPatchVR.cpp:72-85` | the flat map loses the id, and the value returned is the one removed, if any |
| `IdMaps.IDTo3DMap.EraseGeneric` | `src/Patches/BSPreCulledObjectsPatchVR.cpp:101-118` | the same for an ordinary id; an empty bucket does not stay |
| `ShardedMap.PartitionPut` | `src/Patches/BSPreCulledObjectsPatchVR.cpp:273-281` | assigning in the id's shard alone is assigning in the union of all shards |
| `ShardedMap.IDTo3DHandler.MapFindOne` | `src/Patches/BSPreCulledObjectsPatchVR.cpp:266-271` | the sharded map answers as one flat map |
| `ShardedMap.IDTo3DHandler.MapInsertOrAssign` | `src/Patches/BSPreCulledObjectsPatchVR.cpp:273-281` | one flat map gains id and object; the value displaced comes back |
| `ShardedMap.IDTo3DHandler.MapErase` | `src/Patches/BSPreCulledObjectsPatchVR.cpp:283-291` | one flat map loses the id; the value removed comes back |
| `ShardedMap.IDTo3DHandler.Run` | `src/Patches/BSPreCulledObjectsPatchVR.cpp:266-291` | any sequence of insertions, erasures and lookups has the answers and the end of the same sequence on one flat map |
| `ShardedMap.ReplayIsLastWrite` | `src/Patches/BSPreCulledObjectsPatchVR.cpp:266-291` | what a history leaves under an id: the object of the last write to it if that is an insertion, nothing if that is an erasure, what was there if there is none |
| `ShardedMap.ReplayAnswers` | `src/Patches/BSPreCulledObjectsPatchVR.cpp:266-291` | each operation answers with what stood under its id just before it |
| `FlatGameMap.SortById` | `src/Patches/BSPreCulledObjectsPatch.h:103-107` | sorting gives an ascending permutation |
| `FlatGameMap.AppendThenSort` | `src/Patches/BSPreCulledObjectsPatch.h:144-152` | appending a new id and sorting gives the bucket that insertion at the lower bound gives |
| `FlatGameMap.FlatIDTo3DMap.Find` | `src/Patches/BSPreCulledObjectsPatch.h:30-47` | for an ordinary index exactly the ordinary entries that share the base id, in ascending id order; for 0x00 and 0xFD at most the exact id |
| `FlatGameMap.BucketMeans` | `src/Patches/BSPreCulledObjectsPatch.h:30-47` | the same in plain numbers: special ids as ranges, ordinary ids by their low 24 bits |
| `FlatGameMap.FlatIDTo3DMap.CallsForIDs` | `src/Patches/BSPreCulledObjectsPatch.h:287-305` | the callback is called on the bucket of each listed id in turn, in list order and inside a bucket in ascending id order |
| `FlatGameMap.CallsAreCounted` | `src/Patches/BSPreCulledObjectsPatch.h:297-305` | so each entry is handed over once for every listed id that stands for it (a special id for itself, an ordinary one for its whole base), and nothing else is |
| `FlatGameMap.CallsAreDetermined` | `src/Patches/BSPreCulledObjectsPatch.h:103-107` | the flat map and the list of ids determine the calls and their order |
| `FlatGameMap.FlatIDTo3DMap.InsertOrAssign` | `src/Patches/BSPreCulledObjectsPatch.h:49-57` | the flat map gains id and object |
| `FlatGameMap.FlatIDTo3DMap.Erase` | `src/Patches/BSPreCulledObjectsPatch.h:59-67` | the flat map loses the id |
| `FlatGameMap.ReplayBoth` | `src/Patches/BSPreCulledObjectsPatch.h:128-153` | after every history the append-then-sort map and the lower-bound map hold equal buckets and equal special maps |
| `CullingLocks.LocksKept` | `src/Patches/BSPreCulledObjectsPatchVR.cpp:560-578` | every step keeps each lock held by exactly the threads whose program points say so: one updater of a shard's ids, one editor or some readers of a shard, one owner or some readers of the stock lock |
| `CullingLocks.Progress` | `src/Patches/BSPreCulledObjectsPatchVR.cpp:210-215` | while an operation is unfinished, some unfinished operation has an enabled step, and taking it shortens the work left |
| `CullingLocks.CanDrain` | `src/Patches/BSPreCulledObjectsPatchVR.cpp:560-578` | from every state with sound locks, all operations under way can be completed without starting another |
| `CullingSteps.UpdaterGetsLock` | `src/Patches/BSPreCulledObjectsPatchVR.cpp:560-578` | in every reachable state an updater gets the writer lock exactly if no updater of the shard is past it, the shard lock exactly if nobody reads or edits the shard, and the stock lock exactly if no pass and no other updater is inside |
| `CullingSteps.ReaderGetsLock` | `src/Patches/BSPreCulledObjectsPatchVR.cpp:266-271` | a pass gets the stock read lock exactly if no updater owns it, and a reader the shard lock exactly if nobody edits the shard: readers share |
| `CullingSafety.InvKept` | `src/Patches/BSPreCulledObjectsPatchVR.cpp:550-579` | every step of updaters, passes and lookups keeps table agreement, the updaters' knowledge, protection of fetched objects and exact reference counts |
| `CullingSafety.EngineKeeps` | `src/Patches/BSPreCulledObjectsPatchVR.cpp:567-570` | creations, further references and releases by the rest of the engine keep all of that too, with addresses used again |
| `CullingSafety.HeldIsAlive` | `src/Patches/BSPreCulledObjectsPatchVR.cpp:387-414` | in every reachable state a pass that has fetched an object is still under the stock read lock and the object has a reference |
| `CullingSafety.FetchedStaysAlive` | `src/Patches/BSPreCulledObjectsPatchVR.cpp:387-414` | over every run, what a pass has fetched stays fetched and alive at each step until it releases the stock read lock |
| `CullingSafety.DisplacedNotLast` | `src/Patches/BSPreCulledObjectsPatchVR.cpp:273-291` | giving back the reference that left our map never destroys the object |
| `CullingSafety.TablesDifferOnlyMidUpdate` | `src/Patches/BSPreCulledObjectsPatchVR.cpp:550-579` | the two tables differ at an id only while exactly one updater of that id is between its map step and its stock step |
| `CullingSafety.QuietRun` | `src/Patches/BSPreCulledObjectsPatchVR.cpp:567-578` | over a stretch of a run without an update of an id under way, neither table changes at it and both agree |
| `CullingSafety.RealMissOverlapsUpdate` | `src/Patches/BSPreCulledObjectsPatchVR.cpp:729-752` | a miss that the sentinel counts as real overlapped an update of the same id |
| `CullingSafety.FoundStaysAlive` | `src/Patches/BSPreCulledObjectsPatchVR.cpp:701-728` | an object read by a lookup outside a pass is alive at each later step as long as no update of its id is under way |
| `CullingSafety.AnswerCanBeDead` | `src/Patches/BSPreCulledObjectsPatchVR.cpp:709-728` | a run in which a removal overlaps such a lookup and its answer has no reference left before it is returned |
| `CullingSteps.PassGetsTheEntry` | `src/Patches/BSPreCulledObjectsPatchVR.cpp:399-413` | a pass that reads an id then holds what it held before and our map's entry for the id, and nothing else |
| `CullingSteps.OnlyReadsFetch` | `src/Patches/BSPreCulledObjectsPatchVR.cpp:399-413` | no other step of a pass changes what it holds |
| `CullingSteps.FetchedIsTheStockEntry` | `src/Patches/BSPreCulledObjectsPatchVR.cpp:387-413` | while no update of the id is under way, what a pass fetches is the stock table's entry, then and later |
| `CullingSteps.MapStep` | `src/Patches/BSPreCulledObjectsPatchVR.cpp:571-575` | the map step makes our map give the argument for the id, changes no other id and no stock entry, and hands over what was displaced |
| `CullingSteps.StockEdit` | `src/Patches/BSPreCulledObjectsPatchVR.cpp:576-578` | the stock step, likewise |
| `CullingSteps.OnlyUpdatersEdit` | `src/Patches/BSPreCulledObjectsPatchVR.cpp:550-579` | no other step changes a table |
| `CullingSteps.LookupAnswers` | `src/Patches/BSPreCulledObjectsPatchVR.cpp:701-728` | a lookup answers with our map's entry for its id |
| `CullingSteps.SentinelCounts` | `src/Patches/BSPreCulledObjectsPatchVR.cpp:743-751` | a sentinel call counts one miss, as real exactly if the stock table has the id and as a ghost exactly if it has not |
| `CullingSteps.PassHolds` | `src/Patches/BSPreCulledObjectsPatchVR.cpp:392-413` | a reachable state in which a pass holds an object |
| `CullingSteps.DisplacesAnObject` | `src/Patches/BSPreCulledObjectsPatchVR.cpp:283-291` | a reachable state in which an updater is about to drop a displaced object |
| `CullingSteps.RealMissHappens` | `src/Patches/BSPreCulledObjectsPatchVR.cpp:729-751` | a reachable state in which the sentinel has counted a real miss |
| `CullingSafety.ReachableProgress` | `src/Patches/BSPreCulledObjectsPatchVR.cpp:210-215` | no reachable state is stuck, and each can be brought to rest |
| `ArenaWalk.ForEachArenaRecord` | `src/Patches/BSPreCulledObjectsPatchVR.cpp:421-498` | the cursor loop visits the addresses that the recursive walk lists, for any memory contents |
| `ArenaWalk.VisitsAreBounded` | `src/Patches/BSPreCulledObjectsPatchVR.cpp:435-454` | for any memory contents at most 1,000,000 records are visited, each inside a page reachable from the head |
| `ArenaWalk.VisitsAreExact` | `src/Patches/BSPreCulledObjectsPatchVR.cpp:416-498` | on a page chain, the live records and nothing else are visited if and only if there are at most 1,000,000 and the arena ends inside a page, or the word at its end is null or the end itself, or the visits are used up there |
| `ArenaWalk.LiveRecords` | `src/Patches/BSPreCulledObjectsPatchVR.cpp:416-420` | the live records are listed in page order, once each |
| `ArenaWalk.RunsPastTheEnd` | `src/Patches/BSPreCulledObjectsPatchVR.cpp:488-495` | one full page with another one linked behind it, where the walk visits more than the live records |
| `PerfCounters.AlwaysInv` | `src/Patches/BSPreCulledObjectsPatchVR.cpp:716-752` | at every moment a thread's local counters are its totals modulo 64 and 2^32, and the shared counters hold the rest |
| `PerfCounters.CountsAreConserved` | `src/Patches/BSPreCulledObjectsPatchVR.cpp:602-676` | drained, shared and thread-local counts add up to all hits, misses and sentinel calls: exactly below 2^64, modulo 2^64 beyond |
| `PerfCounters.PublishedInBatches` | `src/Patches/BSPreCulledObjectsPatchVR.cpp:716-738` | published hit and miss totals are multiples of 64, wrap-around included |
| `PerfCounters.SentinelEvery4096` | `src/Patches/BSPreCulledObjectsPatchVR.cpp:735-743` | each thread has called the sentinel on exactly every 4096th of its misses, across 32-bit wrap-around |
| `PerfCounters.TotalsAreEvents` | `src/Patches/BSPreCulledObjectsPatchVR.cpp:719-736` | a thread's totals are its hits and misses among the events |
| `PerfCounters.SentinelVerdicts` | `src/Patches/BSPreCulledObjectsPatchVR.cpp:743-751` | real misses, drained or not, are the sentinel calls that the original would have answered, and ghost misses are the others |
| `PerfCounters.GateEvery256` | `src/Patches/BSPreCulledObjectsPatchVR.cpp:628-634` | the value read by a publish is on the gate exactly for every 256th publish since a drain, across 64-bit wrap-around |
| `PerfCounters.GateOnceIn256` | `src/Patches/BSPreCulledObjectsPatchVR.cpp:723-741` | among any 256 consecutive publishes without a drain exactly one opens the gate |
| `WorkshopSearch.Workshop.TryBuildMap` | `src/Patches/FasterWorkshopPatch.cpp:22-69` | the nested loops build for every keyword exactly the recipes listed under it, in array order; an index that is there is kept |
| `WorkshopSearch.IndexAnswersScan` | `src/Patches/FasterWorkshopPatch.cpp:106-117` | asking the index is scanning all recipes |
| `WorkshopSearch.RecipesForMeans` | `src/Patches/FasterWorkshopPatch.cpp:40-62` | a recipe is indexed under a keyword if and only if it is there, creates an item, and one of its filter entries (all of them up to 32, the first one beyond) names the keyword |
| `WorkshopSearch.RecipesForOrder` | `src/Patches/FasterWorkshopPatch.cpp:40-62` | it is listed once for each such entry, and positions in the array ascend |
| `WorkshopSearch.Workshop.CheckImpl` | `src/Patches/FasterWorkshopPatch.cpp:84-121` | the recursive method answers what the depth-capped search says, and builds the index at most when it needs it |
| `WorkshopSearch.Workshop.CheckForValidChildren` | `src/Patches/FasterWorkshopPatch.cpp:123-128` | the answer in plain terms: true if and only if a path of at most 64 lists leads from the given list to one with a keyword other than the context, which a filter entry of a shown recipe names; no list is answered with false |
| `WorkshopSearch.Workshop.HandlerLeafNode` | `src/Patches/FasterWorkshopPatch.cpp:136-148` | adds exactly the recipes listed under the keyword, in array order |
| `WorkshopSearch.Workshop.ClearMap` | `src/Patches/FasterWorkshopPatch.cpp:213-216` | after a clear the index is valid for any data |
| `WorkshopSearch.SearchIsCappedReachability` | `src/Patches/FasterWorkshopPatch.cpp:74-121` | on every graph: true if and only if a showable keyword other than the context is reached through at most 64 lists |
| `WorkshopSearch.SearchMeans` | `src/Patches/FasterWorkshopPatch.cpp:74-121` | the same for the search itself, on every graph |
| `WorkshopSearch.SearchIsReachability` | `src/Patches/FasterWorkshopPatch.cpp:74-121` | with at most 64 distinct lists, cyclic or not: true if and only if one is reachable at all |
| `WorkshopSearch.SearchIsSound` | `src/Patches/FasterWorkshopPatch.cpp:84-121` | on every graph, never true without a reachable match |
| `WorkshopSearch.CapMisses` | `src/Patches/FasterWorkshopPatch.cpp:78` | a chain of 65 lists shows that the bound of 64 cannot be dropped |
| `WorkshopLookup.BinarySearch` | `src/Patches/WorkshopMenuPatch.h:194-199` | on sorted ids the search is membership |
| `WorkshopLookup.StoredItems` | `src/Patches/WorkshopMenuPatch.h:321-336` | the forms stored with a positive count, sorted |
| `WorkshopLookup.LookupTable.Lookup` | `src/Patches/WorkshopMenuPatch.h:161-179` | the answer is the in-order filter of the snapshot by the uncached test; the misc-item keyword stands for no filter |
| `WorkshopLookup.LookupTable.WorkshopCanShowRecipe` | `src/Patches/WorkshopMenuPatch.h:230-242` | the cached test is the direct one, cached values stay right |
| `WorkshopLookup.LookupTable.HasKeyword` | `src/Patches/WorkshopMenuPatch.h:207-219` | the cached answer is the workshop's |
| `WorkshopLookup.LookupTable.HasStoredItem` | `src/Patches/WorkshopMenuPatch.h:221-228` | the search for the item, or for the spline object in its place, is the direct question to the stored entries |
| `WorkshopLookup.LookupTable.AnswerAll` | `src/Patches/WorkshopMenuPatch.h:161-179` | any queries in any order, repeated or not, are each answered directly |
| `WorkshopLookup.ShownMembers` | `src/Patches/WorkshopMenuPatch.h:168-174` | an answer holds a recipe exactly when it is in the snapshot and passes the test |
| `WorkshopLookup.AnswerMeans` | `src/Patches/WorkshopMenuPatch.h:161-242` | the answer in plain terms: in snapshot order the recipes whose filters hold the keyword (none or a null one for the misc-item keyword), whose conditions hold or whose form is stored or which always show, and whose bench keyword the workshop has; nothing without a workshop |
| `MenuOrder.CompNamesIsDictionary` | `src/Patches/WorkshopMenuPatch.h:36-45` | the length-limited comparison with its tie rule is case-insensitive dictionary order, empty names included |
| `MenuOrder.DictionaryMeans` | `src/Patches/WorkshopMenuPatch.h:36-45` | that order spelled out: at the first position where names differ by more than the case of an ASCII letter the lower-case characters decide, and otherwise the shorter name comes first |
| `MenuOrder.LeafOrder` | `src/Patches/WorkshopMenuPatch.h:54-84` | on the leaves MakeLeaf makes, the leaf branches are irreflexive, transitive, transitive in their complement, and tie exactly the leaves that eq_t equates |
| `MenuOrder.LeafLessMeans` | `src/Patches/WorkshopMenuPatch.h:54-84` | what is compared, spelled out: priority, then name, then recipe id, then position in the recipe's list |
| `MenuOrder.StrictWeakOrder` | `src/Patches/WorkshopMenuPatch.h:26-84` | on submenus and such leaves together less_t is a strict weak order, and a leaf ties only with leaves that eq_t equates |
| `MenuOrder.LessMeans` | `src/Patches/WorkshopMenuPatch.h:47-84` | the dispatch spelled out: submenus before leaves, submenus by keyword name, leaves as above |
| `MenuArrange.FixupOfLeaves` | `src/Patches/WorkshopMenuPatch.h:402-424` | a keyword's fixed-up leaves stand in the order spelled out above, so nowhere two equal ones, with exactly the leaves there were, and columns counting from 0 |
| `MenuArrange.FirstWithIsFirst` | `src/Patches/WorkshopMenuPatch.h:413-417` | the first node with given data is in the list and no earlier one has that data |
| `MenuArrange.FixupKeepsFirst` | `src/Patches/WorkshopMenuPatch.h:413-424` | of several equal leaves the one created first is kept, with its own id, and only its column is set |
| `MenuArrange.FixupOfAny` | `src/Patches/WorkshopMenuPatch.h:406-417` | on any list the submenus come first, in list order with the first of each run of equal neighbours kept, then the leaves in order |
| `MenuArrange.FixupKeepsInfos` | `src/Patches/WorkshopMenuPatch.h:406-417` | and no node's data is lost or added |
| `MenuArrange.UniqueKeepsFirstOfRuns` | `src/Patches/WorkshopMenuPatch.h:414-417` | collapsing keeps exactly the first node of each run of equal neighbours, in order |
| `MenuArrange.FixupIsIdempotent` | `src/Patches/WorkshopMenuPatch.h:448` | a fix-up after an iteration that appended nothing changes nothing |
| `MenuArrange.FixupIsIncremental` | `src/Patches/WorkshopMenuPatch.h:440-449` | a fix-up after each appended submenu gives what one collapse at the end gives |
| `MenuTree.KeywordMenuBuilt` | `src/Patches/WorkshopMenuPatch.h:493-509` | a keyword's submenu has right rows, columns and leaf shape, and its ids are distinct and from its own range |
| `MenuTree.SubMenuBuilt` | `src/Patches/WorkshopMenuPatch.h:477-534` | the same for every submenu of acyclic lists, by rank of the list: a category has content, ids grow downwards |
| `MenuTree.RootMenuInvariant` | `src/Patches/WorkshopMenuPatch.h:536-553` | for acyclic data and fewer than 2^32 created nodes: rows are levels modulo 2^16, columns sibling positions, ids pairwise distinct and growing downwards, no childless category, no equal neighbours, the root's id not used again |
| `MenuContents.KeywordShows` | `src/Patches/WorkshopMenuPatch.h:493-509` | a keyword's submenu has exactly the leaves of its matched recipes, in order, and has content exactly if there is one |
| `MenuContents.SubMenuShows` | `src/Patches/WorkshopMenuPatch.h:477-534` | a form's submenu has content if and only if a keyword with a leaf is reached from it through usable forms, and then shows exactly the form's content |
| `MenuContents.RootMenuContents` | `src/Patches/WorkshopMenuPatch.h:432-450` | the menu, told from lists and recipes alone: at every level one child for each usable form with content, in list order, the first of equal neighbours kept, each with exactly the content of its form |
| `MenuContents.LabelStands` | `src/Patches/WorkshopMenuPatch.h:432-534` | a child labelled k stands at a level if and only if some form of the list is usable, is keyword k or a list that starts with it, and has content |
| `MenuBuilder.CreateNode` | `src/Patches/WorkshopMenuPatch.h:118-129` | appends one new child with its parent link, the next id modulo 2^32 and the parent's row plus one modulo 2^16 |
| `MenuBuilder.StablePartition` | `src/Patches/WorkshopMenuPatch.h:406-412` | categories first, each part in its old order, as rearrangement of the same nodes |
| `MenuBuilder.SortLeaves` | `src/Patches/WorkshopMenuPatch.h:413` | stable sort of the same nodes |
| `MenuBuilder.UniqueNodes` | `src/Patches/WorkshopMenuPatch.h:414-417` | keeps the nodes that the reference keeps, each at most once |
| `MenuBuilder.FixupChildren` | `src/Patches/WorkshopMenuPatch.h:402-424` | the children in place become those of the reference fix-up, still distinct, disjoint and pointing at their parent |
| `MenuBuilder.MakeLeaf` | `src/Patches/WorkshopMenuPatch.h:452-475` | appends one leaf, or one for each form of the recipe's list, numbered in order |
| `MenuBuilder.MakeKeywordMenu` | `src/Patches/WorkshopMenuPatch.h:493-509` | appends one new child that shows the keyword's reference submenu |
| `MenuBuilder.MakeSubMenu` | `src/Patches/WorkshopMenuPatch.h:477-534` | appends a child that shows the reference submenu, or nothing where the reference has none, and counts the nodes created |
| `MenuBuilder.AppendSubMenu` | `src/Patches/WorkshopMenuPatch.h:440-446` | skips null and deleted forms and pops a submenu that stayed empty |
| `MenuBuilder.EnumerateFLST` | `src/Patches/WorkshopMenuPatch.h:432-450` | with a fix-up after every form, the children show the reference's submenus collapsed once |
| `MenuBuilder.MakeRootMenu` | `src/Patches/WorkshopMenuPatch.h:536-553` | the root's children show the reference menu and so exactly the content of the lists, all parent links are right, and the root gets id and row back |
| `Spinlock.MutualExclusion` | `src/Fixes/EscapeFreeze.h:35-55` | at most one thread is between its test-and-set and its clear, and then the flag is set |
| `Spinlock.UnlockChecksTheHolder` | `src/Fixes/EscapeFreeze.h:43-55` | a thread that finished lock finds itself owner at unlock; any other thread's unlock changes nothing |
| `Spinlock.CountsWaitingAndHolding` | `src/Fixes/EscapeFreeze.h:37-51` | the count is the number of threads waiting or holding, modulo 2^32, and exactly so for fewer than 2^32 threads |
| `Spinlock.FlagIsClearedLast` | `src/Fixes/EscapeFreeze.h:46-53` | the flag is cleared only when the owner is zero and the count is that of the waiters alone |
| `Spinlock.EntersByTheFlag` | `src/Fixes/EscapeFreeze.h:37-41` | a thread gets in only by setting a clear flag, finds no owner then and is the owner when it holds the lock |
| `Spinlock.LockThenUnlock` | `src/Fixes/EscapeFreeze.h:35-55` | one thread by itself: lock leaves the flag set, its id as owner and a count of one, and unlock leaves everything as at first |
| `Spinlock.FlagIsCleared` | `src/Fixes/EscapeFreeze.h:43-55` | a set flag has a thread inside that clears it by at most five steps of its own |
| `Spinlock.WaiterGetsIn` | `src/Fixes/EscapeFreeze.h:35-42` | from every reachable state with a waiter some run of at most seven steps lets it in |
| `Spinlock.StallIsPermanent` | `src/Fixes/EscapeFreeze.h:46-50` | once the flag is set with nobody inside and no owner, no run ever lets anybody in |
| `Spinlock.StallsExactlyWhenFlagFirst` | `src/Fixes/EscapeFreeze.h:45-53` | the recorded freeze is reachable if and only if the flag is cleared first and there are two threads |
| `AllocTracer.InvKept` | `src/Patches/MemoryManagerPatch.h:105-146` | every step of any thread, with allocation outside the lock, address reuse and reallocations that return null, keeps lock, heap and the traces of blocks in agreement |
| `AllocTracer.TracesMatchWhenFree` | `src/Patches/MemoryManagerPatch.h:105-146` | in every run, whenever the lock is free, the traced addresses other than null are the live blocks that call for a trace, each with its latest flag; a block whose trace is still coming has its own allocating thread waiting |
| `AllocTracer.ReportsExactlyMismatches` | `src/Patches/MemoryManagerPatch.cpp:115-146` | in every run a free of a block is reported if and only if the block is traced with another flag, and a free of null if and only if null has a trace with another flag |
| `AllocTracer.NewTraceIsAdded` | `src/Patches/MemoryManagerPatch.h:108-113` | tracing an allocation never meets an old entry |
| `AllocTracer.OldEraseSparesTheNewBlock` | `src/Patches/MemoryManagerPatch.cpp:142-145` | the erase after a free or a move takes no trace of a block that has got the address meanwhile |
| `AllocTracer.FreeReleases` | `src/Patches/MemoryManagerPatch.cpp:142-145` | a free that is not reported takes its block out of the heap and leaves every other block and all traces as they were |
| `AllocTracer.HeapChanges` | `src/Patches/MemoryManagerPatch.h:105-146` | an address comes into the heap only by its allocation or as the result of a reallocation, and goes only by a free that is not reported or a reallocation that does not keep it |
| `AllocTracer.FlagChanges` | `src/Patches/MemoryManagerPatch.h:105-146` | a block has the flag of the call that allocated or reallocated it last |
| `AllocTracer.TraceChanges` | `src/Patches/MemoryManagerPatch.h:108-144` | traces come and go only by these hooks' own accesses, with the call's flag |
| `AllocTracer.ReusedBeforeErase` | `src/Patches/MemoryManagerPatch.cpp:142-145` | a reachable state in which an address is allocated again between its free and the erase |
| `AllocTracer.ReuseSurvives` | `src/Patches/MemoryManagerPatch.cpp:142-145` | from there the new block and its later trace outlive the old erase |
| `AllocTracer.EraseLeavesTheHeap` | `src/Patches/MemoryManagerPatch.cpp:144` | the erase after a free changes no block and no other thread |
| `AllocTracer.ReallocMovesTheTrace` | `src/Patches/MemoryManagerPatch.h:135-146` | what a reallocation does to every trace, whatever its result: a traced pointer's trace moves to the result with the new flag, and nothing else changes |
| `AllocTracer.KeptBlockLosesItsTrace` | `src/Patches/MemoryManagerPatch.h:138-144` | a block that a failed reallocation leaves in place is the program's and has no trace any more |
| `AllocTracer.NullTracedOnlyByNullResult` | `src/Patches/MemoryManagerPatch.h:138-144` | in a run in which no traced pointer's reallocation returns null, null has no trace and no free of null is reported |
| `AllocTracer.NullFreeReported` | `src/Patches/MemoryManagerPatch.cpp:117-141` | a run of one thread: allocate a traced block, fail to reallocate it, free null with the other flag; the free of null is reported |
| `AllocTracer.MatchedFreesPassExactly` | `src/Patches/MemoryManagerPatch.cpp:117-145` | matched frees pass in every run if and only if the pointer is not null |
| `WorkSplit.SplitInterval` | `src/Patches/BSMTAManagerPatch.h:7-25` | N pieces without gap or overlap, of one size but for the last, which takes the remainder |
| `WorkSplit.TilesJoin` | `src/Patches/BSMTAManagerPatch.h:20-23` | the pieces put together are the whole array, for every length |
| `WorkSplit.WorkManager.Reset` | `src/Patches/BSMTAManagerPatch.h:52-58` | the caller becomes the owner, the pieces are those of the split and none is claimed |
| `WorkSplit.WorkManager.GetWork` | `src/Patches/BSMTAManagerPatch.h:41-50` | the owner gets the last piece, a worker the next one |
| `WorkSplit.ClaimedTimes` | `src/Patches/BSMTAManagerPatch.h:41-50` | in any order of callers the workers get the first pieces once each and the owner the last one |
| `WorkSplit.EachTaskOnce` | `src/Patches/BSMTAManagerPatch.h:41-58` | every task runs exactly once if and only if the owner and all N - 1 workers each claim once, with the exact cases for fewer tasks than threads |
| `WorkSplit.RegisterTask` | `src/Patches/BSMTAManagerPatch.h:105-110` | one task records the passes it appended |
| `WorkSplit.RegisterObjects` | `src/Patches/BSMTAManagerPatch.h:101-112` | each claimed task points at exactly the passes it appended, the ranges tile what the job gained, other tasks are untouched |
| `WorkSplit.ClaimIsNew` | `src/Patches/BSMTAManagerPatch.h:41-50` | a full set of callers never claims a piece twice |
| `WorkSplit.RunJobs` | `src/Patches/BSMTAManagerPatch.h:41-112` | once the owner and all workers, in any order, have claimed and run, every task was run by exactly one job and points at exactly the passes it appended there |
| `ModuleLookup.SortByBaseSorts` | `src/Crash/Modules/ModuleHandler.cpp:366-371` | the modules are sorted by base and are the same modules |
| `ModuleLookup.GetModuleForPointer` | `src/Crash/Introspection/Introspection.cpp:723-735` | on sorted, non-overlapping modules the reverse lower bound finds what a linear scan for base < p < base + size finds, and agrees with the modules' own range test if and only if p is no module's base |
| `ModuleLookup.SameScan` | `src/Crash/Modules/ModuleHandler.cpp:366-371` | in whatever order a sort puts the same modules, the scan's answer is the same |
| `ModuleLookup.SortingKeepsTheScan` | `src/Crash/Modules/ModuleHandler.cpp:341-374` | sorting the listed modules does not change the scan's answer |
| `ModuleLookup.MissesOnlyBases` | `src/Crash/Introspection/Introspection.cpp:727-734` | the strict scan is that of the modules' own range test if and only if the pointer is not itself a module's base |
| `ModuleLookup.FirstByteIsMissed` | `src/Crash/Introspection/Introspection.cpp:727-734` | for every module of every loaded list, a pointer to its first byte is answered with no module |

## Left out

- Installing hooks, generated machine code and address lookup: they depend on the layout of the game's binaries.
- Weak memory ordering: steps are sequentially consistent.
- Re-entrant updates: an update started by a destructor inside another one, which the recursive writer lock admits, is not modelled.
- Locks that callers of the hooked Get3DForID may hold around it: the model gives its lookups none.
- The sentinel's call of the original lookup is one step that reads the stock table.
- `bUsePreCulledObjects` switched off: the branches that only call the original functions.
- The filters of AddPreCulledIDs, of the flat game's callbacks and of the arena callbacks (bounds, flags): they read engine objects one at a time.
- ForEachArenaRecord: does not model addresses wrapping around at 2^64; page addresses are unbounded.
- Log texts and clocks: when a drain happens is nondeterministic, and its four exchanges are separate steps.
- A lookup's two counter updates (published misses and the sentinel's result) are one step of its thread.
- The recipe snapshot of the lookup table (conditions, item kinds, keyword indices) is given, not built.
- The order of hash map iteration and pointer order in the caches: nothing modelled depends on it.
- Null entries in a recipe's own form list, which the comparison's assertions exclude; the disabled comparison code.
- BuildWorkShopMenuNodeTree around MakeRootMenu: finding the selected node again and the wire node.
- Running out of memory: allocation of menu nodes and map entries succeeds.
- Stack traces kept with each trace and the printing of a report; what the heap does with a free whose flag is wrong and whose block is not traced.
- Allocations that return null take no part in tracing and are not steps of the model. A block that a failed reallocation keeps is the program's again from that step on, a little before the call returns, which only adds interleavings.
- GetWork: does not model more claims than there are pieces, which the source's assertion excludes; the job's recorded positions are as wide as its arrays' sizes.
- ExecuteTask is a given function that says what a task appends.
- K32EnumProcessModules and its retry loop: the list of loaded modules is given; that images do not overlap and have different bases is the system's promise.
- Everything else of the repository: allocator proxies, crash reports, settings and the smaller fixes forward to libraries or change engine state that cannot be seen here.
