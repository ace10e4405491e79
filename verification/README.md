# FleCSI: verified model of the distributed coloring and its companions

A model in Dafny of the parts of FleCSI in which several ranks, threads or passes
have to agree with each other, and proofs that they do.

* **Halo coloring.** Ranks that each know part of a mesh build a cell graph
  (`CellGraph`, `Incidence`, `Neighbors`), split their cells into exclusive, shared and
  ghost (`OwnerInfo`), and do the same for vertices and other entities through directory
  ranks (`Directory`, `Rendezvous`, `ColorSpec`, `ColorCells`, `ColorEntities`). `Halo`
  and `Pipeline` state what holds across ranks: one owner for every entity, sharer
  lists and ghost lists that mirror each other, nothing lost. `RemapShared` renumbers,
  `GlobalIds` (with `MatchIds`, `KeyOrder` and `Sorting`) numbers edges and faces, `Migrate`
  moves cells (with `Sums` for the conservation argument); `Origins` tells where what arrives
  on a rank comes from.
* **Hashed tree.** `MortonId` encodes branches, `TreeState`, `TreeCoarsen`, `TreeLists`,
  `TreeMoves`, `TreeRoom` and `Tree` insert, refine, remove and coarsen, `ConcurrentFind` searches with
  the workers of `ThreadPool` (both as interleaved steps, counted with `Tallies`),
  `FindOrder` says in which order one thread meets the entities, `TreeSearch` what any search
  finds, and `TreeRuns` holds short runs that go wrong.
* **Structured grids.** `Boxes`, `BoxZones`, `BoxDuality`, `BoxTiling` and `BoxColorer` cut a
  grid into blocks in two and three dimensions, with bounds that are unsigned words of any
  width; `BoxRuns` holds small grids in which a shared cell has no ghost.
* **Smaller cores.** `Transpose`, `VectorRef` and `Dag`, with `DagQueue` on its order.

Each collective step is a driver method that runs the per-rank code of all ranks phase by
phase; an exchange (`Exchange`) packs flat buffers by count and displacement, and rank r's
receive block of rank s is rank s's send block for rank r. Methods are proved against
specifications that speak of the inputs (`IsColoring`, `GraphRows`, `Finals`,
`IsTranspose`, ...); the lemmas of `Halo`, `OwnerInfo`, `Pipeline`, `Migrate` and the others
are about those specifications. `Base`, `Powers` and `Distribution` hold what all share.

`dafny verify dfyconfig.toml` checks everything.

Where the code does less than its description, the model follows the code:

* A branch keeps a coarsening request that was not carried out, because it is the root or
  because the policy disagreed. The next insertion into it that does not ask for a
  refinement runs into the assertion for invalid actions: inserting an entity into an empty
  tree, removing it and inserting it again is enough (`TreeRuns.InsertAgain`).
  `Tree.ReinsertionFails` says exactly when, and `Tree.TreeTopology.Insert` says exactly which
  insertions succeed.
* Updating all entities frees the branches below the root but not the root's own list, so
  what the root listed is listed twice afterwards. The tree is in order after an update
  exactly when the root listed nothing (`Tree.TreeTopology.UpdateAll`). An entity that is
  listed twice counts twice in its full-depth cell, so that an update can run out of levels
  to refine into: exactly when the old list of the root and the given entities together
  overfill such a cell, provided the root listed no more than a leaf may. One entity in the
  tree is enough to see both: under a limit of one the update has no room, under any higher
  limit the root lists the entity twice (`TreeRuns.UpdateOne`).
* A policy may agree to coarsen a branch that holds more entities than a leaf may; the test
  policies of the repository always agree. The next insertion into that leaf refines it,
  and when one of the children gets more than one entity above the limit, entities end up
  on the list of a branch that has children, where no search looks
  (`TreeSearch.LostIsNotFound`). An insertion loses no further entity exactly when no child gets
  that many (`Tree.TreeTopology.Insert`), which a strict policy guarantees (`Tree.StrictFits`);
  `TreeRuns.LoseEntity` is a run of six calls that loses an entity. Insertions never bring a
  lost entity back (`Tree.LostStays`); a removal that coarsens brings back exactly those at the
  parent and below (`Tree.TreeTopology.Remove`). The other operations are stated for trees with
  lost entities as well.
* A block that is one cell wide has no ghost box level with that direction, and one that is
  narrower than the halo claims to share cells outside itself. A halo as deep as a block is
  wide, without a domain halo, makes a mark of the first block wrap around below zero, since
  bounds are unsigned. In each case shared cells can be without ghosts. Ghosts and shared
  cells mirror each other exactly when there is no halo or every direction next to a cut one
  has blocks of at least two cells and, if it is cut itself, `halo <= width` and
  `halo < domainHalo + width` for the width of a block (`BoxColorer.AllDualIffWideEnough`).
  `BoxRuns.ColorTwoCells` and `BoxRuns.ColorSixteenCells` are grids that lose a ghost, the second
  one by a bound that wraps. The other direction always holds (`BoxDuality.GhostIsShared`).
  Exclusive and shared boxes partition a block exactly when its zones fit side by side and no
  mark before a last zone is below zero (`BoxTiling.ExclusiveAndSharedPartition`).
* The nodes that a topological sort returns have lost their edges (`Dag.Graph.Sort`): they
  come back as they were exactly when the graph has none (`Dag.EdgesSurvive`).

## Model

| member | source | states |
|---|---|---|
| Distribution.RankOwner | flecsi/coloring/dcrs_utils.h:441-447 | the upper-bound search returns the one rank whose block holds the id, also when blocks are empty |
| Distribution.OwnedByIffOwner | flecsi/coloring/dcrs_utils.h:824-832 | the interval test holds for a rank exactly when the search returns that rank |
| Distribution.Subdivide | flecsi/coloring/dcrs_utils.h:452-470 | all ids are in some block, every block has the average size or one more, and blocks do not get smaller with the rank |
| Distribution.EvenBlocksUnique | flecsi/coloring/dcrs_utils.h:149-163 | there is only one such distribution, so ranks that compute it on their own agree |
| Exchange.PackBuffer | flecsi/coloring/dcrs_utils.h:1147-1215 | counting, displacing and filling: the buffer consists of one block per receiver, each holding exactly the records for it in the order in which they were produced |
| Exchange.RecordsInOrder | flecsi/coloring/dcrs_utils.h:1147-1215 | the block for a rank holds the records at exactly those positions that are addressed to it, in order |
| Exchange.Transfer | flecsi/coloring/dcrs_utils.h:341-375 | a block sent in pieces of limited size arrives complete and touches nothing else |
| Exchange.AllToAll | flecsi/coloring/dcrs_utils.h:317-381 | rank r receives from every rank s exactly the block that s packed for r |
| Exchange.NextRecord | flecsi/coloring/dcrs_utils.h:1234-1249 | unpacking walks from record to record and ends exactly at the end of the buffer |
| Coloring.RemoveUnique | flecsi/coloring/dcrs_utils.h:43-49 | sorting and dropping repetitions leaves the same entries, ids strictly ascending |
| Coloring.AscendingIdsUnique | flecsi/coloring/dcrs_utils.h:43-49 | two id-ascending lists with the same entries are the same list, so the order of insertion does not matter |
| CellGraph.MakeDcrs | flecsi/coloring/dcrs_utils.h:133-222 | the sequential graph: the cells are cut into even blocks, the larger ones last, and the rows of a rank are exactly those of its block; row c is the ascending list of all other cells sharing more than thru vertices with cell c |
| CellGraph.MakeDcrsOnAll | flecsi/coloring/dcrs_utils.h:133-222 | the ranks that do this without speaking to each other have the same distribution, and together they hold the whole graph |
| CellGraph.MakeDcrsDistributed | flecsi/coloring/dcrs_utils.h:474-822 | all ranks together hold the graph of the whole mesh: the row of every cell is the ascending list of all other cells that share at least the given number of vertices, whichever rank they live on |
| CellGraph.SameGraph | flecsi/coloring/dcrs_utils.h:133-822 | the graph built by a rank that knows the whole mesh and the graph built by all ranks from their parts have the same row for every cell, whatever the block sizes |
| CellGraph.EdgeIsAdjacency | flecsi/coloring/dcrs_utils.h:779-822 | an entry of the distributed graph is an adjacency of the mesh and conversely, for cells of any two ranks |
| CellGraph.CellGraphSymmetric | flecsi/coloring/dcrs_utils.h:474-822 | the distributed graph is symmetric across ranks |
| Incidence.Complete | flecsi/coloring/dcrs_utils.h:580-777 | after two exchanges through directory ranks every rank knows, for each of its vertices, all cells of all ranks that use it |
| Neighbors.BuildNeighbors | flecsi/coloring/dcrs_utils.h:178-206 | one pass that counts common vertices and links both directions yields for every cell exactly its neighbours, in ascending order |
| Neighbors.EntityNeighbors | flecsi/topology/closure_utils.h:41-71 | intersecting vertex sets with every other cell yields exactly the neighbours |
| Neighbors.NeighborClosure | flecsi/topology/closure_utils.h:90-146 | the one-pass counting closure is the listed cells together with the neighbours of each, as the quadratic version finds them |
| Neighbors.AdjacentSymmetric | flecsi/topology/closure_utils.h:90-146 | the neighbour relation is symmetric |
| OwnerInfo.GetOwnerInfo | flecsi/coloring/dcrs_utils.h:1026-1100 | a rank's cells are split into exclusive ones, all of whose neighbours are its own, and shared ones, with exactly the ranks of their neighbours; ghosts are exactly the foreign neighbours, with owner and local id |
| OwnerInfo.HaloDual | flecsi/coloring/dcrs_utils.h:1026-1100 | on a symmetric graph, s is among the sharers of cell g of rank r with local id i exactly when s lists ghost g with owner r and offset i |
| OwnerInfo.UsersOwnersConverse | flecsi/coloring/dcrs_utils.h:1050-1100 | s is counted as a user by r exactly when r is counted as an owner by s |
| OwnerInfo.SharedCellMeans | flecsi/coloring/dcrs_utils.h:1026-1100 | a cell is shared, by its rank and under its place there, with exactly the other ranks that its edges lead to; it is exclusive exactly when there are none |
| OwnerInfo.GhostCellMeans | flecsi/coloring/dcrs_utils.h:1050-1075 | the ghosts of a rank are exactly the cells of other ranks that an edge from one of its cells leads to, with rank and place there |
| OwnerInfo.CellSummaryMeans | flecsi/coloring/dcrs_utils.h:1050-1100 | the users of the cells of a rank, and the owners of its ghosts, are exactly the other ranks that an edge leads to from one of its cells |
| OwnerInfo.CellSizesMean | flecsi/coloring/dcrs_utils.h:1090-1100 | the three sizes count the cells without an edge to another rank, those with one, and the cells of other ranks that one leads to |
| Rendezvous.Meet | flecsi/coloring/dcrs_utils.h:1264-1530 | after claims, requests and replies have gone through the directory ranks, every rank knows for each id it owns, shares or keeps: the lowest claiming rank, that rank's local id, and exactly the ranks that use it |
| Rendezvous.WantsAreKnown | flecsi/coloring/dcrs_utils.h:1425-1433 | the directory lookup of a requested id never fails |
| Rendezvous.MergeReplies | flecsi/coloring/dcrs_utils.h:1504-1530 | every reply inserts a new id: no id is reported by two directories, so the check for multiple owners never fires |
| ColorEntities.OwnerHasSharer | flecsi/coloring/dcrs_utils.h:1531-1549 | the check that an owned entity has ghost ranks never fires |
| ColorEntities.ColorAll | flecsi/coloring/dcrs_utils.h:1105-1570 | every rank ends with exactly the lists its cells call for: exclusive entities of unshared cells, shared ones it owns with all sharers, ghosts with the owner's rank and local id |
| Halo.EntityHaloDual | flecsi/coloring/dcrs_utils.h:1531-1569 | s is among the sharers of entity g owned by r at local id i exactly when s lists g as a ghost of r at offset i |
| Halo.SharedOnce | flecsi/coloring/dcrs_utils.h:1531-1549 | an entity is shared on one rank only, the lowest that claims it, and listed there once |
| Halo.EntityUsersOwnersConverse | flecsi/coloring/dcrs_utils.h:1531-1569 | users and owners of an index space are converse relations |
| Halo.SharedMeans | flecsi/coloring/dcrs_utils.h:1531-1549 | an entity is on the shared list of a rank exactly if that is the lowest rank with a shared cell that uses it, under the local id it has there, with exactly the other ranks that see it through a ghost cell |
| Halo.GhostMeans | flecsi/coloring/dcrs_utils.h:1550-1565 | it is on the ghost list of a rank exactly if that rank sees it through a ghost cell and another one is the lowest that claims it; the entry names that rank and the local id there |
| Halo.ExclusiveMeans | flecsi/coloring/dcrs_utils.h:1531-1569 | it is on the exclusive list of a rank exactly if the rank numbers it and none of its shared cells uses it |
| Halo.UsersAndOwnersMean | flecsi/coloring/dcrs_utils.h:1540-1565 | the users of a rank are exactly the other ranks that see an entity it is the lowest to claim; the owners of its ghosts are exactly the other ranks that are the lowest to claim an entity it sees |
| Halo.SizesMean | flecsi/coloring/dcrs_utils.h:1565-1569 | the three sizes count the entities a rank numbers and does not claim, those it is the lowest to claim, and those it sees and is not the lowest to claim |
| Halo.ListedOnce | flecsi/coloring/dcrs_utils.h:1531-1569 | a rank that holds an entity through a local or a ghost cell lists it under exactly one of exclusive, shared and ghost, provided cells with a common entity share across ranks |
| Halo.OwnedSomewhere | flecsi/coloring/dcrs_utils.h:1105-1570 | every entity of some cell is exclusive or shared on some rank |
| Halo.OwnedNowhereElse | flecsi/coloring/dcrs_utils.h:1105-1570 | and on only one rank |
| Pipeline.ColorMesh | flecsi/coloring/dcrs_utils.h:474-1570 | graph, cell coloring and vertex coloring in sequence: the outcome of each step meets what the next one needs |
| Pipeline.VertexOwnedOnce | flecsi/coloring/dcrs_utils.h:474-1570 | after the whole run, for any distributed mesh, every vertex of every cell is owned by exactly one rank |
| Pipeline.ColorAndRemap | flecsi/execution/remap_shared.h:22-141 | the colored cells and vertices can be renumbered, and afterwards every ghost points at its entry in the owner's list |
| GlobalIds.MatchAll | flecsi/coloring/dcrs_utils.h:1575-1842 | two entities on any two ranks get the same id exactly when they have the same vertices; the ids are exactly 0 to total - 1, ordered by the rank whose even block of vertex ids holds the least vertex, and for the same rank by where the entity is first seen: its own entities first, then those of the other ranks, in their order; the inverse map gives the first local index; the final lookup never fails |
| MatchIds.IdsAreDense | flecsi/coloring/dcrs_utils.h:1737-1752 | every id below the total belongs to some rank's entity |
| KeyOrder.FirstMentionsInOrder | flecsi/coloring/dcrs_utils.h:1620-1735 | a map that gives every new key its size numbers keys by their first mention |
| KeyOrder.MentionOrder | flecsi/coloring/dcrs_utils.h:1650-1735 | of two entities with the same home, the one its home hears of first has the lower number |
| Sorting.SortedIffSameElements | flecsi/coloring/dcrs_utils.h:1626-1631 | sorted vertex lists agree exactly when the lists have the same vertices, so comparing sorted lists compares entities |
| Migrate.Part.Erase | flecsi/coloring/crs.h:62-106 | compaction with a second iterator over ascending ids keeps exactly the unlisted rows, in order |
| Migrate.Part.Append | flecsi/coloring/dcrs_utils.h:977-996 | a row and its payload are added behind the others |
| Migrate.Compact | flecsi/coloring/crs.h:62-106 | the same for the new arrays of an erase |
| Migrate.PackAndErase | flecsi/coloring/dcrs_utils.h:860-922 | the block for each rank holds exactly the elements whose partition it owns, in order; what stays is exactly the rest; no element is erased twice |
| Migrate.UnpackFrom | flecsi/coloring/dcrs_utils.h:972-1003 | the elements of a sender are appended in order and its buffer is used up exactly |
| Migrate.MigrateAll | flecsi/coloring/dcrs_utils.h:837-1024 | each rank ends with the elements it kept, in their old order, followed by the received ones by source rank; the distribution is the running total of the new sizes; the run is reported bad exactly when a rank ends up empty |
| Migrate.Conserved | flecsi/coloring/dcrs_utils.h:837-1024 | over all ranks every element occurs afterwards as often as before |
| Migrate.TargetsAreRanks | flecsi/coloring/dcrs_utils.h:879-890 | elements whose partition is covered by the partition distribution end on the rank that owns it; the others stay |
| Migrate.CountIsMultiset | flecsi/coloring/dcrs_utils.h:837-1024 | the count used for conservation is multiplicity in the multiset of elements |
| Origins.OriginsOf | flecsi/coloring/dcrs_utils.h:972-1003 | after a migration the elements of a rank come from exactly the positions that are bound for it, each once: first its own, then those of the other ranks by ascending rank, in the order they had there |
| Origins.KeptAt | flecsi/coloring/crs.h:62-106 | what an erase keeps are the elements at exactly the positions that are not listed, in order |
| RemapShared.SidesAgree | flecsi/execution/remap_shared.h:46-110 | sender and receiver enumerate the same ids in the same order, so each peer receives exactly as many indices as it expects |
| RemapShared.RemapAll | flecsi/execution/remap_shared.h:22-141 | every ghost's offset becomes the position of the entry with its id in the owner's shared list |
| RemapShared.ColoredIsReady | flecsi/execution/remap_shared.h:22-141 | a coloring of entities meets the conditions of the renumbering |
| RemapShared.CellsAreReady | flecsi/execution/remap_shared.h:22-141 | so does the coloring of cells |
| ThreadPool.FrontExists | flecsi/concurrency/thread_pool.h:53-68 | a worker that reaches the front of an open pool's queue finds the next job there |
| ThreadPool.NextKeeps | flecsi/concurrency/thread_pool.h:53-112 | every step of workers, producers and the joining thread keeps: queue length equals semaphore count plus tokens in hand plus tokens owed while the pool is open, and is never less |
| ThreadPool.RunIsSafe | flecsi/concurrency/thread_pool.h:53-112 | in every interleaving nobody takes from an empty queue, jobs are taken in the order they were queued and none twice, and no two workers run the same job |
| ThreadPool.TakenOnce | flecsi/concurrency/thread_pool.h:61-66 | two takes of one run hand out different queue positions, the earlier one first |
| ThreadPool.DoneIsFinal | flecsi/concurrency/thread_pool.h:59-62 | once the pool is marked done no job is taken any more, and what is queued stays queued |
| ThreadPool.StopsWhenDone | flecsi/concurrency/thread_pool.h:59-62 | a worker that comes back from the semaphore to a pool that is done either is still there or has stopped, with or without a token |
| ThreadPool.StoppedForGood | flecsi/concurrency/thread_pool.h:59-62 | a worker that has stopped stays stopped |
| ThreadPool.JoinComesNearer | flecsi/concurrency/thread_pool.h:53-112 | in a pool that is done every step of a worker lowers the number of steps left, and no other step raises it |
| ThreadPool.JoinEnds | flecsi/concurrency/thread_pool.h:90-112 | a pool whose semaphore was interrupted is at rest only when every worker has stopped |
| ThreadPool.RestIsDone | flecsi/concurrency/thread_pool.h:53-88 | an open pool is at rest only when every job that was announced has been taken and run |
| ConcurrentFind.FindInto | flecsi/topology/tree_topology.h:1460-1494 | the sequential search appends exactly what the leaves below entered branches pick, in order |
| FindOrder.FoundPlaces | flecsi/topology/tree_topology.h:1460-1494 | the sequential search meets exactly the places it can reach whose entities are picked, each once, child by child and in a leaf entity by entity |
| ConcurrentFind.BranchSlots | flecsi/topology/tree_topology.h:1524-1566 | children that are pruned, queued or visited stand for the same number of completions as their branch |
| ConcurrentFind.NextKeeps | flecsi/topology/tree_topology.h:1496-1569 | every step of the traversing thread and of the pool's workers keeps the balance of completions and of entities |
| ConcurrentFind.CountIsBalanced | flecsi/topology/tree_topology.h:792-818 | in every interleaving semaphore count plus outstanding completions is one until the search returns |
| ConcurrentFind.ReturnsWhatIsFound | flecsi/topology/tree_topology.h:1496-1569 | when the search returns, no job is queued or running and the collected entities are a permutation of what the sequential search finds from the same branch |
| ConcurrentFind.NeverStuck | flecsi/topology/tree_topology.h:1496-1569 | with at least one worker some step is always possible before the search returns |
| ConcurrentFind.EveryRunReturns | flecsi/topology/tree_topology.h:1496-1569 | every run is finite, and one that cannot go on has returned |
| MortonId.Depth | flecsi/topology/tree_topology.h:376-385 | counts the groups of an id |
| MortonId.DepthOfEncoded | flecsi/topology/tree_topology.h:376-385 | the depth of an id is the length of its path |
| MortonId.EncodeInjective | flecsi/topology/tree_topology.h:403-408 | different paths have different ids |
| MortonId.EncodeFits | flecsi/topology/tree_topology.h:316-318 | ids down to the maximal depth fit the integer type |
| MortonId.MarkerOnTop | flecsi/topology/tree_topology.h:327-358 | the highest bit of an id is its marker, above the groups of its depth; that of the deepest ids is the highest bit of the integer |
| MortonId.TruncateCutsPath | flecsi/topology/tree_topology.h:436-444 | truncating an id to a depth cuts its path there |
| MortonId.FromCoordinates | flecsi/topology/tree_topology.h:327-350 | interleaving coordinate bits gives the id of the branch at the given depth that the point falls into; bit by bit, every group holds one bit of each coordinate, the first one lowest, the deepest group the lowest bits, and above them stands the marker alone |
| MortonId.Coordinates | flecsi/topology/tree_topology.h:487-514 | reading an id back gathers the bits of each coordinate and moves them to the top |
| MortonId.CoordinatesOfPath | flecsi/topology/tree_topology.h:327-350 | read back, each coordinate is the original one with the bits below the depth cleared; at full depth the round trip is exact |
| TreeState.DeepestIsLeaf | flecsi/topology/tree_topology.h:1255-1278 | the deepest known branch on the way to a code is a leaf |
| TreeLists.RoomBelow | flecsi/topology/tree_topology.h:1280-1304 | a leaf above its limit is not at full depth while full-depth cells are not overcrowded, even if entities are listed twice, so refinement comes to an end |
| TreeLists.RecordedListings | flecsi/topology/tree_topology.h:1220-1236 | the lists of all branches together name every entity of the tree exactly once, whether or not some of them are lost |
| Tree.TreeTopology.FindParent | flecsi/topology/tree_topology.h:1255-1263 | popping levels finds the deepest known branch on the way to an id |
| Tree.TreeTopology.Insert | flecsi/topology/tree_topology.h:658-660 | in any tree: the entity is listed once more and all others as often as before, only branches on the way to it change, the depth of the tree grows exactly to that of its deepest new branch, a leaf with room changes by this entity alone; where each entity is recorded once: exactly the entity is added, lost entities stay lost, and a further one is lost exactly when the leaf is full and one of its children will get more than one entity above the limit; the call succeeds exactly when no stale request waits in the leaf; a refinement runs out of levels only when too many entities share a full-depth cell, and exactly then if no leaf of the tree is above its limit |
| Tree.InOrderIfFits | flecsi/topology/tree_topology.h:658-660 | so a tree in order stays in order exactly when the leaf has room or no child will get more than one entity above the limit |
| Tree.StrictFits | flecsi/topology/tree_topology.h:725-742 | under a policy that agrees to a coarsening only if the entities fit a leaf there always is such room |
| Tree.TreeTopology.InsertAt | flecsi/topology/tree_topology.h:1220-1236 | the same while ancestors are being refined: a branch that has children keeps the entity on its own list, and every level reports whether there was one left to refine into |
| Tree.TreeTopology.RefineLeaf | flecsi/topology/tree_topology.h:1280-1304 | refining a leaf with any number of entities above its limit keeps what is listed and leaves the rest of the tree alone; it restores order below the leaf if no child's region holds more than one above the limit, and otherwise leaves an entity with a branch that has children; at full depth there is no room, which does not happen while full-depth cells are not overcrowded |
| TreeMoves.MovedStrands | flecsi/topology/tree_topology.h:1296-1298 | entity by entity: while the children fit, each lists what it got or was refined at its last entity, and nothing new is stranded; from the first entity too many on, something is on the list of a branch that has children that was not before |
| TreeMoves.InOrderIffNoneLost | flecsi/topology/tree_topology.h:1230-1236 | a tree in which every entity is recorded once is in order exactly when no entity is lost |
| TreeRoom.TightIsRoomy | flecsi/topology/tree_topology.h:1280-1304 | when no leaf lists more than it may, no full-depth cell holds more than that, even with entities listed twice: a full tree shows that there was room for all of it |
| Tree.LostStays | flecsi/topology/tree_topology.h:1791-1796 | a lost entity stays lost through further insertions, because a branch is not split a second time |
| Tree.TreeTopology.Remove | flecsi/topology/tree_topology.h:725-748 | in any tree that lists its entities once, lost ones or not: exactly the entity is removed, and the parent is coarsened exactly when a request is pending, there is a parent and the policy agrees, however much the parent then lists; lost afterwards are exactly those lost before, but for the entity itself and those that a coarsening brings back, which are all at the parent and below; a tree in order stays in order |
| TreeState.DroppedAt | flecsi/topology/test/tree.cc:56-64 | the list that an entity is taken off loses this entity, and the others keep their order |
| Tree.TreeTopology.Update | flecsi/topology/tree_topology.h:666-676 | in any tree that lists its entities once, lost ones or not: an entity that stays in the region of the branch that lists it changes nothing else; otherwise it is removed, with exactly the effects of a removal, and inserted at its new place, with exactly those of an insertion |
| Tree.TreeTopology.UpdateAll | flecsi/topology/tree_topology.h:682-692 | afterwards the branches list what the root listed before and all given entities; the tree is in order exactly when the root listed nothing; if all that fits a leaf the root lists the old entities followed by the given ones; the insertions succeed exactly when the root had no stale request, was full, or there is nothing to insert; if the root listed no more than a leaf may, refinement runs out of levels exactly when what the root listed and the given entities together overfill a full-depth cell |
| Tree.ReinsertionFails | flecsi/topology/tree_topology.h:725-748 | after a removal, inserting the entity again at the same place fails exactly when a coarsening was requested, the leaf is the root or the policy disagreed, and the leaf listed no more than its limit |
| TreeRuns.InsertAgain | flecsi/topology/tree_topology.h:725-748 | an entity inserted into an empty tree, removed with a request to coarsen and inserted again: the last call fails |
| TreeRuns.UpdateOne | flecsi/topology/tree_topology.h:682-692 | a tree of one entity, updated: the root lists the entity twice under a limit of two or more, and under a limit of one refinement runs out of levels |
| TreeRuns.LoseEntity | flecsi/topology/tree_topology.h:1280-1328 | four entities inserted, the fourth removed, which coarsens the root, and inserted again: one of the other three is lost |
| TreeCoarsen.CoarsenKeeps | flecsi/topology/tree_topology.h:1306-1328 | a branch that takes over all entities below it and becomes a leaf keeps every entity recorded, and the hash map loses exactly the branches below; under a strict policy it holds no more than a leaf may |
| TreeCoarsen.CoarseningRecovers | flecsi/topology/tree_topology.h:1306-1328 | after a coarsening exactly those entities are on the list of a branch with children that were so before at no branch below the coarsened one nor at itself |
| TreeCoarsen.BelowAll | flecsi/topology/tree_topology.h:1306-1322 | recursion over the children reaches every branch below |
| TreeSearch.ReachedCount | flecsi/topology/tree_topology.h:1460-1494 | a search meets an entity exactly once if it is in a leaf below its start, is picked, and every branch on the way to it is entered, and otherwise not at all, lost entities included |
| TreeSearch.ConcurrentSearchIsExact | flecsi/topology/tree_topology.h:1496-1569 | the same for the concurrent search, in every interleaving |
| TreeSearch.EverythingIsFound | flecsi/topology/tree_topology.h:1460-1494 | a search that prunes nothing finds every entity of the tree exactly once but for the lost ones, and in a tree in order there are none of those |
| TreeSearch.LostIsNotFound | flecsi/topology/tree_topology.h:1460-1494 | no search finds a lost entity, wherever it starts and whatever it enters and picks |
| Boxes.GetIndices | flecsi/coloring/simple_box_colorer.h:660-673 | the indices of a rank are in range and give back the rank |
| Boxes.RankInjective | flecsi/coloring/simple_box_colorer.h:193-193 | different block indices give different ranks |
| BoxColorer.OwnedCells | flecsi/coloring/simple_box_colorer.h:103-117 | a rank is the number of its block, first direction fastest; it owns exactly the cells whose distance from the origin, divided by the width, is the index of the block, or beyond the last multiple of the width for the last one; a block is size / blocks wide, the last one wider by the remainder |
| BoxColorer.GhostReach | flecsi/coloring/simple_box_colorer.h:458-597 | the ghost cells of a rank with a given colour are exactly those within a halo of its primary box in every direction in which the neighbour differs, provided the two differ in as many directions as count |
| BoxColorer.RankMapMeans | flecsi/coloring/simple_box_colorer.h:559-566 | the table of the ghost colorers holds each zone's offset and the dimension in which the neighbour meets the block |
| BoxColorer.FlagMeans | flecsi/coloring/simple_box_colorer.h:282-308 | the case distinction of the shared colorers keeps a zone exactly when it is not the middle one and no outer direction is cut away |
| BoxColorer.SharedColors | flecsi/coloring/simple_box_colorer.h:318-450 | the colours of a shared box are exactly the ranks of the neighbours that lie on its sides and meet the block in a part of at least the given dimension, each once |
| BoxColorer.SharedOf | flecsi/coloring/simple_box_colorer.h:119-456 | one shared box for every zone that has one, and no others, in the order of the zones |
| BoxColorer.GhostsOf | flecsi/coloring/simple_box_colorer.h:458-597 | one ghost box for every surrounding zone in a neighbour that counts, and no others, in the order of the zones |
| BoxColorer.DomainHaloOf | flecsi/coloring/simple_box_colorer.h:599-658 | one box for every zone of the domain halo next to the block, and no others, in the order of the zones |
| BoxColorer.Color | flecsi/coloring/simple_box_colorer.h:43-101 | all boxes of one rank, with marks and bounds that wrap around below zero |
| BoxColorer.ColorAll | flecsi/coloring/simple_box_colorer.h:43-101 | over all ranks: each cell of the domain is in exactly one primary box, a ghost is always shared by the rank it is coloured with, and shared cells are ghosts for all ranks and cells exactly when blocks are wide enough for marks not to cross and not to wrap |
| BoxColorer.AllDualIffWideEnough | flecsi/coloring/simple_box_colorer.h:119-597 | ghosts and shared cells are dual for all ranks and cells exactly when there is no halo, or every direction next to one that is cut has blocks of at least two cells and, if it is cut itself, a halo no deeper than a block is wide and less deep than block and domain halo together, since otherwise a mark of the first block wraps around |
| BoxRuns.ColorTwoCells | flecsi/coloring/simple_box_colorer.h:43-101 | two one-cell blocks side by side: the second rank shares its cell, the first has no ghost box for it |
| BoxRuns.ColorSixteenCells | flecsi/coloring/simple_box_colorer.h:132-137 | four by four cells in four blocks with a halo of two and no domain halo: a mark of the first block wraps around, and the second rank shares a cell that the first has no ghost box for |
| BoxDuality.GhostIsShared | flecsi/coloring/simple_box_colorer.h:119-597 | a cell in a ghost box of rank s coloured r is in a shared box of rank r whose colours include s, whatever the widths |
| BoxDuality.GhostIffShared | flecsi/coloring/simple_box_colorer.h:119-597 | and conversely, when blocks are wide enough |
| BoxDuality.GhostsAreBands | flecsi/coloring/simple_box_colorer.h:458-597 | the ghost boxes of s coloured r hold exactly the cells of r within a halo's depth of s, provided s is not one cell wide in a direction in which the two are level, and nothing otherwise |
| BoxDuality.SharedAreParts | flecsi/coloring/simple_box_colorer.h:119-456 | the shared boxes of r coloured s hold exactly the cells of the zones of r that face s |
| BoxDuality.NarrowBlocksLoseGhosts | flecsi/coloring/simple_box_colorer.h:497-502 | when some direction next to a cut one is too narrow, the second block in the cut direction shares a named cell with the first that the first has no ghost box for |
| BoxTiling.PrimariesPartition | flecsi/coloring/simple_box_colorer.h:103-117 | primary boxes of all ranks partition the domain |
| BoxTiling.ExclusiveAndSharedPartition | flecsi/coloring/simple_box_colorer.h:119-456 | the exclusive box and the shared boxes partition the primary box exactly when the block is in every direction at least as wide as its first and last zones together and the mark before its last zone is not below zero |
| BoxTiling.HaloCoversRing | flecsi/coloring/simple_box_colorer.h:599-658 | the domain-halo boxes of all ranks cover exactly the ring around the domain, exactly when there is no such ring or all blocks are at least two cells wide |
| BoxTiling.HaloBoxesDisjoint | flecsi/coloring/simple_box_colorer.h:599-658 | no cell is in two domain-halo boxes, of one rank or of two |
| BoxRuns.OneCellBlocksMayBeDual | flecsi/coloring/simple_box_colorer.h:119-597 | the condition is about width next to cut directions: a 2 by 2 grid cut in one direction, with blocks one cell wide there, meets it |
| Transpose.Place | flecsi/topology/mesh_topology.h:1423-1442 | counting and placing fills each group with the entities whose rows hold it; a slot is set only while unset, and none stays unset |
| Transpose.Connectivity.Resize | flecsi/topology/connectivity.h:94-108 | groups of the given sizes, back to back, all slots unset |
| Transpose.Connectivity.SetOne | flecsi/topology/connectivity.h:222-224 | sets one slot, unset before, and leaves the other groups alone |
| Transpose.TransposeRows | flecsi/topology/mesh_topology.h:1410-1476 | each output row is the column of the input, ordered by global id |
| Transpose.TransposeCounts | flecsi/topology/mesh_topology.h:1437-1442 | t occurs in output row f as often as f occurs in input row t |
| Transpose.TransposeTwice | flecsi/topology/mesh_topology.h:1410-1476 | transposing twice restores each row up to order |
| VectorRef.Vector.Append | flecsi/utils/array_ref.h:336-342 | adds one element, or reports that the array is full |
| VectorRef.Vector.Slide | flecsi/utils/array_ref.h:358-368 | moves the tail by n slots, constructing only dead slots and assigning only live ones |
| VectorRef.Vector.Put | flecsi/utils/array_ref.h:343-354 | inserts one value at any position |
| VectorRef.Vector.InsertRange | flecsi/utils/array_ref.h:283-299 | prefix, inserted range, suffix; exactly the slots before the new end are live; fails exactly when there is no room |
| VectorRef.Vector.InsertCopies | flecsi/utils/array_ref.h:273-281 | the same for n copies of a value |
| VectorRef.Inserted | flecsi/utils/array_ref.h:273-299 | filling the gap, sliding and assigning together are an insertion, for insertions shorter and longer than the tail |
| Dag.Graph.AddEdge | flecsi/utils/dag.h:180-197 | adds the edge and any missing node, with title zero, and nothing else |
| Dag.Graph.InitializeNode | flecsi/utils/dag.h:165-167 | names a node and keeps its edges |
| Dag.Graph.Sort | flecsi/utils/dag.h:204-257 | Kahn's algorithm over the edge lists returns the nodes in canonical order, each as it is in the graph but without edges, and reports whether all nodes came out |
| Dag.EdgesSurvive | flecsi/utils/dag.h:233-248 | the nodes of a graph that could be sorted come back as they were exactly when the graph has no edges |
| Dag.SortOneEdge | flecsi/utils/dag.h:204-257 | a graph of one edge: the edge is gone from the sorted nodes and still in the graph |
| Dag.Strike | flecsi/utils/dag.h:233-248 | re-examining a node until the root no longer occurs in it removes all repetitions |
| Dag.SortedIffAcyclic | flecsi/utils/dag.h:204-257 | every node comes after all it depends on; all nodes are returned, each once, exactly when there is no cycle |
| Dag.OrderIsCanonical | flecsi/utils/dag.h:204-257 | the order depends neither on the order of edge lists nor on repeated edges |
| DagQueue.FirstInFirstOut | flecsi/utils/dag.h:204-257 | nodes come back in the order in which they became ready: first those without dependencies, then each after the last node it had to wait for, and those that waited for the same node by ascending hash |
| DagQueue.ReadyBefore | flecsi/utils/dag.h:204-257 | every node that comes back became ready before its turn |

## Left out

- MPI, ParMETIS, Legion, HPX and Kokkos: foreign calls; an exchange is a transposition of blocks, a partitioner's answer is an arbitrary input.
- Logging, graphviz, mesh input and output, command line, registration, accessors and handles: no property spanning operations.
- Floating-point geometry: points are integer coordinates below 2^max_depth, pruning and picking are arbitrary predicates; a point at the upper end of the range is not part of this model.
- `visit_`, `apply_` and the other concurrent traversals of the tree: they count completions as the concurrent search does.
- Destruction of the semaphore while the last worker is still inside its release, and spurious wake-ups: steps under a mutex are single steps of the model.
- Memory of the tree: child arrays are present or absent, allocation and leaks are not modelled.
- ghost_connectivity, make_dcrs_have_connectivity, naive_coloring: the exchanges are those of the members above, with other record contents.
- intersect, build_connectivity, build_bindings and compute_bindings of mesh_topology.h: the last two abort on the way.
- The single-pass branch of vector_ref::insert, arguments that alias the buffer, and exceptions thrown by element types.
- connectivity_counts of color_entities: an output without further use in the protocol.
- OwnerInfo.GetOwnerInfo: the number of entities of an empty rank, which wraps around in the source, is a plain difference.
- Migrate.MigrateAll: mesh contents travel as one payload of words framed by its length; the mesh's own packing is not part of this model.
- RemapShared.RemapAll: the shared field of ghost entries is left as it is.
- Tree.TreeTopology.Update: the move of the entity and the update are one operation; a tree in which a moved entity has not been updated yet is not modelled.
- Tree.TreeTopology.Insert: when there is no level left to refine into, the model stops and says so; the source goes on with ids that no longer fit their type, which is not part of this model.
- Tree.TreeTopology.Remove: requires that each entity is listed once, where it is recorded, so a tree in which an update of all entities has listed some twice is not modelled here; the same holds for `Tree.TreeTopology.Update`.
- TreeCoarsen.CoarsenKeeps: says which entities a branch lists after a coarsening, each once, not in which order; the same holds for the children of a refined leaf.
- Tree.TreeTopology.UpdateAll: takes the list of entities to insert, which has to include those the root lists, where the source takes all entities ever made, removed ones included; when the root listed more than a leaf may, the condition for room is sufficient only.
- BoxColorer.Color: grids with more blocks than cells in some direction are left out, and so are sizes and halos so large that sums of them overflow the word.
- BoxColorer.SharedColors: says which colours a box has, each once, not in which order.
- MortonId.FromCoordinates: setting bits that are clear is addition.
- Transpose.TransposeRows: the sorted rows are returned instead of written back into the connectivity.
- Dag.Graph.Sort: the payload of nodes other than a label is not modelled, and the label is a number.
- Machine integers: sizes, ids and offsets are unbounded, except that branch ids are shown to fit their type and the bounds of boxes wrap around; the 2^31 limit of a message is the chunk size of a transfer.
- The per-rank coloring objects of the halo protocols are values, and ordered sets and sorted vectors without repetitions are sets iterated in ascending order; the compressed rows and payloads that migration updates in place are a class.
