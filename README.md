# HNSW index — a verified Dafny model

This project models the in-memory HNSW-style vector index of `a-rustacean/hnsw`:
a fixed stack of levels, each a proximity graph over the stored vectors,
addressed by plain integer indices.

- `node.dfy` (module `Nodes`) holds the data model:
  - node and graph-node indices;
  - vectors;
  - the `Neighbour` pair of an index and a cached distance;
  - `Node`;
  - `GraphNode`, with a bounded neighbour list and optional `parent`/`child` indices into the adjacent levels.
- `rand.dfy` (module `Rand`) holds the Park–Miller linear-congruential generator (`LcgRng`). Its seed update is modelled exactly, including the wrapping 64-bit multiplication.
- `level.dfy` (module `Levels`) holds the class `Level`, one graph layer:
  - the greedy first-improvement hill-climb (`NearestNeighbourSearchStartingFrom`, with the scan of one neighbour list as `ScanNeighbours`);
  - `InsertNeighbour`;
  - `MakeEdgesDoubleSided`.

  Each method is proved against a specification function:
  - `Descend`/`Visited`/`GreedyResult` for the search;
  - `InsertInto`/`InsertNeighbourAt` for the insertion;
  - `BackEdges` (an in-order fold of the insertion) for the back-edges.
- `hnsw.dfy` (module `HnswIndex`) holds the class `Hnsw`: the node store, the levels, the generator and the level probability table.
  - `GenLevel` draws a level count L.
  - `Insert` appends a node and indexes it (`IndexNode`, `IndexLevels`, `IndexLevel`, `AddToLevel`, `SetParentAt`) into levels `0..L-1`.
  - `NearestNeighbourSearch` descends from the top level to level 0. `Reaches` specifies that descent: which start each level's search gets.

  The index invariant `Valid` (`LayersOk` on the levels' graphs) states:
  - bounded degree;
  - no neighbour list naming the same entry twice (`GraphNodeOk`; the back-edges keep it, `InsertIntoDistinct`, `BackEdgesGraphOk`);
  - valid neighbour, child and parent indices;
  - a consistent vertical chain;
  - level sizes that never grow going up;
  - an always-empty top level.

  Every insertion preserves it. Two relations connect the levels before and after an insertion:
  - `Indexed`, the shape: which levels grow by one entry, and the new entries' node index, child and parent;
  - `Built`, the contents. Each grown level is the old level plus the new entry, whose neighbours are the list built from a search of that old level (`Searched`). The back-edges to the new entry are added to the old entries, and the new entry's parent is set (`Finished`).

Distances are an abstract function from two vectors into `real`, which is totally ordered. The source's unstable sort is specified as "some permutation that is sorted by distance". The model realises it with an insertion sort.

The model follows the code, and exposes these quirks of it:
- `insert_neighbour` does not keep lists sorted. A candidate no farther than the first entry of a sorted list, or tied with an entry of a sorted list, is appended at the end (`CloserThanFirstIsAppended`, `TieIsAppended`, `AppendedBreaksOrder`).
- Edges are not kept symmetric. A back-edge offered to a full list with no bracketing pair is dropped, for example when the new node is no farther than the head of a sorted full list (`BackEdgeDropped`, `CloserThanHeadDropped`, `EdgesNotSymmetric`). A bracketed insertion into a full list evicts its last entry, whose own list, if it named the target, still does (`FullBracketEvictsLast`).
- The top level is never populated (`IndexedSizes`, and `LayersOk` requires the top level to be empty).
- When nodes are stored but level 0 is empty, the query's level index runs below 0. This is the case when every draw gave level count 0, for example with a seed that collapses to 0 (`CollapsedSeedIndexesNothing`). The Rust code panics there; the model returns the `IndexUnderflow` outcome, exactly when `nodes != []` and level 0 is empty.

Two further behaviours of the code that the model keeps:
- the back-edges of a new entry are made from the truncated, de-duplicated neighbour list, not from the whole search result (`AddToLevel`).
- a descent step from an entry without a child keeps the previous start index for the next level down, rather than restarting at index 0 (`Hnsw.NearestNeighbourSearch`, `Reaches`, `NextStart`).

## Model

| member | source | states |
|---|---|---|
| Nodes.NodesOk | src/node.rs:17-21 | slot i of the store holds the node whose idx is i, and every vector has DIM components |
| Nodes.NodesOkPush | src/hnsw.rs:98-102 | pushing the node built with idx = the store's length and a DIM-long vector keeps the store well formed, and the node sits at its own index |
| Nodes.SameLinks | src/node.rs:29-35 | two graph nodes agree on every field of the graph node (node index, parent, child) except the neighbour list |
| Rand.Step | src/rand.rs:18-22 | the seed update (16807 × seed, wrapping at 2^64, plus 0, mod 2^31−1) always yields a seed below the modulus |
| Rand.ValueInUnitInterval | src/rand.rs:16-23 | after any call the value seed / MODULUS lies in [0, 1) |
| Rand.NoWrapAfterFirst | src/rand.rs:22 | from the first call on the seed is below 2^31−1 and 16807 × seed < 2^64, so the update is the plain Park–Miller step |
| Rand.ZeroIsFixed | src/rand.rs:22 | seed 0 is a fixed point of the update |
| Rand.ModulusCollapses | src/rand.rs:18-22 | the modulus itself and 0 both step to seed 0 |
| Rand.LcgRng.constructor | src/rand.rs:12-14 | the seed is stored unchanged |
| Rand.LcgRng.NextF64 | src/rand.rs:17-24 | the new seed is Step(old seed), a function of the old seed alone (so equal seeds give equal sequences), and the value returned is seed / MODULUS in [0, 1) |
| Levels.Brackets | src/level.rs:103 | the scan's test at position i: the entry before i is strictly closer than the candidate and the entry at i strictly farther |
| Levels.InsertIdxFrom | src/level.rs:98-107 | the scan from position i returns the first bracketing position at or after i, or the list length |
| Levels.InsertIdx | src/level.rs:98-107 | the insertion point is the first i ≥ 1 with old[i-1].dist < d < old[i].dist, otherwise the end of the list |
| Levels.InsertInto | src/level.rs:108-109 | the list written back holds at most MAX_NEIGHBOURS entries, each either the candidate or an entry of the old list |
| Levels.InsertIntoLength | src/level.rs:108-109 | the new list has length min(old length + 1, MAX_NEIGHBOURS) |
| Levels.InsertIntoShape | src/level.rs:108-109 | entries before the insertion point are unchanged, the candidate sits at it (unless truncated away), later entries shift by one |
| Levels.FullWithoutBracketUnchanged | src/level.rs:108-110 | a full list with no bracketing pair comes back unchanged |
| Levels.BracketKeepsSorted | src/level.rs:98-109 | when a bracketing pair exists, a sorted list stays sorted |
| Levels.CloserThanFirstIsAppended | src/level.rs:98-107 | a candidate no farther than the first entry of a sorted list is placed at the end |
| Levels.TieIsAppended | src/level.rs:98-107 | a candidate tied with an entry of a sorted list is placed at the end |
| Levels.InsertIntoDistinct | src/level.rs:94-111 | inserting a candidate whose id is not listed keeps the ids of the list distinct |
| Levels.FullBracketEvictsLast | src/level.rs:103-109 | a bracketed insertion into a full list of distinct ids evicts the last entry: its id is no longer listed |
| Levels.AppendedBreaksOrder | src/level.rs:98-110 | an appended candidate closer than some entry leaves a non-full list unsorted: the list is not kept sorted |
| Levels.GraphOkSearchable | src/level.rs:49-64 | a well-formed graph has valid node-store and graph indices everywhere, which is all the search needs |
| Levels.InsertNeighbourAt | src/level.rs:94-111 | the graph keeps its length and every other node; the target keeps its links and its list becomes InsertInto of the old list |
| Levels.BackEdges | src/level.rs:118-120 | the fold of insert_neighbour over the list keeps the number of graph nodes |
| Levels.BackEdgesFrame | src/level.rs:113-121 | the back-edges keep the graph length and every node's node index, parent and child, and leave unlisted nodes untouched |
| Levels.BackEdgesGraphOk | src/level.rs:109-121 | when the targets are distinct and none lists the new node yet, the back-edges keep every list within MAX_NEIGHBOURS, free of repeated ids, and with valid neighbour indices |
| Levels.BackEdgeDropped | src/level.rs:113-121 | a target whose list is full and has no bracketing pair for the new node's distance ends up exactly as it was, so it does not list the new node although the new node lists it |
| Levels.CloserThanHeadDropped | src/level.rs:98-121 | a target whose full, sorted list starts no nearer than the new node does not gain the back-edge |
| Levels.EdgesNotSymmetric | src/level.rs:113-121 | with MAX_NEIGHBOURS = 1, a new node 2 that lists node 0 is not listed back by node 0, which keeps its edge to node 1 |
| Levels.FirstCloser | src/level.rs:56-71 | the position of the first neighbour strictly closer than the current node, and every neighbour before it is no closer |
| Levels.CloserCountDrops | src/level.rs:66-70 | a strictly closer node has strictly fewer nodes closer than it: the termination measure of the hill-climb |
| Levels.Descend | src/level.rs:53-80 | the hill-climb's end node is a valid index, no farther than the start, and a local minimum: none of its neighbours is strictly closer |
| Levels.DescendMoves | src/level.rs:66-70 | moving to the first strictly closer neighbour keeps the end node and strictly lowers the measure |
| Levels.DescendStops | src/level.rs:54-76 | when no neighbour is strictly closer, the climb ends here and has collected the node and all its neighbours with their distances |
| Levels.Rescored | src/level.rs:62-73 | every neighbour in list order, each with the distance of its node's vector to the query recomputed, not the cached one |
| Levels.Visited | src/level.rs:54-74 | what the climb collects at its end node: that node with its distance, then every neighbour in list order with its distance to the query |
| Levels.GreedyResult | src/level.rs:53-79 | a search result from a start is some ordering, ascending by distance, of what is collected where the climb from that start stops; ties may come in any order |
| Levels.StopIsResult | src/level.rs:76-79 | sorting what a stopped scan collected gives a search result |
| Levels.GreedyResultShape | src/level.rs:54-77 | a search result is non-empty, has 1 + the end node's degree entries, holds the end node, carries true distances, and starts with the end node's distance, which is at most the start's |
| Levels.InsertByDist | src/level.rs:76-77 | inserting into a sorted list gives a sorted permutation of the list plus the element |
| Levels.SortByDist | src/level.rs:76-77 | the result is sorted by distance and a permutation of the input |
| Levels.Level.constructor | src/level.rs:32-37 | a new level has an empty graph |
| Levels.Level.ScanNeighbours | src/level.rs:54-74 | one scan stops at the first strictly closer neighbour and reports it with its distance; otherwise every neighbour is no closer and the collected list is the node plus all its neighbours with their distances |
| Levels.Level.NearestNeighbourSearchStartingFrom | src/level.rs:43-81 | the result is a permutation, sorted by distance, of the hill-climb's end node and all its neighbours with their distances (the loop terminates) |
| Levels.Level.NearestNeighbourSearch | src/level.rs:83-92 | empty on an empty graph, otherwise a search result from graph node 0 |
| Levels.Level.InsertNeighbour | src/level.rs:94-111 | only the target's neighbour list changes, and it becomes InsertInto of the old list |
| Levels.Level.MakeEdgesDoubleSided | src/level.rs:113-121 | the graph becomes the in-order fold of insert_neighbour(target, (new index, dist)) over the list |
| HnswIndex.DedupFrom | src/hnsw.rs:116-117 | the filtered list is no longer than the input, has distinct ids, contains only input entries whose ids are not in the seen set, and keeps every such id |
| HnswIndex.Dedup | src/hnsw.rs:116-117 | the de-duplicated list is no longer than the input, has distinct ids and keeps every id of the input |
| HnswIndex.DedupKeepsFirst | src/hnsw.rs:116-117 | the first occurrence of every id not seen before survives |
| HnswIndex.DedupKeepsSorted | src/hnsw.rs:116-117 | de-duplication keeps the order, so a sorted list stays sorted |
| HnswIndex.DistinctTail | src/hnsw.rs:116-117 | the tail of a list with distinct ids has distinct ids, none of them the head's |
| HnswIndex.DedupOfDistinct | src/hnsw.rs:116-117 | a list with distinct ids comes back unchanged |
| HnswIndex.LevelFrom | src/hnsw.rs:85-94 | the scan of the cumulative table always returns a level below the level count |
| HnswIndex.LevelFor | src/hnsw.rs:84-94 | the drawn level count is below LEVEL_COUNT |
| HnswIndex.LevelFromSpec | src/hnsw.rs:85-94 | the scan from any point returns the first level whose cumulative probability reaches the value, or the last level |
| HnswIndex.LevelForSpec | src/hnsw.rs:81-95 | the drawn level count is at most LEVEL_COUNT−1; every earlier cumulative probability is below the value; unless it is the fallback, its own cumulative probability reaches the value |
| HnswIndex.FirstLevelMeansNone | src/hnsw.rs:86-112 | a value no larger than the first probability draws level count 0, so the node enters no level |
| HnswIndex.CollapsedSeedIndexesNothing | src/hnsw.rs:81-90 | a seed that steps to 0 stays 0 and draws level count 0 forever, so no node is ever indexed |
| HnswIndex.EmptyLayersOk | src/hnsw.rs:67-78 | all-empty levels satisfy the level invariant |
| HnswIndex.SizesNonIncreasing | src/hnsw.rs:112-134 | in a well-formed index level sizes never increase going up |
| HnswIndex.LayersOkGrow | src/hnsw.rs:97-104 | the level invariant survives appending nodes to the store |
| HnswIndex.SetParent | src/hnsw.rs:129-132 | the graph with one entry's parent set to the given index and nothing else changed |
| HnswIndex.SetParentGraphOk | src/hnsw.rs:129-132 | setting a parent keeps a graph well formed |
| HnswIndex.FreshEntry | src/hnsw.rs:120-125 | the entry pushed for the node: its node index, the new neighbour list, no parent, and as child the entry just created one level down (none at level 0) |
| HnswIndex.PushGraphOk | src/hnsw.rs:120-125 | pushing a well-formed entry keeps a graph well formed |
| HnswIndex.ChainedGrowLower | src/hnsw.rs:120-125 | a parentless entry pushed on the lower level keeps the two levels chained |
| HnswIndex.ChainedLink | src/hnsw.rs:120-133 | a new upper entry whose child is the lower level's new entry, with that entry's parent set to it, keeps the levels chained |
| HnswIndex.ChainedUpperParent | src/hnsw.rs:129-132 | setting a parent in the upper level does not disturb its chain to the level below |
| HnswIndex.StepGraph | src/hnsw.rs:119-126 | the level after the push of the fresh entry and make_edges_double_sided with the new entry's index and list |
| HnswIndex.NextLayers | src/hnsw.rs:113-133 | the levels after one loop iteration: the searched level replaced by its new graph and, above level 0, the entry created one level down given the new entry as parent |
| HnswIndex.StepGraphFacts | src/hnsw.rs:113-128 | one iteration grows the level by exactly the new entry, keeps the old entries' links, and keeps the graph well formed |
| HnswIndex.ChildSlotValid | src/hnsw.rs:110-133 | above level 0 the child index carried between iterations is a valid index one level down |
| HnswIndex.StepIndexedHere | src/hnsw.rs:113-128 | after an iteration, the level it searched holds the new entry with the right child, no parent, and valid distinct neighbours |
| HnswIndex.StepIndexedBelow | src/hnsw.rs:129-132 | after an iteration, the entry just below has the new entry as its parent |
| HnswIndex.StepIndexedLower | src/hnsw.rs:112-134 | after an iteration, the levels further down keep their indexing |
| HnswIndex.StepIndexed | src/hnsw.rs:112-134 | one iteration extends the indexing from levels 0..li-1 to levels 0..li |
| HnswIndex.StepAdjacentAt | src/hnsw.rs:120-125 | after an iteration, the grown level is still chained to the one above and no smaller than it |
| HnswIndex.StepAdjacentBelow | src/hnsw.rs:120-133 | after an iteration, the grown level is chained to the level below through the new child/parent pair |
| HnswIndex.StepAdjacentElsewhere | src/hnsw.rs:112-134 | after an iteration, the other pairs of levels stay chained and ordered by size |
| HnswIndex.StepLayersOk | src/hnsw.rs:112-134 | one iteration preserves the whole level invariant |
| HnswIndex.IndexedAtZero | src/hnsw.rs:112 | with level count 0 no level changes |
| HnswIndex.IndexedSizes | src/hnsw.rs:112-134 | indexing grows exactly levels 0..L-1 by one entry each and never touches the top level |
| HnswIndex.NeighbourList | src/hnsw.rs:116-118 | the new entry's list has at most MAX_NEIGHBOURS entries, distinct ids, and only ids of the search result |
| HnswIndex.NeighbourListFacts | src/hnsw.rs:115-119 | the new entry's list has distinct ids, at most MAX_NEIGHBOURS entries, only ids from the search result (so no self-edge), keeps sortedness, and keeps every id when there is room |
| HnswIndex.SearchedIdsBelow | src/hnsw.rs:115-118 | a level's search result, and the neighbour list built from it, name only entries of that level; a non-empty level gives a non-empty result |
| HnswIndex.SearchedFromZero | src/hnsw.rs:115 | the search of a level for the node's vector: empty on an empty level, otherwise a search result from graph node 0 |
| HnswIndex.SearchedExtend | src/hnsw.rs:112-115 | the search made at the next level extends the per-level search results |
| HnswIndex.Finished | src/hnsw.rs:113-132 | a level into which the node was indexed has exactly one entry more than before |
| HnswIndex.StepReadyBuildReady | src/hnsw.rs:110-133 | before an iteration, the level about to be searched is still as it was, and the level below has grown by its new entry |
| HnswIndex.StepBuiltHere | src/hnsw.rs:113-128 | after an iteration, the level it searched is finished with the list built from that search |
| HnswIndex.StepBuiltBelow | src/hnsw.rs:129-132 | after an iteration, the level just below keeps its contents, with its new entry's parent now set |
| HnswIndex.StepBuiltLower | src/hnsw.rs:112-134 | after an iteration, the levels further down keep their contents |
| HnswIndex.StepBuilt | src/hnsw.rs:112-134 | one iteration extends the contents relation from levels 0..li-1 to levels 0..li |
| HnswIndex.IndexStep | src/hnsw.rs:112-134 | one iteration keeps the level invariant, extends the indexing, and records the level's search |
| HnswIndex.BuiltNewEntry | src/hnsw.rs:115-126 | in a level the node was indexed into, the new entry's neighbours are exactly the de-duplicated, truncated search result; so with room for one neighbour, an insertion into a non-empty level creates at least one edge |
| HnswIndex.HitsOf | src/hnsw.rs:161-165 | one hit per search-result entry, each a stored node |
| HnswIndex.HitsOfSearch | src/hnsw.rs:160-166 | the level-0 hits have the search result's length and order, are sorted by distance, carry their node's true distance, and the first hit has the distance of the node where the climb stopped |
| HnswIndex.NextStart | src/hnsw.rs:168-173 | the start one level down: the child of the first search hit, or the previous start when that hit has no child |
| HnswIndex.Reaches | src/hnsw.rs:142-175 | the descent from graph node 0 of the top level passes empty levels with the same start, and from each non-empty level moves to NextStart of some search result's first hit; it reaches level k with start s |
| HnswIndex.ReachesNext | src/hnsw.rs:154-175 | searching a reached non-empty level above 0 and moving to the child of the first entry found (or keeping the start if it has none) reaches the next level down |
| HnswIndex.ReachesInRange | src/hnsw.rs:142-175 | in a well-formed index every start the descent reaches is 0 or an entry of its level, so every search starts at a valid index |
| HnswIndex.ReachesOverEmptyLevels | src/hnsw.rs:142-152 | when every level above k is empty, the descent reaches level k with start 0 and no other |
| HnswIndex.EmptyLevels | src/hnsw.rs:68-72 | LEVEL_COUNT fresh, distinct, empty levels |
| HnswIndex.Hnsw.constructor | src/hnsw.rs:67-79 | an empty node store, LEVEL_COUNT empty levels, the given seed and probability table, and a valid index |
| HnswIndex.Hnsw.Default | src/hnsw.rs:55-57 | the same with seed 42 |
| HnswIndex.Hnsw.GenLevel | src/hnsw.rs:81-95 | the generator advances exactly once and the result is LevelFor(value), a level below LEVEL_COUNT |
| HnswIndex.Hnsw.AddToLevel | src/hnsw.rs:113-128 | the level is searched from node 0; the de-duplicated, truncated list becomes the neighbours of the pushed entry (no parent, the given child) and is passed to make_edges_double_sided; no other level changes |
| HnswIndex.Hnsw.SetParentAt | src/hnsw.rs:129-132 | only the parent of that one entry changes |
| HnswIndex.Hnsw.IndexLevel | src/hnsw.rs:113-133 | one loop iteration keeps the index valid, extends the node's indexing by one level, and finishes that level with the list built from its search, whose result it returns |
| HnswIndex.Hnsw.IndexLevels | src/hnsw.rs:110-134 | the loop indexes the node into levels 0..L-1 and keeps the index valid; it returns the per-level search results, and each level is built from its own |
| HnswIndex.Hnsw.IndexNode | src/hnsw.rs:106-135 | one generator step, then the node is indexed into exactly levels 0..L-1 for the drawn L. Each of those levels gets the new entry with the neighbours from its search and the back-edges (Built). The store is unchanged and the index stays valid |
| HnswIndex.Hnsw.Insert | src/hnsw.rs:97-104 | exactly one node is appended, its idx equal to its position. It is indexed as above, shape (Indexed) and edges (Built from the returned per-level searches), and the index stays valid |
| HnswIndex.Hnsw.NearestNeighbourSearch | src/hnsw.rs:137-177 | no hits for an empty store; the underflow exactly when nodes are stored and level 0 is empty. Otherwise: the level-0 start is the one the top-down descent reaches (Reaches), and the hits are the level-0 search result from that start, mapped to stored nodes in order |

## Left out

- Floating point: `f32` distances and `f64` probabilities are reals, so rounding in the running sum of `gen_level` and NaN distances are not modelled. The sort comparator's NaN-as-equal case cannot arise with reals.
- `generate_probabilities` (the `exp`-based table) is not part of this model. The probability table is a constructor argument, and `Hnsw.Default` takes the table for decay 0.5 as an argument.
- The Euclidean distance and the distance trait are not part of this model. The distance is an abstract function argument.
- `Rand.LcgRng.NextF64`: the `f64` division is taken as the exact rational seed / MODULUS.
- The unstable sort is specified by what it guarantees, a sorted permutation, and not by its algorithm. Ties may come in any order.
- The `HashSet` in the de-duplication is a set of seen ids threaded through a sequence filter.
- `MaybeUninit`/`transmute_copy` construction is modelled as a sequence of fresh empty levels.
- The `Debug` impls, the serde/rkyv derives, the examples and the benchmark are formatting, serialization, I/O and harness code, and are not part of this model.
- `usize` overflow of indices and lengths is not modelled. Indices are unbounded naturals.
- `HnswIndex.Hnsw.IndexNode` requires a valid node index. The Rust code panics on an out-of-range index.
- `Levels.Level.InsertNeighbour` (`target < |graph|`), `Levels.Level.MakeEdgesDoubleSided` (`IdsBelow(nbs, |graph|)`), `Levels.Level.NearestNeighbourSearchStartingFrom` and `Levels.Level.ScanNeighbours` (start in range, `Searchable`) require valid indices. The Rust code panics on an out-of-range index there (src/level.rs:49, 62, 95, 119). Every call from the index meets these requires.
- `HnswIndex.Hnsw.NearestNeighbourSearch`: the panic on the level-index underflow is returned as the `IndexUnderflow` outcome.
- LEVEL_COUNT is required to be at least 1, because the Rust code's `LEVEL_COUNT - 1` would not be a valid level otherwise.
