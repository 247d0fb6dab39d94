/** The orchestrator: the node store, the fixed array of levels, the random
    generator and the per-level probability table; insertion (level sampling,
    per-level search, edge creation, vertical linking) and the descending
    query search. */
module HnswIndex {
  import opened Nodes
  import opened Levels
  import opened Rand

  // ---------------------------------------------------------------------
  // De-duplication of a search result (the `retain` with a seen-set)
  // ---------------------------------------------------------------------

  /** Keeps each entry whose id is not in `seen` and not met earlier. */
  function DedupFrom(s: seq<Neighbour>, seen: set<GraphNodeIdx>): (r: seq<Neighbour>)
    ensures |r| <= |s|
    ensures DistinctIds(r)
    ensures forall i :: 0 <= i < |r| ==> r[i] in s && r[i].idx !in seen
    ensures Ids(r) == Ids(s) - seen
    decreases |s|
  {
    if s == [] then []
    else
      IdsCons(s);
      if s[0].idx in seen then
        var rest := DedupFrom(s[1..], seen);
        assert forall i :: 0 <= i < |rest| ==> rest[i] in s by {
          forall i | 0 <= i < |rest| ensures rest[i] in s {
            var m :| 0 <= m < |s[1..]| && s[1..][m] == rest[i];
            assert s[m + 1] == rest[i];
          }
        }
        rest
      else
        var rest := DedupFrom(s[1..], seen + {s[0].idx});
        var r := [s[0]] + rest;
        assert forall i :: 0 <= i < |rest| ==> rest[i] in s by {
          forall i | 0 <= i < |rest| ensures rest[i] in s {
            var m :| 0 <= m < |s[1..]| && s[1..][m] == rest[i];
            assert s[m + 1] == rest[i];
          }
        }
        assert r[1..] == rest;
        IdsCons(r);
        r
  }

  /** The de-duplicated list: first occurrence of every id, in order. */
  function Dedup(s: seq<Neighbour>): (r: seq<Neighbour>)
    ensures |r| <= |s| && DistinctIds(r) && Ids(r) == Ids(s)
  {
    DedupFrom(s, {})
  }

  /** Every first occurrence of an id not yet seen survives de-duplication. */
  lemma {:induction false} DedupKeepsFirst(s: seq<Neighbour>, seen: set<GraphNodeIdx>, i: nat)
    requires i < |s| && s[i].idx !in seen
    requires forall q :: 0 <= q < i ==> s[q].idx != s[i].idx
    ensures s[i] in DedupFrom(s, seen)
    decreases |s|
  {
    if i > 0 {
      assert s[1..][i - 1] == s[i];
      if s[0].idx in seen {
        DedupKeepsFirst(s[1..], seen, i - 1);
      } else {
        DedupKeepsFirst(s[1..], seen + {s[0].idx}, i - 1);
      }
    }
  }

  /** De-duplication keeps the relative order, so a sorted list stays sorted. */
  lemma {:induction false} DedupKeepsSorted(s: seq<Neighbour>, seen: set<GraphNodeIdx>)
    requires SortedByDist(s)
    ensures SortedByDist(DedupFrom(s, seen))
    decreases |s|
  {
    if s != [] {
      SortedTail(s);
      if s[0].idx in seen {
        DedupKeepsSorted(s[1..], seen);
      } else {
        var rest := DedupFrom(s[1..], seen + {s[0].idx});
        DedupKeepsSorted(s[1..], seen + {s[0].idx});
        forall i | 0 <= i < |rest| ensures s[0].dist <= rest[i].dist {
          assert rest[i] in s[1..];
          HeadIsClosest(s, rest[i]);
        }
        ConsSorted(s[0], rest);
      }
    }
  }

  /** The tail of a list with distinct ids has distinct ids, none of them
      the head's. */
  lemma DistinctTail(s: seq<Neighbour>, seen: set<GraphNodeIdx>)
    requires s != [] && DistinctIds(s) && Ids(s) !! seen
    ensures s[0].idx !in seen
    ensures DistinctIds(s[1..]) && Ids(s[1..]) !! seen + {s[0].idx}
  {
    IdsCons(s);
    forall i, j | 0 <= i < j < |s[1..]| ensures s[1..][i].idx != s[1..][j].idx {
      assert s[1..][i] == s[i + 1] && s[1..][j] == s[j + 1];
    }
    forall m | 0 <= m < |s[1..]| ensures s[1..][m].idx != s[0].idx {
      assert s[1..][m] == s[m + 1];
    }
  }

  /** A list whose ids are already distinct comes back unchanged. */
  lemma {:induction false} DedupOfDistinct(s: seq<Neighbour>, seen: set<GraphNodeIdx>)
    requires DistinctIds(s) && Ids(s) !! seen
    ensures DedupFrom(s, seen) == s
    decreases |s|
  {
    if s != [] {
      DistinctTail(s, seen);
      DedupOfDistinct(s[1..], seen + {s[0].idx});
      assert s == [s[0]] + s[1..];
    }
  }

  // ---------------------------------------------------------------------
  // Level sampling
  // ---------------------------------------------------------------------

  /** The sum of the first `n` probabilities. */
  function PrefixSum(ps: seq<real>, n: nat): real
    requires n <= |ps|
  {
    if n == 0 then 0.0 else PrefixSum(ps, n - 1) + ps[n - 1]
  }

  /** The cumulative probability up to and including level `j`. */
  function CumAt(ps: seq<real>, j: nat): real
    requires j < |ps|
  {
    PrefixSum(ps, j + 1)
  }

  /** The scan of gen_level from position `i` with the running sum. */
  function LevelFrom(value: real, ps: seq<real>, i: nat, cumulative: real): (level: nat)
    requires 1 <= |ps| && i <= |ps|
    ensures level < |ps|
    decreases |ps| - i
  {
    if i == |ps| then |ps| - 1
    else if value <= cumulative + ps[i] then i
    else LevelFrom(value, ps, i + 1, cumulative + ps[i])
  }

  /** The level count gen_level draws for `value`: the first level whose
      cumulative probability reaches `value`, else the last level. */
  function LevelFor(value: real, ps: seq<real>): (level: nat)
    requires 1 <= |ps|
    ensures level < |ps|
  {
    LevelFrom(value, ps, 0, 0.0)
  }

  lemma {:induction false} LevelFromSpec(value: real, ps: seq<real>, i: nat)
    requires 1 <= |ps| && i <= |ps|
    requires forall j :: 0 <= j < i ==> CumAt(ps, j) < value
    ensures var l := LevelFrom(value, ps, i, PrefixSum(ps, i));
            && l < |ps|
            && (forall j :: 0 <= j < l ==> CumAt(ps, j) < value)
            && (l < |ps| - 1 ==> value <= CumAt(ps, l))
    decreases |ps| - i
  {
    if i < |ps| && !(value <= PrefixSum(ps, i) + ps[i]) {
      assert PrefixSum(ps, i + 1) == PrefixSum(ps, i) + ps[i];
      LevelFromSpec(value, ps, i + 1);
    }
  }

  /** gen_level's result is below the level count, every earlier cumulative
      probability falls short of the value, and unless it is the fallback
      last level, its own cumulative probability reaches the value. These
      three facts determine the result. */
  lemma LevelForSpec(value: real, ps: seq<real>)
    requires 1 <= |ps|
    ensures var l := LevelFor(value, ps);
            && l <= |ps| - 1
            && (forall j :: 0 <= j < l ==> CumAt(ps, j) < value)
            && (l < |ps| - 1 ==> value <= CumAt(ps, l))
  {
    LevelFromSpec(value, ps, 0);
  }

  /** A draw no larger than the first probability yields level count 0: the
      node then enters no level at all. */
  lemma FirstLevelMeansNone(value: real, ps: seq<real>)
    requires 1 <= |ps| && value <= ps[0]
    ensures LevelFor(value, ps) == 0
  {
  }

  /** A seed that collapses to 0 (seed 0 itself, or the modulus) draws level
      count 0, and so does every later draw: such a generator never indexes
      any node. */
  lemma {:induction false} CollapsedSeedIndexesNothing(seed: u64, ps: seq<real>, n: nat)
    requires Step(seed) == 0 && 1 <= |ps| && 0.0 <= ps[0]
    requires n >= 1
    ensures SeedAfter(seed, n) == 0
    ensures LevelFor(UnitValue(SeedAfter(seed, n)), ps) == 0
  {
    if n > 1 {
      CollapsedSeedIndexesNothing(seed, ps, n - 1);
    }
  }

  // ---------------------------------------------------------------------
  // Invariants over all levels
  // ---------------------------------------------------------------------

  /** Graph node `j` of the upper level has a child in the lower level whose
      parent is `j` and which stands for the same stored node. */
  predicate ChildLinked(lower: seq<GraphNode>, upper: seq<GraphNode>, j: nat)
    requires j < |upper|
  {
    && upper[j].child.Some?
    && upper[j].child.value < |lower|
    && lower[upper[j].child.value].parent == Some(j)
    && lower[upper[j].child.value].nodeIdx == upper[j].nodeIdx
  }

  /** Graph node `j` of the lower level, if it has a parent, has a parent in
      the upper level whose child is `j`. */
  predicate ParentLinked(lower: seq<GraphNode>, upper: seq<GraphNode>, j: nat)
    requires j < |lower|
  {
    lower[j].parent.Some? ==>
      lower[j].parent.value < |upper| && upper[lower[j].parent.value].child == Some(j)
  }

  /** The vertical links between two adjacent levels are consistent. */
  predicate Chained(lower: seq<GraphNode>, upper: seq<GraphNode>) {
    && (forall j :: 0 <= j < |upper| ==> ChildLinked(lower, upper, j))
    && (forall j :: 0 <= j < |lower| ==> ParentLinked(lower, upper, j))
  }

  /** Levels `k` and `k + 1` are chained and the upper one is no larger. */
  predicate Adjacent(layers: seq<seq<GraphNode>>, k: nat)
    requires k + 1 < |layers|
  {
    Chained(layers[k], layers[k + 1]) && |layers[k + 1]| <= |layers[k]|
  }

  /** The invariant of all levels: each graph is well formed (bounded degree,
      valid node and neighbour indices), level 0 has no children, adjacent
      levels are chained, sizes never increase going up, and the top level
      is empty. */
  predicate LayersOk(layers: seq<seq<GraphNode>>, nodeCount: nat, max: nat) {
    && |layers| >= 1
    && (forall k :: 0 <= k < |layers| ==> GraphOk(layers[k], nodeCount, max))
    && (forall j :: 0 <= j < |layers[0]| ==> layers[0][j].child.None?)
    && (forall k :: 0 <= k < |layers| - 1 ==> Adjacent(layers, k))
    && layers[|layers| - 1] == []
  }

  /** Levels that are all empty satisfy the invariant. */
  lemma EmptyLayersOk(layers: seq<seq<GraphNode>>, max: nat)
    requires |layers| >= 1 && forall k :: 0 <= k < |layers| ==> layers[k] == []
    ensures LayersOk(layers, 0, max)
  {
    forall k | 0 <= k < |layers| - 1 ensures Adjacent(layers, k) {
      assert layers[k] == [] && layers[k + 1] == [];
    }
  }

  /** Level sizes never increase going up, between any two levels. */
  lemma {:induction false} SizesNonIncreasing(layers: seq<seq<GraphNode>>, nodeCount: nat, max: nat, i: nat, j: nat)
    requires LayersOk(layers, nodeCount, max) && i <= j < |layers|
    ensures |layers[j]| <= |layers[i]|
    decreases j - i
  {
    if i < j {
      SizesNonIncreasing(layers, nodeCount, max, i, j - 1);
      assert Adjacent(layers, j - 1);
    }
  }

  /** Well-formedness does not depend on how many nodes were stored since. */
  lemma LayersOkGrow(layers: seq<seq<GraphNode>>, nodeCount: nat, more: nat, max: nat)
    requires LayersOk(layers, nodeCount, max) && nodeCount <= more
    ensures LayersOk(layers, more, max)
  {
    forall k | 0 <= k < |layers| ensures GraphOk(layers[k], more, max) {
      assert GraphOk(layers[k], nodeCount, max);
      forall j | 0 <= j < |layers[k]| ensures GraphNodeOk(layers[k][j], more, |layers[k]|, max) {
        assert GraphNodeOk(layers[k][j], nodeCount, |layers[k]|, max);
      }
    }
  }

  /** The graph with graph node `c`'s parent set to `p`. */
  function SetParent(graph: seq<GraphNode>, c: GraphNodeIdx, p: GraphNodeIdx): seq<GraphNode>
    requires c < |graph|
  {
    graph[c := graph[c].(parent := Some(p))]
  }

  /** The entry created for stored node `n` at level `k` when it was indexed
      into levels 0..L-1 of `before`: it stands for `n`, its child is the
      entry just created one level down (none at level 0), its parent the one
      created one level up (none at the top level it reached), and its
      neighbour ids are distinct existing indices (so no self-edge). */
  predicate NewEntry(before: seq<seq<GraphNode>>, e: GraphNode, n: NodeIdx, L: nat, k: nat)
    requires k < L < |before|
  {
    && e.nodeIdx == n
    && e.child == (if k == 0 then None else Some(|before[k - 1]|))
    && e.parent == (if k == L - 1 then None else Some(|before[k + 1]|))
    && DistinctIds(e.neighbours)
    && IdsBelow(e.neighbours, |before[k]|)
  }

  /** Level `k` of `after` is level `k` of `before` grown by the entry for
      stored node `n` (NewEntry), with the links of the old entries kept. */
  predicate LevelIndexed(before: seq<seq<GraphNode>>, after: seq<seq<GraphNode>>, n: NodeIdx, L: nat, k: nat)
    requires k < L < |before| && k < |after|
  {
    && |after[k]| == |before[k]| + 1
    && NewEntry(before, after[k][|before[k]|], n, L, k)
    && (forall j :: 0 <= j < |before[k]| ==> SameLinks(after[k][j], before[k][j]))
  }

  /** `after` is `before` with stored node `n` indexed into levels 0..L-1:
      each of those levels gained exactly one entry and kept the links of its
      old entries; every other level is unchanged. */
  predicate Indexed(before: seq<seq<GraphNode>>, after: seq<seq<GraphNode>>, n: NodeIdx, L: nat) {
    && |after| == |before| && L < |before|
    && (forall k {:trigger after[k]} :: L <= k < |before| ==> after[k] == before[k])
    && (forall k :: 0 <= k < L ==> LevelIndexed(before, after, n, L, k))
  }

  /** The levels after one iteration of index_node's loop at level `li`:
      level `li` replaced by `g`, and (above level 0) the entry `c` just
      created one level down given parent `|layers[li]|`. */
  function NextLayers(layers: seq<seq<GraphNode>>, li: nat, g: seq<GraphNode>, c: GraphNodeIdx): seq<seq<GraphNode>>
    requires li < |layers| && (li > 0 ==> c < |layers[li - 1]|)
  {
    if li == 0 then layers[li := g]
    else layers[li := g][li - 1 := SetParent(layers[li - 1], c, |layers[li]|)]
  }

  /** The entry index_node pushes onto level `li` for stored node `n`. */
  function FreshEntry(before: seq<seq<GraphNode>>, n: NodeIdx, li: nat, nbs: seq<Neighbour>): GraphNode
    requires li < |before|
  {
    GraphNode(n, nbs, None, if li == 0 then None else Some(|before[li - 1]|))
  }

  lemma SetParentGraphOk(graph: seq<GraphNode>, c: GraphNodeIdx, p: GraphNodeIdx, nodeCount: nat, max: nat)
    requires c < |graph| && GraphOk(graph, nodeCount, max)
    ensures GraphOk(SetParent(graph, c, p), nodeCount, max)
  {
    var r := SetParent(graph, c, p);
    forall j | 0 <= j < |r| ensures GraphNodeOk(r[j], nodeCount, |r|, max) {
      assert GraphNodeOk(graph[j], nodeCount, |graph|, max);
    }
  }

  /** Appending a well-formed entry keeps a graph well formed. */
  lemma PushGraphOk(graph: seq<GraphNode>, e: GraphNode, nodeCount: nat, max: nat)
    requires GraphOk(graph, nodeCount, max) && GraphNodeOk(e, nodeCount, |graph| + 1, max)
    ensures GraphOk(graph + [e], nodeCount, max)
  {
    var r := graph + [e];
    forall j | 0 <= j < |r| ensures GraphNodeOk(r[j], nodeCount, |r|, max) {
      if j < |graph| {
        assert GraphNodeOk(graph[j], nodeCount, |graph|, max);
        assert r[j] == graph[j];
      }
    }
  }

  /** A lower level that gains one parentless entry stays chained to the
      level above. */
  lemma ChainedGrowLower(lower: seq<GraphNode>, upper: seq<GraphNode>, lower2: seq<GraphNode>)
    requires Chained(lower, upper)
    requires |lower2| == |lower| + 1 && lower2[|lower|].parent.None?
    requires forall j :: 0 <= j < |lower| ==> SameLinks(lower2[j], lower[j])
    ensures Chained(lower2, upper)
  {
    forall j | 0 <= j < |upper| ensures ChildLinked(lower2, upper, j) {
      assert ChildLinked(lower, upper, j);
    }
    forall j | 0 <= j < |lower2| ensures ParentLinked(lower2, upper, j) {
      if j < |lower| {
        assert ParentLinked(lower, upper, j);
      }
    }
  }

  /** Linking the last (parentless) entry `c` of the lower level to a new
      entry on top of the upper level keeps the two levels chained. */
  lemma ChainedLink(lower: seq<GraphNode>, upper: seq<GraphNode>, upper2: seq<GraphNode>, c: GraphNodeIdx)
    requires Chained(lower, upper)
    requires c < |lower| && lower[c].parent.None?
    requires |upper2| == |upper| + 1
    requires forall j :: 0 <= j < |upper| ==> SameLinks(upper2[j], upper[j])
    requires upper2[|upper|].child == Some(c) && upper2[|upper|].nodeIdx == lower[c].nodeIdx
    ensures Chained(SetParent(lower, c, |upper|), upper2)
  {
    var lower2 := SetParent(lower, c, |upper|);
    forall j | 0 <= j < |upper2| ensures ChildLinked(lower2, upper2, j) {
      if j < |upper| {
        assert ChildLinked(lower, upper, j);
      }
    }
    forall j | 0 <= j < |lower2| ensures ParentLinked(lower2, upper2, j) {
      if j != c {
        assert ParentLinked(lower, upper, j);
      }
    }
  }

  /** Setting a parent in the upper level does not disturb the chain below
      it, which depends only on the upper level's children. */
  lemma ChainedUpperParent(lower: seq<GraphNode>, upper: seq<GraphNode>, c: GraphNodeIdx, p: GraphNodeIdx)
    requires Chained(lower, upper) && c < |upper|
    ensures Chained(lower, SetParent(upper, c, p))
  {
    var upper2 := SetParent(upper, c, p);
    forall j | 0 <= j < |upper2| ensures ChildLinked(lower, upper2, j) {
      assert ChildLinked(lower, upper, j);
    }
    forall j | 0 <= j < |lower| ensures ParentLinked(lower, upper2, j) {
      assert ParentLinked(lower, upper, j);
    }
  }

  /** What holds before index_node's loop body at level `li`: both the
      original and the current levels are well formed, the current levels
      are the original with the node indexed into levels 0..li-1, level `li`
      exists below the top, and the list `nbs` about to become the new
      entry's neighbours is valid there. */
  predicate StepReady(before: seq<seq<GraphNode>>, layers: seq<seq<GraphNode>>, n: NodeIdx, li: nat,
                      nbs: seq<Neighbour>, nodeCount: nat, max: nat)
  {
    && LayersOk(before, nodeCount, max) && LayersOk(layers, nodeCount, max)
    && Indexed(before, layers, n, li) && li + 1 < |before| && n < nodeCount
    && DistinctIds(nbs) && IdsBelow(nbs, |layers[li]|) && |nbs| <= max
  }

  /** The index of the entry created one level down (0 at level 0). */
  function ChildSlot(before: seq<seq<GraphNode>>, li: nat): GraphNodeIdx
    requires li < |before|
  {
    if li == 0 then 0 else |before[li - 1]|
  }

  /** The graph of level `li` after the push and the back-edges. */
  function StepGraph(before: seq<seq<GraphNode>>, layers: seq<seq<GraphNode>>, n: NodeIdx, li: nat,
                     nbs: seq<Neighbour>, max: nat): seq<GraphNode>
    requires li < |before| && li < |layers| && IdsBelow(nbs, |layers[li]|)
  {
    var grown := layers[li] + [FreshEntry(before, n, li, nbs)];
    assert IdsBelow(nbs, |grown|);
    BackEdges(grown, |layers[li]|, nbs, max)
  }

  /** The new level-`li` graph: one entry longer, old entries keep their
      links, the new entry is exactly the fresh entry, and it is well formed. */
  lemma StepGraphFacts(before: seq<seq<GraphNode>>, layers: seq<seq<GraphNode>>, n: NodeIdx, li: nat,
                       nbs: seq<Neighbour>, nodeCount: nat, max: nat)
    requires StepReady(before, layers, n, li, nbs, nodeCount, max)
    ensures var g := StepGraph(before, layers, n, li, nbs, max);
            && |g| == |layers[li]| + 1
            && g[|layers[li]|] == FreshEntry(before, n, li, nbs)
            && (forall j :: 0 <= j < |layers[li]| ==> SameLinks(g[j], layers[li][j]))
            && GraphOk(g, nodeCount, max)
  {
    var e := FreshEntry(before, n, li, nbs);
    var grown := layers[li] + [e];
    var gi := |layers[li]|;
    assert IdsBelow(nbs, |grown|);
    BackEdgesFrame(grown, gi, nbs, max);
    forall m | 0 <= m < |nbs| ensures nbs[m].idx != gi {
    }
    assert gi !in Ids(nbs);
    forall j | 0 <= j < gi ensures SameLinks(StepGraph(before, layers, n, li, nbs, max)[j], layers[li][j]) {
      assert grown[j] == layers[li][j];
    }
    assert GraphOk(layers[li], nodeCount, max);
    PushGraphOk(layers[li], e, nodeCount, max);
    forall i | 0 <= i < |nbs| ensures gi !in Ids(grown[nbs[i].idx].neighbours) {
      var t := nbs[i].idx;
      assert grown[t] == layers[li][t];
      assert GraphNodeOk(layers[li][t], nodeCount, gi, max);
    }
    BackEdgesGraphOk(grown, gi, nbs, nodeCount, max);
  }

  /** Above level 0, the entry created one level down is a valid index. */
  lemma ChildSlotValid(before: seq<seq<GraphNode>>, layers: seq<seq<GraphNode>>, n: NodeIdx, li: nat,
                       nbs: seq<Neighbour>, nodeCount: nat, max: nat)
    requires StepReady(before, layers, n, li, nbs, nodeCount, max)
    ensures li > 0 ==> ChildSlot(before, li) < |layers[li - 1]|
  {
    if li > 0 {
      assert LevelIndexed(before, layers, n, li, li - 1);
    }
  }

  /** The level searched in this iteration is indexed. */
  lemma StepIndexedHere(before: seq<seq<GraphNode>>, layers: seq<seq<GraphNode>>, n: NodeIdx, li: nat,
                        nbs: seq<Neighbour>, nodeCount: nat, max: nat, k: nat)
    requires StepReady(before, layers, n, li, nbs, nodeCount, max)
    requires k == li
    ensures li > 0 ==> ChildSlot(before, li) < |layers[li - 1]|
    ensures LevelIndexed(before, NextLayers(layers, li, StepGraph(before, layers, n, li, nbs, max), ChildSlot(before, li)), n, li + 1, k)
  {
    ChildSlotValid(before, layers, n, li, nbs, nodeCount, max);
    var g := StepGraph(before, layers, n, li, nbs, max);
    var c := ChildSlot(before, li);
    var next := NextLayers(layers, li, g, c);
    StepGraphFacts(before, layers, n, li, nbs, nodeCount, max);
    assert layers[li] == before[li];
    assert next[k] == g;
  }

  /** The level just below keeps its indexing; its new entry gains its parent. */
  lemma StepIndexedBelow(before: seq<seq<GraphNode>>, layers: seq<seq<GraphNode>>, n: NodeIdx, li: nat,
                        nbs: seq<Neighbour>, nodeCount: nat, max: nat, k: nat)
    requires StepReady(before, layers, n, li, nbs, nodeCount, max)
    requires k + 1 == li
    ensures li > 0 ==> ChildSlot(before, li) < |layers[li - 1]|
    ensures LevelIndexed(before, NextLayers(layers, li, StepGraph(before, layers, n, li, nbs, max), ChildSlot(before, li)), n, li + 1, k)
  {
    ChildSlotValid(before, layers, n, li, nbs, nodeCount, max);
    var g := StepGraph(before, layers, n, li, nbs, max);
    var c := ChildSlot(before, li);
    var next := NextLayers(layers, li, g, c);
    assert LevelIndexed(before, layers, n, li, k);
    assert next[k] == SetParent(layers[k], c, |layers[li]|);
    assert layers[li] == before[li];
    forall j | 0 <= j < |before[k]| ensures SameLinks(next[k][j], before[k][j]) {
      assert next[k][j] == layers[k][j];
    }
  }

  /** Lower levels keep their indexing. */
  lemma StepIndexedLower(before: seq<seq<GraphNode>>, layers: seq<seq<GraphNode>>, n: NodeIdx, li: nat,
                        nbs: seq<Neighbour>, nodeCount: nat, max: nat, k: nat)
    requires StepReady(before, layers, n, li, nbs, nodeCount, max)
    requires k + 1 < li
    ensures li > 0 ==> ChildSlot(before, li) < |layers[li - 1]|
    ensures LevelIndexed(before, NextLayers(layers, li, StepGraph(before, layers, n, li, nbs, max), ChildSlot(before, li)), n, li + 1, k)
  {
    ChildSlotValid(before, layers, n, li, nbs, nodeCount, max);
    var g := StepGraph(before, layers, n, li, nbs, max);
    var c := ChildSlot(before, li);
    var next := NextLayers(layers, li, g, c);
    assert LevelIndexed(before, layers, n, li, k);
    assert next[k] == layers[k];
  }

  /** One loop iteration extends the indexing by one level. */
  lemma StepIndexed(before: seq<seq<GraphNode>>, layers: seq<seq<GraphNode>>, n: NodeIdx, li: nat,
                    nbs: seq<Neighbour>, nodeCount: nat, max: nat)
    requires StepReady(before, layers, n, li, nbs, nodeCount, max)
    ensures li > 0 ==> ChildSlot(before, li) < |layers[li - 1]|
    ensures Indexed(before, NextLayers(layers, li, StepGraph(before, layers, n, li, nbs, max), ChildSlot(before, li)), n, li + 1)
  {
    ChildSlotValid(before, layers, n, li, nbs, nodeCount, max);
    var g := StepGraph(before, layers, n, li, nbs, max);
    var c := ChildSlot(before, li);
    var next := NextLayers(layers, li, g, c);
    forall k | li + 1 <= k < |before| ensures next[k] == before[k] {
      assert next[k] == layers[k];
    }
    var top := li + 1;
    forall k | 0 <= k < top ensures LevelIndexed(before, next, n, top, k) {
      if k == li {
        StepIndexedHere(before, layers, n, li, nbs, nodeCount, max, k);
      } else if k + 1 == li {
        StepIndexedBelow(before, layers, n, li, nbs, nodeCount, max, k);
      } else {
        StepIndexedLower(before, layers, n, li, nbs, nodeCount, max, k);
      }
    }
  }

  /** After one iteration the new level is still chained to the one above. */
  lemma StepAdjacentAt(before: seq<seq<GraphNode>>, layers: seq<seq<GraphNode>>, n: NodeIdx, li: nat,
                     nbs: seq<Neighbour>, nodeCount: nat, max: nat, k: nat)
    requires StepReady(before, layers, n, li, nbs, nodeCount, max)
    requires k + 1 < |layers|
    requires k == li
    ensures li > 0 ==> ChildSlot(before, li) < |layers[li - 1]|
    ensures Adjacent(NextLayers(layers, li, StepGraph(before, layers, n, li, nbs, max), ChildSlot(before, li)), k)
  {
    ChildSlotValid(before, layers, n, li, nbs, nodeCount, max);
    var g := StepGraph(before, layers, n, li, nbs, max);
    var c := ChildSlot(before, li);
    StepGraphFacts(before, layers, n, li, nbs, nodeCount, max);
    var next := NextLayers(layers, li, g, c);
    assert layers[li] == before[li];
    assert Adjacent(layers, k) && Adjacent(before, k);
    assert next[k] == g && next[k + 1] == layers[k + 1];
    ChainedGrowLower(layers[li], layers[li + 1], g);
  }

  /** After one iteration the new level is chained to the one below through
      the new child/parent pair. */
  lemma StepAdjacentBelow(before: seq<seq<GraphNode>>, layers: seq<seq<GraphNode>>, n: NodeIdx, li: nat,
                     nbs: seq<Neighbour>, nodeCount: nat, max: nat, k: nat)
    requires StepReady(before, layers, n, li, nbs, nodeCount, max)
    requires k + 1 < |layers|
    requires k + 1 == li
    ensures li > 0 ==> ChildSlot(before, li) < |layers[li - 1]|
    ensures Adjacent(NextLayers(layers, li, StepGraph(before, layers, n, li, nbs, max), ChildSlot(before, li)), k)
  {
    ChildSlotValid(before, layers, n, li, nbs, nodeCount, max);
    var g := StepGraph(before, layers, n, li, nbs, max);
    var c := ChildSlot(before, li);
    StepGraphFacts(before, layers, n, li, nbs, nodeCount, max);
    var next := NextLayers(layers, li, g, c);
    assert layers[li] == before[li];
    assert Adjacent(layers, k) && Adjacent(before, k);
    assert next[k] == SetParent(layers[k], c, |layers[li]|) && next[k + 1] == g;
    assert LevelIndexed(before, layers, n, li, k);
    ChainedLink(layers[k], layers[li], g, c);
  }

  /** After one iteration the other pairs of levels stay chained and ordered. */
  lemma StepAdjacentElsewhere(before: seq<seq<GraphNode>>, layers: seq<seq<GraphNode>>, n: NodeIdx, li: nat,
                     nbs: seq<Neighbour>, nodeCount: nat, max: nat, k: nat)
    requires StepReady(before, layers, n, li, nbs, nodeCount, max)
    requires k + 1 < |layers|
    requires k != li && k + 1 != li
    ensures li > 0 ==> ChildSlot(before, li) < |layers[li - 1]|
    ensures Adjacent(NextLayers(layers, li, StepGraph(before, layers, n, li, nbs, max), ChildSlot(before, li)), k)
  {
    ChildSlotValid(before, layers, n, li, nbs, nodeCount, max);
    var g := StepGraph(before, layers, n, li, nbs, max);
    var c := ChildSlot(before, li);
    StepGraphFacts(before, layers, n, li, nbs, nodeCount, max);
    var next := NextLayers(layers, li, g, c);
    assert layers[li] == before[li];
    assert Adjacent(layers, k) && Adjacent(before, k);
    if k + 2 == li {
      assert LevelIndexed(before, layers, n, li, k + 1);
      assert next[k] == layers[k] && next[k + 1] == SetParent(layers[k + 1], c, |layers[li]|);
      ChainedUpperParent(layers[k], layers[k + 1], c, |layers[li]|);
    } else {
      assert next[k] == layers[k] && next[k + 1] == layers[k + 1];
    }
  }

  /** One loop iteration keeps all levels well formed. */
  lemma StepLayersOk(before: seq<seq<GraphNode>>, layers: seq<seq<GraphNode>>, n: NodeIdx, li: nat,
                     nbs: seq<Neighbour>, nodeCount: nat, max: nat)
    requires StepReady(before, layers, n, li, nbs, nodeCount, max)
    ensures li > 0 ==> ChildSlot(before, li) < |layers[li - 1]|
    ensures LayersOk(NextLayers(layers, li, StepGraph(before, layers, n, li, nbs, max), ChildSlot(before, li)), nodeCount, max)
  {
    ChildSlotValid(before, layers, n, li, nbs, nodeCount, max);
    var g := StepGraph(before, layers, n, li, nbs, max);
    var c := ChildSlot(before, li);
    StepGraphFacts(before, layers, n, li, nbs, nodeCount, max);
    var next := NextLayers(layers, li, g, c);
    assert layers[li] == before[li];
    if li > 0 {
      assert LevelIndexed(before, layers, n, li, li - 1);
      SetParentGraphOk(layers[li - 1], c, |layers[li]|, nodeCount, max);
    }
    forall k | 0 <= k < |next| ensures GraphOk(next[k], nodeCount, max) {
    }
    forall j | 0 <= j < |next[0]| ensures next[0][j].child.None? {
      if li == 0 && j < |layers[0]| {
        assert SameLinks(g[j], layers[0][j]);
      }
    }
    forall k | 0 <= k < |next| - 1 ensures Adjacent(next, k) {
      if k == li {
        StepAdjacentAt(before, layers, n, li, nbs, nodeCount, max, k);
      } else if k + 1 == li {
        StepAdjacentBelow(before, layers, n, li, nbs, nodeCount, max, k);
      } else {
        StepAdjacentElsewhere(before, layers, n, li, nbs, nodeCount, max, k);
      }
    }
  }

  /** Indexing into no level changes nothing. */
  lemma IndexedAtZero(before: seq<seq<GraphNode>>, after: seq<seq<GraphNode>>, n: NodeIdx)
    requires Indexed(before, after, n, 0)
    ensures after == before
  {
    assert forall k :: 0 <= k < |after| ==> after[k] == before[k];
  }

  /** Indexing never touches the top level, and grows exactly the levels
      below the drawn level count by one entry each. */
  lemma IndexedSizes(before: seq<seq<GraphNode>>, after: seq<seq<GraphNode>>, n: NodeIdx, L: nat, k: nat)
    requires Indexed(before, after, n, L) && k < |before|
    ensures |after[k]| == |before[k]| + (if k < L then 1 else 0)
    ensures after[|after| - 1] == before[|before| - 1]
  {
    if k < L {
      assert LevelIndexed(before, after, n, L, k);
    }
  }

  // ---------------------------------------------------------------------
  // The neighbour list of a new entry
  // ---------------------------------------------------------------------

  /** The new entry's neighbours: the level search result de-duplicated by
      id (first occurrence kept), then truncated to `max`. */
  function NeighbourList(found: seq<Neighbour>, max: nat): (nbs: seq<Neighbour>)
    ensures |nbs| <= max && DistinctIds(nbs)
    ensures Ids(nbs) <= Ids(found)
  {
    var d := Dedup(found);
    d[..Min(|d|, max)]
  }

  /** The neighbour list has distinct ids, at most `max` entries, only ids
      from the search result, and keeps the search result's order; when the
      result has no more distinct ids than `max`, every id of it is kept. */
  lemma NeighbourListFacts(found: seq<Neighbour>, max: nat, size: nat)
    requires IdsBelow(found, size)
    ensures var nbs := NeighbourList(found, max);
            && |nbs| <= max && DistinctIds(nbs) && IdsBelow(nbs, size)
            && (forall i :: 0 <= i < |nbs| ==> nbs[i] in found)
            && (SortedByDist(found) ==> SortedByDist(nbs))
            && (|Dedup(found)| <= max ==> Ids(nbs) == Ids(found))
  {
    var d := Dedup(found);
    var nbs := NeighbourList(found, max);
    forall i | 0 <= i < |nbs| ensures nbs[i] in found && nbs[i].idx < size {
      assert nbs[i] == d[i];
      var m :| 0 <= m < |found| && found[m] == d[i];
    }
    if SortedByDist(found) {
      DedupKeepsSorted(found, {});
    }
    if |d| <= max {
      assert nbs == d;
    }
  }

  // ---------------------------------------------------------------------
  // The edges an insertion creates
  // ---------------------------------------------------------------------

  /** What index_node's search of `graph` for `query` returns: nothing on an
      empty level, otherwise a greedy search result from graph node 0. */
  ghost predicate SearchedFromZero(graph: seq<GraphNode>, nodes: seq<Node>, query: Vector, distance: Distance,
                                   found: seq<Neighbour>)
  {
    && Searchable(graph, |nodes|)
    && (if graph == [] then found == [] else GreedyResult(graph, Distances(graph, nodes, query, distance), 0, found))
  }

  /** Every `founds[k]` is what index_node's search of level `k` of `before`
      returned for stored node `n`'s vector. */
  ghost predicate Searched(before: seq<seq<GraphNode>>, n: NodeIdx, nodes: seq<Node>, distance: Distance,
                           founds: seq<seq<Neighbour>>)
    requires n < |nodes|
  {
    && |founds| <= |before|
    && forall k {:trigger founds[k]} :: 0 <= k < |founds| ==> SearchedFromZero(before[k], nodes, nodes[n].vec, distance, founds[k])
  }

  /** The search of the next level extends the searches so far. */
  lemma SearchedExtend(before: seq<seq<GraphNode>>, n: NodeIdx, nodes: seq<Node>, distance: Distance,
                       founds: seq<seq<Neighbour>>, found: seq<Neighbour>)
    requires n < |nodes| && Searched(before, n, nodes, distance, founds) && |founds| < |before|
    requires SearchedFromZero(before[|founds|], nodes, nodes[n].vec, distance, found)
    ensures Searched(before, n, nodes, distance, founds + [found])
  {
    var all := founds + [found];
    forall k | 0 <= k < |all| ensures SearchedFromZero(before[k], nodes, nodes[n].vec, distance, all[k]) {
      if k < |founds| {
        assert all[k] == founds[k];
      }
    }
  }

  /** Level `k` of `before` once stored node `n` has been indexed into levels
      0..L-1 with neighbour list `nbs` at that level: the new entry pushed,
      the back-edges added from the list, and, below the top level reached,
      the new entry's parent set to the entry created one level up. */
  function Finished(before: seq<seq<GraphNode>>, n: NodeIdx, L: nat, k: nat, nbs: seq<Neighbour>, max: nat): (g: seq<GraphNode>)
    requires k < L < |before| && IdsBelow(nbs, |before[k]|)
    ensures |g| == |before[k]| + 1
  {
    var grown := StepGraph(before, before, n, k, nbs, max);
    if k == L - 1 then grown else SetParent(grown, |before[k]|, |before[k + 1]|)
  }

  /** Level `k` of `after` is level `k` of `before` finished with the
      neighbour list `nbs`. */
  predicate LevelBuilt(before: seq<seq<GraphNode>>, after: seq<seq<GraphNode>>, n: NodeIdx, L: nat, k: nat,
                       nbs: seq<Neighbour>, max: nat)
    requires k < L < |before| && k < |after|
  {
    IdsBelow(nbs, |before[k]|) && after[k] == Finished(before, n, L, k, nbs, max)
  }

  /** The contents of an insertion into levels 0..L-1: every such level `k`
      of `after` is level `k` of `before` finished with the neighbour list
      built from `founds[k]`. */
  predicate Built(before: seq<seq<GraphNode>>, after: seq<seq<GraphNode>>, n: NodeIdx, L: nat, max: nat,
                  founds: seq<seq<Neighbour>>)
  {
    && |after| == |before| && L < |before| && |founds| == L
    && forall k {:trigger founds[k]} :: 0 <= k < L ==> LevelBuilt(before, after, n, L, k, NeighbourList(founds[k], max), max)
  }

  /** A search result names only entries of the searched level. */
  lemma SearchedIdsBelow(graph: seq<GraphNode>, nodes: seq<Node>, query: Vector, distance: Distance,
                         found: seq<Neighbour>, max: nat)
    requires SearchedFromZero(graph, nodes, query, distance, found)
    ensures IdsBelow(found, |graph|) && IdsBelow(NeighbourList(found, max), |graph|)
    ensures graph != [] ==> found != []
  {
    if graph != [] {
      GreedyResultShape(graph, Distances(graph, nodes, query, distance), 0, found);
    }
    NeighbourListFacts(found, max, |graph|);
  }

  /** The part of StepReady the contents proofs use: level `li` is still as
      it was, the level below has grown by its new entry, and the list is
      valid on level `li`. */
  predicate BuildReady(before: seq<seq<GraphNode>>, layers: seq<seq<GraphNode>>, li: nat, nbs: seq<Neighbour>) {
    && li + 1 < |before| && |layers| == |before| && layers[li] == before[li]
    && (li > 0 ==> |before[li - 1]| < |layers[li - 1]|)
    && IdsBelow(nbs, |layers[li]|)
  }

  lemma StepReadyBuildReady(before: seq<seq<GraphNode>>, layers: seq<seq<GraphNode>>, n: NodeIdx, li: nat,
                            nbs: seq<Neighbour>, nodeCount: nat, max: nat)
    requires StepReady(before, layers, n, li, nbs, nodeCount, max)
    ensures BuildReady(before, layers, li, nbs)
  {
    ChildSlotValid(before, layers, n, li, nbs, nodeCount, max);
  }

  /** The level searched in this iteration is finished with its list. */
  lemma StepBuiltHere(before: seq<seq<GraphNode>>, layers: seq<seq<GraphNode>>, n: NodeIdx, li: nat,
                      nbs: seq<Neighbour>, max: nat, k: nat)
    requires BuildReady(before, layers, li, nbs)
    requires k == li
    ensures LevelBuilt(before, NextLayers(layers, li, StepGraph(before, layers, n, li, nbs, max), ChildSlot(before, li)),
                       n, li + 1, k, nbs, max)
  {
    var next := NextLayers(layers, li, StepGraph(before, layers, n, li, nbs, max), ChildSlot(before, li));
    assert next[k] == Finished(before, n, li + 1, k, nbs, max);
  }

  /** The level just below keeps its contents; its new entry gains its parent. */
  lemma StepBuiltBelow(before: seq<seq<GraphNode>>, layers: seq<seq<GraphNode>>, n: NodeIdx, li: nat,
                       nbs: seq<Neighbour>, nbk: seq<Neighbour>, max: nat, k: nat)
    requires BuildReady(before, layers, li, nbs)
    requires k + 1 == li
    requires LevelBuilt(before, layers, n, li, k, nbk, max)
    ensures LevelBuilt(before, NextLayers(layers, li, StepGraph(before, layers, n, li, nbs, max), ChildSlot(before, li)),
                       n, li + 1, k, nbk, max)
  {
    var next := NextLayers(layers, li, StepGraph(before, layers, n, li, nbs, max), ChildSlot(before, li));
    var g := StepGraph(before, before, n, k, nbk, max);
    assert layers[k] == g;
    assert next[k] == SetParent(g, |before[k]|, |before[li]|);
  }

  /** Lower levels keep their contents. */
  lemma StepBuiltLower(before: seq<seq<GraphNode>>, layers: seq<seq<GraphNode>>, n: NodeIdx, li: nat,
                       nbs: seq<Neighbour>, nbk: seq<Neighbour>, max: nat, k: nat)
    requires BuildReady(before, layers, li, nbs)
    requires k + 1 < li
    requires LevelBuilt(before, layers, n, li, k, nbk, max)
    ensures LevelBuilt(before, NextLayers(layers, li, StepGraph(before, layers, n, li, nbs, max), ChildSlot(before, li)),
                       n, li + 1, k, nbk, max)
  {
    var next := NextLayers(layers, li, StepGraph(before, layers, n, li, nbs, max), ChildSlot(before, li));
    assert next[k] == layers[k];
  }

  /** One loop iteration extends the contents from levels 0..li-1 to levels
      0..li, level `li` finished with the list built from `found`. */
  lemma StepBuilt(before: seq<seq<GraphNode>>, layers: seq<seq<GraphNode>>, n: NodeIdx, li: nat,
                  founds: seq<seq<Neighbour>>, found: seq<Neighbour>, max: nat)
    requires BuildReady(before, layers, li, NeighbourList(found, max))
    requires Built(before, layers, n, li, max, founds)
    ensures Built(before, NextLayers(layers, li, StepGraph(before, layers, n, li, NeighbourList(found, max), max),
                                     ChildSlot(before, li)), n, li + 1, max, founds + [found])
  {
    var nbs := NeighbourList(found, max);
    var next := NextLayers(layers, li, StepGraph(before, layers, n, li, nbs, max), ChildSlot(before, li));
    var top := li + 1;
    var all := founds + [found];
    forall k | 0 <= k < top ensures LevelBuilt(before, next, n, top, k, NeighbourList(all[k], max), max) {
      if k == li {
        assert all[k] == found;
        StepBuiltHere(before, layers, n, li, nbs, max, k);
      } else {
        assert all[k] == founds[k];
        var nbk := NeighbourList(founds[k], max);
        assert LevelBuilt(before, layers, n, li, k, nbk, max);
        if k + 1 == li {
          StepBuiltBelow(before, layers, n, li, nbs, nbk, max, k);
        } else {
          StepBuiltLower(before, layers, n, li, nbs, nbk, max, k);
        }
      }
    }
  }

  /** One iteration of index_node's loop, on the levels' graphs: it keeps
      them well formed, extends the indexing to level `li`, and finishes
      level `li` with the list built from its search `found`. */
  lemma IndexStep(before: seq<seq<GraphNode>>, layers: seq<seq<GraphNode>>, n: NodeIdx, li: nat,
                  found: seq<Neighbour>, founds: seq<seq<Neighbour>>, nodes: seq<Node>, distance: Distance, max: nat)
    requires StepReady(before, layers, n, li, NeighbourList(found, max), |nodes|, max)
    requires Searched(before, n, nodes, distance, founds) && Built(before, layers, n, li, max, founds)
    requires SearchedFromZero(before[li], nodes, nodes[n].vec, distance, found)
    ensures li > 0 ==> ChildSlot(before, li) < |layers[li - 1]|
    ensures var next := NextLayers(layers, li, StepGraph(before, layers, n, li, NeighbourList(found, max), max),
                                   ChildSlot(before, li));
            && LayersOk(next, |nodes|, max) && Indexed(before, next, n, li + 1)
            && Searched(before, n, nodes, distance, founds + [found])
            && Built(before, next, n, li + 1, max, founds + [found])
  {
    var nbs := NeighbourList(found, max);
    StepIndexed(before, layers, n, li, nbs, |nodes|, max);
    StepLayersOk(before, layers, n, li, nbs, |nodes|, max);
    StepReadyBuildReady(before, layers, n, li, nbs, |nodes|, max);
    StepBuilt(before, layers, n, li, founds, found, max);
    SearchedExtend(before, n, nodes, distance, founds, found);
  }

  /** In a built level the new entry's neighbours are exactly the list built
      from the level's search; so, with room for at least one neighbour, a
      node inserted into a non-empty level gets at least one edge there. */
  lemma BuiltNewEntry(before: seq<seq<GraphNode>>, after: seq<seq<GraphNode>>, n: NodeIdx, L: nat, k: nat,
                      nodes: seq<Node>, distance: Distance, max: nat, founds: seq<seq<Neighbour>>)
    requires n < |nodes| && Built(before, after, n, L, max, founds) && Searched(before, n, nodes, distance, founds)
    requires k < L
    ensures |after[k]| == |before[k]| + 1
    ensures after[k][|before[k]|].neighbours == NeighbourList(founds[k], max)
    ensures before[k] != [] && max > 0 ==> after[k][|before[k]|].neighbours != []
  {
    var nbs := NeighbourList(founds[k], max);
    assert LevelBuilt(before, after, n, L, k, nbs, max);
    var grown := before[k] + [FreshEntry(before, n, k, nbs)];
    var gi := |before[k]|;
    assert IdsBelow(nbs, |grown|);
    BackEdgesFrame(grown, gi, nbs, max);
    assert gi !in Ids(nbs);
    assert after[k][gi].neighbours == nbs;
    if before[k] != [] && max > 0 {
      SearchedIdsBelow(before[k], nodes, nodes[n].vec, distance, founds[k], max);
      assert founds[k][0].idx in Ids(Dedup(founds[k]));
    }
  }

  // ---------------------------------------------------------------------
  // Query results
  // ---------------------------------------------------------------------

  /** One query hit: the stored node and its distance to the query. */
  datatype Hit = Hit(node: Node, dist: real)

  /** A query either returns its hits or fails on the level-index underflow
      that occurs when nodes are stored but level 0 is empty. */
  datatype SearchOutcome = Hits(hits: seq<Hit>) | IndexUnderflow

  /** The level-0 search result mapped to stored nodes, same length and order. */
  function HitsOf(closest: seq<Neighbour>, graph: seq<GraphNode>, nodes: seq<Node>): (hits: seq<Hit>)
    requires forall i :: 0 <= i < |closest| ==> closest[i].idx < |graph|
    requires forall j :: 0 <= j < |graph| ==> graph[j].nodeIdx < |nodes|
    ensures |hits| == |closest|
    ensures forall i :: 0 <= i < |hits| ==> hits[i].node in nodes
  {
    seq(|closest|, i requires 0 <= i < |closest| => Hit(nodes[graph[closest[i].idx].nodeIdx], closest[i].dist))
  }

  /** The hits of a level-0 search: one per search-result entry, in
      ascending distance, each carrying its node's true distance to the
      query, and the first hit has the distance of the node where the
      hill-climb stopped. */
  lemma HitsOfSearch(graph: seq<GraphNode>, nodes: seq<Node>, query: Vector, distance: Distance,
                     start: GraphNodeIdx, closest: seq<Neighbour>)
    requires Searchable(graph, |nodes|) && start < |graph|
    requires GreedyResult(graph, Distances(graph, nodes, query, distance), start, closest)
    ensures forall i :: 0 <= i < |closest| ==> closest[i].idx < |graph|
    ensures var hits := HitsOf(closest, graph, nodes);
            && |hits| == |closest| && hits != []
            && (forall i :: 0 <= i < |hits| ==> hits[i].dist == distance(hits[i].node.vec, query))
            && (forall i, j :: 0 <= i < j < |hits| ==> hits[i].dist <= hits[j].dist)
            && hits[0].dist == distance(nodes[graph[Descend(graph, Distances(graph, nodes, query, distance), start)].nodeIdx].vec, query)
  {
    var ds := Distances(graph, nodes, query, distance);
    GreedyResultShape(graph, ds, start, closest);
  }

  // ---------------------------------------------------------------------
  // The query's descent through the levels
  // ---------------------------------------------------------------------

  /** Where the descent starts one level down after the search of `graph`
      ended closest to entry `i`: that entry's child, or the current start
      `s` when it has none. */
  function NextStart(graph: seq<GraphNode>, i: GraphNodeIdx, s: GraphNodeIdx): GraphNodeIdx
    requires i < |graph|
  {
    if graph[i].child.Some? then graph[i].child.value else s
  }

  /** The query's descent, which starts at graph node 0 of the top level,
      reaches level `k` with start `s`: an empty level is passed with the
      same start; a non-empty level above `k` is searched from its start,
      and the next level down starts at NextStart of the first entry of the
      search result. */
  ghost predicate Reaches(layers: seq<seq<GraphNode>>, nodes: seq<Node>, query: Vector, distance: Distance,
                          k: nat, s: GraphNodeIdx)
    requires k < |layers|
    decreases |layers| - k
  {
    if k == |layers| - 1 then s == 0
    else
      var up := k + 1;
      if layers[up] == [] then Reaches(layers, nodes, query, distance, up, s)
      else
        exists above: GraphNodeIdx, r: seq<Neighbour> ::
          && Reaches(layers, nodes, query, distance, up, above)
          && Searchable(layers[up], |nodes|) && above < |layers[up]|
          && GreedyResult(layers[up], Distances(layers[up], nodes, query, distance), above, r)
          && r != [] && r[0].idx < |layers[up]|
          && s == NextStart(layers[up], r[0].idx, above)
  }

  /** Searching a non-empty level above 0 from where the descent reached it
      and moving to NextStart of the first entry found continues the descent. */
  lemma ReachesNext(layers: seq<seq<GraphNode>>, nodes: seq<Node>, query: Vector, distance: Distance,
                    k: nat, s: GraphNodeIdx, r: seq<Neighbour>)
    requires 0 < k < |layers| && Reaches(layers, nodes, query, distance, k, s)
    requires layers[k] != [] && Searchable(layers[k], |nodes|) && s < |layers[k]|
    requires GreedyResult(layers[k], Distances(layers[k], nodes, query, distance), s, r)
    requires r != [] && r[0].idx < |layers[k]|
    ensures Reaches(layers, nodes, query, distance, k - 1, NextStart(layers[k], r[0].idx, s))
  {
  }

  /** In a well-formed index every start the descent reaches is 0 or an
      entry of its level, so every search starts at a valid index. */
  lemma {:induction false} ReachesInRange(layers: seq<seq<GraphNode>>, nodes: seq<Node>, query: Vector,
                                          distance: Distance, max: nat, k: nat, s: GraphNodeIdx)
    requires LayersOk(layers, |nodes|, max) && k < |layers|
    requires Reaches(layers, nodes, query, distance, k, s)
    ensures s == 0 || s < |layers[k]|
    decreases |layers| - k
  {
    if k < |layers| - 1 {
      SizesNonIncreasing(layers, |nodes|, max, k, k + 1);
      if layers[k + 1] == [] {
        ReachesInRange(layers, nodes, query, distance, max, k + 1, s);
      } else {
        var above: GraphNodeIdx, r: seq<Neighbour> :|
          && Reaches(layers, nodes, query, distance, k + 1, above)
          && Searchable(layers[k + 1], |nodes|) && above < |layers[k + 1]|
          && GreedyResult(layers[k + 1], Distances(layers[k + 1], nodes, query, distance), above, r)
          && r != [] && r[0].idx < |layers[k + 1]|
          && s == NextStart(layers[k + 1], r[0].idx, above);
        assert Adjacent(layers, k);
        assert ChildLinked(layers[k], layers[k + 1], r[0].idx);
      }
    }
  }

  /** When every level above `k` is empty the descent reaches level `k`
      with start 0, and with no other start. */
  lemma {:induction false} ReachesOverEmptyLevels(layers: seq<seq<GraphNode>>, nodes: seq<Node>, query: Vector,
                                                  distance: Distance, k: nat, s: GraphNodeIdx)
    requires k < |layers| && forall j :: k < j < |layers| ==> layers[j] == []
    ensures Reaches(layers, nodes, query, distance, k, s) <==> s == 0
    decreases |layers| - k
  {
    if k < |layers| - 1 {
      ReachesOverEmptyLevels(layers, nodes, query, distance, k + 1, s);
    }
  }

  // ---------------------------------------------------------------------
  // The index
  // ---------------------------------------------------------------------

  /** `count` fresh, distinct, empty levels. */
  method EmptyLevels(count: nat, maxNeighbours: nat, distance: Distance) returns (levels: seq<Level>)
    ensures |levels| == count
    ensures forall k :: 0 <= k < count ==> fresh(levels[k]) && levels[k].graph == []
    ensures forall k :: 0 <= k < count ==> levels[k].maxNeighbours == maxNeighbours && levels[k].distance == distance
    ensures forall i, j :: 0 <= i < j < count ==> levels[i] != levels[j]
  {
    levels := [];
    while |levels| < count
      invariant |levels| <= count
      invariant forall k :: 0 <= k < |levels| ==> fresh(levels[k]) && levels[k].graph == []
      invariant forall k :: 0 <= k < |levels| ==> levels[k].maxNeighbours == maxNeighbours && levels[k].distance == distance
      invariant forall i, j :: 0 <= i < j < |levels| ==> levels[i] != levels[j]
    {
      var level := new Level(maxNeighbours, distance);
      levels := levels + [level];
    }
  }

  class Hnsw {
    /** DIM: the number of components of every vector. */
    const dim: nat
    /** LEVEL_COUNT: the number of levels. */
    const levelCount: nat
    /** MAX_NEIGHBOURS: the capacity of every neighbour list. */
    const maxNeighbours: nat
    /** The distance capability (DF). */
    const distance: Distance
    /** The fixed array of levels, level 0 at the bottom. */
    const levels: seq<Level>
    const rng: LcgRng
    /** The probability of each drawn level count. */
    const levelProbabilities: seq<real>
    /** The node store; a node's index is its position. */
    var nodes: seq<Node>

    /** The graphs of all levels, bottom first. */
    ghost function Graphs(): (gs: seq<seq<GraphNode>>)
      reads levels
      ensures |gs| == |levels|
      ensures forall k :: 0 <= k < |levels| ==> gs[k] == levels[k].graph
    {
      seq(|levels|, k reads levels requires 0 <= k < |levels| => levels[k].graph)
    }

    /** The index invariant: the shape matches the constants, the levels are
        distinct objects sharing the index's capacity and distance, every
        node sits at its own index with `dim` components, and the levels
        satisfy LayersOk. */
    ghost predicate Valid()
      reads this, levels
    {
      Shaped() && NodesOk(nodes, dim) && LayersOk(Graphs(), |nodes|, maxNeighbours)
    }

    /** The part of Valid that no operation changes. */
    ghost predicate Shaped()
    {
      && levelCount >= 1 && |levels| == levelCount && |levelProbabilities| == levelCount
      && (forall i, j :: 0 <= i < j < |levels| ==> levels[i] != levels[j])
      && (forall k :: 0 <= k < |levels| ==> levels[k].maxNeighbours == maxNeighbours && levels[k].distance == distance)
    }

    /** An empty index: no nodes, `levelCount` empty levels, the generator
        seeded with `seed`, and the given level probability table. */
    constructor (dim: nat, levelCount: nat, maxNeighbours: nat, distance: Distance, seed: u64,
                 levelProbabilities: seq<real>)
      requires levelCount >= 1 && |levelProbabilities| == levelCount
      ensures Valid() && fresh(rng)
      ensures this.dim == dim && this.levelCount == levelCount && this.maxNeighbours == maxNeighbours
      ensures this.distance == distance && this.levelProbabilities == levelProbabilities
      ensures nodes == [] && rng.seed == seed
      ensures forall k :: 0 <= k < levelCount ==> fresh(levels[k]) && levels[k].graph == []
    {
      var ls := EmptyLevels(levelCount, maxNeighbours, distance);
      this.dim := dim;
      this.levelCount := levelCount;
      this.maxNeighbours := maxNeighbours;
      this.distance := distance;
      this.levels := ls;
      this.rng := new LcgRng(seed);
      this.levelProbabilities := levelProbabilities;
      this.nodes := [];
      new;
      EmptyLayersOk(Graphs(), maxNeighbours);
    }

    /** The default index: seed 42; `levelProbabilities` is the table for
        decay 0.5. */
    constructor Default(dim: nat, levelCount: nat, maxNeighbours: nat, distance: Distance,
                        levelProbabilities: seq<real>)
      requires levelCount >= 1 && |levelProbabilities| == levelCount
      ensures Valid() && fresh(rng)
      ensures this.dim == dim && this.levelCount == levelCount && this.maxNeighbours == maxNeighbours
      ensures this.distance == distance && this.levelProbabilities == levelProbabilities
      ensures nodes == [] && rng.seed == 42
      ensures forall k :: 0 <= k < levelCount ==> fresh(levels[k]) && levels[k].graph == []
    {
      var ls := EmptyLevels(levelCount, maxNeighbours, distance);
      this.dim := dim;
      this.levelCount := levelCount;
      this.maxNeighbours := maxNeighbours;
      this.distance := distance;
      this.levels := ls;
      this.rng := new LcgRng(42);
      this.levelProbabilities := levelProbabilities;
      this.nodes := [];
      new;
      EmptyLayersOk(Graphs(), maxNeighbours);
    }

    /** Draws a level count: one generator step, then the first level whose
        cumulative probability reaches the drawn value (the last level if
        none does). */
    method GenLevel() returns (level: nat)
      requires 1 <= |levelProbabilities| == levelCount
      modifies rng
      ensures rng.seed == Step(old(rng.seed))
      ensures level == LevelFor(UnitValue(rng.seed), levelProbabilities)
      ensures level < levelCount
    {
      var value := rng.NextF64();
      var cumulative := 0.0;
      var i := 0;
      while i < |levelProbabilities|
        invariant i <= |levelProbabilities| && cumulative == PrefixSum(levelProbabilities, i)
        invariant LevelFrom(value, levelProbabilities, i, cumulative) == LevelFor(value, levelProbabilities)
      {
        cumulative := cumulative + levelProbabilities[i];
        if value <= cumulative {
          return i;
        }
        i := i + 1;
      }
      return levelCount - 1;
    }

    /** The body of index_node's loop up to the parent update, at level
        `li`: search the level for the node's vector, build the neighbour
        list, push the new entry (parent none, the given child) and add the
        back-edges. Returns the new entry's index. */
    method AddToLevel(li: nat, nodeIdx: NodeIdx, child: Option<GraphNodeIdx>)
      returns (g: GraphNodeIdx, ghost found: seq<Neighbour>, ghost nbs: seq<Neighbour>)
      requires Shaped() && li < |levels| && nodeIdx < |nodes|
      requires GraphOk(levels[li].graph, |nodes|, maxNeighbours)
      modifies levels[li]
      ensures g == |old(levels[li].graph)|
      ensures old(levels[li].graph) == [] ==> found == []
      ensures old(levels[li].graph) != [] ==>
                GreedyResult(old(levels[li].graph), Distances(old(levels[li].graph), nodes, nodes[nodeIdx].vec, distance), 0, found)
      ensures nbs == NeighbourList(found, maxNeighbours)
      ensures DistinctIds(nbs) && IdsBelow(nbs, g) && |nbs| <= maxNeighbours
      ensures levels[li].graph ==
                BackEdges(old(levels[li].graph) + [GraphNode(nodeIdx, nbs, None, child)], g, nbs, maxNeighbours)
      ensures Graphs() == old(Graphs())[li := levels[li].graph]
    {
      var level := levels[li];
      GraphOkSearchable(level.graph, |nodes|, maxNeighbours);
      var neighbourList := level.NearestNeighbourSearch(nodes[nodeIdx].vec, nodes);
      found := neighbourList;
      if level.graph != [] {
        GreedyResultShape(level.graph, Distances(level.graph, nodes, nodes[nodeIdx].vec, distance), 0, found);
      }
      assert IdsBelow(found, |level.graph|);
      NeighbourListFacts(found, maxNeighbours, |level.graph|);
      neighbourList := Dedup(neighbourList);
      if |neighbourList| > maxNeighbours {
        neighbourList := neighbourList[..maxNeighbours];
      }
      nbs := neighbourList;
      g := |level.graph|;
      level.graph := level.graph + [GraphNode(nodeIdx, neighbourList, None, child)];
      assert IdsBelow(neighbourList, |level.graph|);
      level.MakeEdgesDoubleSided(g, neighbourList);
      forall k | 0 <= k < |levels| ensures Graphs()[k] == old(Graphs())[li := level.graph][k] {
        if k != li {
          assert levels[k] != level;
        }
      }
    }

    /** Sets the parent of entry `c` of level `li` to `p`; nothing else
        changes. */
    method SetParentAt(li: nat, c: GraphNodeIdx, p: GraphNodeIdx)
      requires Shaped() && li < |levels| && c < |levels[li].graph|
      modifies levels[li]
      ensures Graphs() == old(Graphs())[li := SetParent(old(levels[li].graph), c, p)]
    {
      var level := levels[li];
      level.graph := level.graph[c := level.graph[c].(parent := Some(p))];
      forall k | 0 <= k < |levels| ensures Graphs()[k] == old(Graphs())[li := level.graph][k] {
        if k != li {
          assert levels[k] != level;
        }
      }
    }

    /** One iteration of index_node's loop: adds the node's entry to level
        `li` (AddToLevel) and, above level 0, makes it the parent of the entry
        just created one level down. The index stays valid and the node is
        now indexed into levels 0..li. */
    method IndexLevel(li: nat, nodeIdx: NodeIdx, child: Option<GraphNodeIdx>, ghost before: seq<seq<GraphNode>>,
                      ghost founds: seq<seq<Neighbour>>)
      returns (g: GraphNodeIdx, ghost found: seq<Neighbour>)
      requires Valid() && nodeIdx < |nodes|
      requires LayersOk(before, |nodes|, maxNeighbours) && Indexed(before, Graphs(), nodeIdx, li) && li + 1 < |before|
      requires Searched(before, nodeIdx, nodes, distance, founds)
      requires Built(before, Graphs(), nodeIdx, li, maxNeighbours, founds)
      requires child == (if li == 0 then None else Some(|before[li - 1]|))
      modifies levels
      ensures Valid()
      ensures Indexed(before, Graphs(), nodeIdx, li + 1)
      ensures Searched(before, nodeIdx, nodes, distance, founds + [found])
      ensures Built(before, Graphs(), nodeIdx, li + 1, maxNeighbours, founds + [found])
      ensures g == |before[li]|
    {
      ghost var layers := Graphs();
      assert GraphOk(layers[li], |nodes|, maxNeighbours);
      ghost var nbs;
      g, found, nbs := AddToLevel(li, nodeIdx, child);
      ghost var grown := StepGraph(before, layers, nodeIdx, li, nbs, maxNeighbours);
      assert StepReady(before, layers, nodeIdx, li, nbs, |nodes|, maxNeighbours) by {
        assert layers[li] == before[li];
      }
      assert SearchedFromZero(before[li], nodes, nodes[nodeIdx].vec, distance, found) by {
        GraphOkSearchable(layers[li], |nodes|, maxNeighbours);
        assert layers[li] == before[li];
      }
      IndexStep(before, layers, nodeIdx, li, found, founds, nodes, distance, maxNeighbours);
      assert FreshEntry(before, nodeIdx, li, nbs) == GraphNode(nodeIdx, nbs, None, child);
      ghost var added := Graphs();
      assert added == layers[li := grown];
      if child.Some? {
        SetParentAt(li - 1, child.value, g);
        assert Graphs() == added[li - 1 := SetParent(added[li - 1], child.value, g)];
      }
      assert Graphs() == NextLayers(layers, li, grown, ChildSlot(before, li));
    }

    /** index_node's loop: indexes stored node `nodeIdx` into levels
        0..drawn-1, each new entry the parent of the one created just below. */
    method IndexLevels(nodeIdx: NodeIdx, drawn: nat) returns (ghost founds: seq<seq<Neighbour>>)
      requires Valid() && nodeIdx < |nodes| && drawn < levelCount
      modifies levels
      ensures Valid()
      ensures Indexed(old(Graphs()), Graphs(), nodeIdx, drawn)
      ensures Searched(old(Graphs()), nodeIdx, nodes, distance, founds)
      ensures Built(old(Graphs()), Graphs(), nodeIdx, drawn, maxNeighbours, founds)
    {
      ghost var before := Graphs();
      founds := [];
      var child: Option<GraphNodeIdx> := None;
      for li := 0 to drawn
        invariant Valid()
        invariant Indexed(before, Graphs(), nodeIdx, li)
        invariant Searched(before, nodeIdx, nodes, distance, founds)
        invariant Built(before, Graphs(), nodeIdx, li, maxNeighbours, founds)
        invariant child == (if li == 0 then None else Some(|before[li - 1]|))
      {
        var g;
        ghost var found;
        g, found := IndexLevel(li, nodeIdx, child, before, founds);
        founds := founds + [found];
        child := Some(g);
      }
    }

    /** Indexes stored node `nodeIdx`: draws a level count L, then adds one
        entry for the node to each of levels 0..L-1, linked vertically to the
        entries just created below and above. */
    method IndexNode(nodeIdx: NodeIdx) returns (ghost founds: seq<seq<Neighbour>>)
      requires Valid() && nodeIdx < |nodes|
      modifies rng, levels
      ensures Valid() && nodes == old(nodes)
      ensures rng.seed == Step(old(rng.seed))
      ensures Indexed(old(Graphs()), Graphs(), nodeIdx, LevelFor(UnitValue(rng.seed), levelProbabilities))
      ensures Searched(old(Graphs()), nodeIdx, nodes, distance, founds)
      ensures Built(old(Graphs()), Graphs(), nodeIdx, LevelFor(UnitValue(rng.seed), levelProbabilities), maxNeighbours, founds)
    {
      ghost var before := Graphs();
      var drawn := GenLevel();
      assert Graphs() == before;
      founds := IndexLevels(nodeIdx, drawn);
    }

    /** Appends a node holding `vec` at the end of the store, its `idx` being
        its position, then indexes it. */
    method Insert(vec: Vector) returns (ghost founds: seq<seq<Neighbour>>)
      requires Valid() && |vec| == dim
      modifies this, rng, levels
      ensures Valid()
      ensures nodes == old(nodes) + [Node(|old(nodes)|, vec)]
      ensures rng.seed == Step(old(rng.seed))
      ensures Indexed(old(Graphs()), Graphs(), |old(nodes)|, LevelFor(UnitValue(rng.seed), levelProbabilities))
      ensures Searched(old(Graphs()), |old(nodes)|, nodes, distance, founds)
      ensures Built(old(Graphs()), Graphs(), |old(nodes)|, LevelFor(UnitValue(rng.seed), levelProbabilities), maxNeighbours, founds)
    {
      var node := Node(|nodes|, vec);
      LayersOkGrow(Graphs(), |nodes|, |nodes| + 1, maxNeighbours);
      NodesOkPush(nodes, dim, vec);
      nodes := nodes + [node];
      founds := IndexNode(node.idx);
    }

    /** The query: an empty store gives no hits; otherwise descend from the
        top level, skipping empty levels, searching each non-empty level from
        the child of the closest result above (or from the previous start
        when that entry has no child), and map the level-0 result to stored
        nodes. With nodes stored but level 0 empty, the level index runs
        below 0. */
    method NearestNeighbourSearch(query: Vector) returns (r: SearchOutcome, ghost start: GraphNodeIdx, ghost closest: seq<Neighbour>)
      requires Valid()
      ensures nodes == [] ==> r == Hits([])
      ensures r.IndexUnderflow? <==> nodes != [] && levels[0].graph == []
      ensures r.Hits? && nodes != [] ==>
                && start < |levels[0].graph|
                && GreedyResult(levels[0].graph, Distances(levels[0].graph, nodes, query, distance), start, closest)
                && (forall i :: 0 <= i < |closest| ==> closest[i].idx < |levels[0].graph|)
                && r.hits == HitsOf(closest, levels[0].graph, nodes)
      ensures r.Hits? && nodes != [] ==> Reaches(Graphs(), nodes, query, distance, 0, start)
    {
      if nodes == [] {
        return Hits([]), 0, [];
      }
      ghost var layers := Graphs();
      var startIdx: GraphNodeIdx := 0;
      var levelIdx: nat := |levels| - 1;
      while true
        invariant levelIdx < |levels|
        invariant Reaches(layers, nodes, query, distance, levelIdx, startIdx)
        decreases levelIdx
      {
        var level := levels[levelIdx];
        assert level.graph == layers[levelIdx];
        if level.graph == [] {
          if levelIdx == 0 {
            return IndexUnderflow, 0, [];
          }
          levelIdx := levelIdx - 1;
          continue;
        }
        ReachesInRange(layers, nodes, query, distance, maxNeighbours, levelIdx, startIdx);
        assert GraphOk(level.graph, |nodes|, maxNeighbours);
        GraphOkSearchable(level.graph, |nodes|, maxNeighbours);
        var closestNeighbours := level.NearestNeighbourSearchStartingFrom(query, nodes, startIdx);
        GreedyResultShape(level.graph, Distances(level.graph, nodes, query, distance), startIdx, closestNeighbours);
        if levelIdx == 0 {
          return Hits(HitsOf(closestNeighbours, level.graph, nodes)), startIdx, closestNeighbours;
        }
        var closestGraphNode := level.graph[closestNeighbours[0].idx];
        ReachesNext(layers, nodes, query, distance, levelIdx, startIdx, closestNeighbours);
        if closestGraphNode.child.Some? {
          startIdx := closestGraphNode.child.value;
        }
        levelIdx := levelIdx - 1;
      }
    }
  }
}
