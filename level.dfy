/** One layer of the proximity graph: a growable array of graph nodes, the
    greedy first-improvement local search, and neighbour-list maintenance. */
module Levels {
  import opened Nodes

  // ---------------------------------------------------------------------
  // Neighbour lists and the insert_neighbour scan
  // ---------------------------------------------------------------------

  predicate SortedByDist(s: seq<Neighbour>) {
    forall i, j :: 0 <= i < j < |s| ==> s[i].dist <= s[j].dist
  }

  /** The scan test of insert_neighbour at position `i`: the entry before `i`
      is strictly closer than `d` and the entry at `i` strictly farther. */
  predicate Brackets(ns: seq<Neighbour>, i: nat, d: real) {
    1 <= i < |ns| && ns[i - 1].dist < d < ns[i].dist
  }

  /** The scan of insert_neighbour from position `i` on. */
  function InsertIdxFrom(ns: seq<Neighbour>, d: real, i: nat): (p: nat)
    requires i >= 1
    ensures p <= |ns|
    ensures p == |ns| || (i <= p && Brackets(ns, p, d))
    ensures forall k :: i <= k < p ==> !Brackets(ns, k, d)
    decreases |ns| - i
  {
    if i >= |ns| then |ns|
    else if ns[i - 1].dist < d < ns[i].dist then i
    else InsertIdxFrom(ns, d, i + 1)
  }

  /** Where insert_neighbour puts a candidate at distance `d`: the first
      `i >= 1` that brackets `d`, otherwise the end of the list. */
  function InsertIdx(ns: seq<Neighbour>, d: real): (p: nat)
    ensures p <= |ns|
    ensures p == |ns| || Brackets(ns, p, d)
    ensures forall k :: 1 <= k < p ==> !Brackets(ns, k, d)
  {
    InsertIdxFrom(ns, d, 1)
  }

  /** The list insert_neighbour writes back: the candidate inserted at
      InsertIdx, then the list truncated to `max` entries. */
  function InsertInto(ns: seq<Neighbour>, nb: Neighbour, max: nat): (r: seq<Neighbour>)
    ensures |r| <= max
    ensures forall j :: 0 <= j < |r| ==> r[j] == nb || r[j] in ns
  {
    var p := InsertIdx(ns, nb.dist);
    var grown := ns[..p] + [nb] + ns[p..];
    grown[..Min(|grown|, max)]
  }

  /** The new length is min(old length + 1, max). */
  lemma InsertIntoLength(ns: seq<Neighbour>, nb: Neighbour, max: nat)
    ensures |InsertInto(ns, nb, max)| == Min(|ns| + 1, max)
  {
  }

  /** Entries before the insertion point are unchanged, the candidate sits at
      the insertion point (unless truncated away), later entries shift by one. */
  lemma InsertIntoShape(ns: seq<Neighbour>, nb: Neighbour, max: nat)
    ensures var p := InsertIdx(ns, nb.dist);
            var r := InsertInto(ns, nb, max);
            && (forall j :: 0 <= j < p && j < |r| ==> r[j] == ns[j])
            && (p < max ==> r[p] == nb)
            && (forall j :: p < j < |r| ==> r[j] == ns[j - 1])
  {
  }

  /** A full list without a bracketing pair is left exactly as it was. */
  lemma FullWithoutBracketUnchanged(ns: seq<Neighbour>, nb: Neighbour, max: nat)
    requires |ns| == max && InsertIdx(ns, nb.dist) == |ns|
    ensures InsertInto(ns, nb, max) == ns
  {
    var grown := ns + [nb];
    assert ns[..|ns|] + [nb] + ns[|ns|..] == grown;
    assert grown[..max] == ns;
  }

  /** When a bracketing pair exists, a sorted list stays sorted. */
  lemma BracketKeepsSorted(ns: seq<Neighbour>, nb: Neighbour, max: nat)
    requires SortedByDist(ns) && InsertIdx(ns, nb.dist) < |ns|
    ensures SortedByDist(InsertInto(ns, nb, max))
  {
    var p := InsertIdx(ns, nb.dist);
    var grown := ns[..p] + [nb] + ns[p..];
    assert SortedByDist(grown) by {
      forall i, j | 0 <= i < j < |grown|
        ensures grown[i].dist <= grown[j].dist
      {
        if j < p {
          assert grown[i] == ns[i] && grown[j] == ns[j];
        } else if j == p {
          assert grown[j] == nb && grown[i] == ns[i];
          assert ns[i].dist <= ns[p - 1].dist;
        } else if i == p {
          assert grown[i] == nb && grown[j] == ns[j - 1];
          assert ns[p].dist <= ns[j - 1].dist;
        } else if i < p {
          assert grown[i] == ns[i] && grown[j] == ns[j - 1];
        } else {
          assert grown[i] == ns[i - 1] && grown[j] == ns[j - 1];
        }
      }
    }
  }

  /** A candidate no farther than the first entry of a sorted list finds no
      bracketing pair, so it is appended at the end. */
  lemma CloserThanFirstIsAppended(ns: seq<Neighbour>, d: real)
    requires SortedByDist(ns) && ns != [] && d <= ns[0].dist
    ensures InsertIdx(ns, d) == |ns|
  {
    forall i | 1 <= i < |ns| ensures !Brackets(ns, i, d) {
      assert ns[0].dist <= ns[i - 1].dist;
    }
  }

  /** A candidate tied with some entry of a sorted list is appended too. */
  lemma TieIsAppended(ns: seq<Neighbour>, d: real, k: nat)
    requires SortedByDist(ns) && k < |ns| && ns[k].dist == d
    ensures InsertIdx(ns, d) == |ns|
  {
    forall i | 1 <= i < |ns| ensures !Brackets(ns, i, d) {
      if i <= k {
        assert ns[i].dist <= ns[k].dist;
      } else {
        assert ns[k].dist <= ns[i - 1].dist;
      }
    }
  }

  /** An appended candidate closer than some entry breaks sortedness when the
      list had room for it: insert_neighbour does not keep lists sorted. */
  lemma AppendedBreaksOrder(ns: seq<Neighbour>, nb: Neighbour, max: nat, k: nat)
    requires |ns| < max && InsertIdx(ns, nb.dist) == |ns|
    requires k < |ns| && nb.dist < ns[k].dist
    ensures !SortedByDist(InsertInto(ns, nb, max))
  {
    var r := InsertInto(ns, nb, max);
    assert ns[..|ns|] + [nb] + ns[|ns|..] == ns + [nb];
    assert r == ns + [nb];
    assert r[k] == ns[k] && r[|ns|] == nb;
  }

  /** Inserting a candidate whose id is not listed yet keeps the ids of the
      list distinct. */
  lemma InsertIntoDistinct(ns: seq<Neighbour>, nb: Neighbour, max: nat)
    requires DistinctIds(ns) && nb.idx !in Ids(ns)
    ensures DistinctIds(InsertInto(ns, nb, max))
  {
    var p := InsertIdx(ns, nb.dist);
    var grown := ns[..p] + [nb] + ns[p..];
    forall i, j | 0 <= i < j < |grown| ensures grown[i].idx != grown[j].idx {
      if j < p {
        assert grown[i] == ns[i] && grown[j] == ns[j];
      } else if j == p {
        assert grown[i] == ns[i] && grown[j] == nb;
        assert ns[i].idx in Ids(ns);
      } else if i == p {
        assert grown[i] == nb && grown[j] == ns[j - 1];
        assert ns[j - 1].idx in Ids(ns);
      } else if i < p {
        assert grown[i] == ns[i] && grown[j] == ns[j - 1];
      } else {
        assert grown[i] == ns[i - 1] && grown[j] == ns[j - 1];
      }
    }
  }

  /** A bracketed insertion into a full list of distinct ids evicts the last
      entry: its id is no longer listed. */
  lemma FullBracketEvictsLast(ns: seq<Neighbour>, nb: Neighbour, max: nat)
    requires |ns| == max && InsertIdx(ns, nb.dist) < |ns|
    requires DistinctIds(ns) && nb.idx !in Ids(ns)
    ensures ns[|ns| - 1].idx !in Ids(InsertInto(ns, nb, max))
  {
    var p := InsertIdx(ns, nb.dist);
    var r := InsertInto(ns, nb, max);
    InsertIntoShape(ns, nb, max);
    forall i | 0 <= i < |r| ensures r[i].idx != ns[|ns| - 1].idx {
      if i == p {
        assert ns[|ns| - 1].idx in Ids(ns);
      }
    }
  }

  // ---------------------------------------------------------------------
  // Graphs
  // ---------------------------------------------------------------------

  /** Every graph node refers to a stored node, holds at most `max`
      neighbours, no neighbour twice, and every neighbour index is a graph
      index. */
  predicate GraphNodeOk(gn: GraphNode, nodeCount: nat, size: nat, max: nat) {
    && gn.nodeIdx < nodeCount && |gn.neighbours| <= max
    && DistinctIds(gn.neighbours) && IdsBelow(gn.neighbours, size)
  }

  predicate GraphOk(graph: seq<GraphNode>, nodeCount: nat, max: nat) {
    forall j :: 0 <= j < |graph| ==> GraphNodeOk(graph[j], nodeCount, |graph|, max)
  }

  /** Every neighbour index is a graph index. */
  predicate EdgesIn(graph: seq<GraphNode>) {
    forall j :: 0 <= j < |graph| ==> IdsBelow(graph[j].neighbours, |graph|)
  }

  /** What the local search needs: node-store and graph indices are valid. */
  predicate Searchable(graph: seq<GraphNode>, nodeCount: nat) {
    EdgesIn(graph) && forall j :: 0 <= j < |graph| ==> graph[j].nodeIdx < nodeCount
  }

  lemma GraphOkSearchable(graph: seq<GraphNode>, nodeCount: nat, max: nat)
    requires GraphOk(graph, nodeCount, max)
    ensures Searchable(graph, nodeCount)
  {
    forall j | 0 <= j < |graph|
      ensures graph[j].nodeIdx < nodeCount && IdsBelow(graph[j].neighbours, |graph|)
    {
      assert GraphNodeOk(graph[j], nodeCount, |graph|, max);
    }
  }

  /** The graph after insert_neighbour(target, nb). */
  function InsertNeighbourAt(graph: seq<GraphNode>, target: GraphNodeIdx, nb: Neighbour, max: nat): (r: seq<GraphNode>)
    requires target < |graph|
    ensures |r| == |graph| && SameLinks(r[target], graph[target])
    ensures r[target].neighbours == InsertInto(graph[target].neighbours, nb, max)
    ensures forall j :: 0 <= j < |graph| && j != target ==> r[j] == graph[j]
  {
    graph[target := graph[target].(neighbours := InsertInto(graph[target].neighbours, nb, max))]
  }

  /** The graph after make_edges_double_sided(g, nbs): insert_neighbour of
      (g, dist) into every listed node, folded in list order. */
  function BackEdges(graph: seq<GraphNode>, g: GraphNodeIdx, nbs: seq<Neighbour>, max: nat): (r: seq<GraphNode>)
    requires IdsBelow(nbs, |graph|)
    ensures |r| == |graph|
    decreases |nbs|
  {
    if nbs == [] then graph
    else
      var next := InsertNeighbourAt(graph, nbs[0].idx, Neighbour(g, nbs[0].dist), max);
      assert IdsBelow(nbs[1..], |next|) by {
        forall i | 0 <= i < |nbs[1..]| ensures nbs[1..][i].idx < |next| {
          assert nbs[1..][i] == nbs[i + 1];
        }
      }
      BackEdges(next, g, nbs[1..], max)
  }

  lemma IdsCons(nbs: seq<Neighbour>)
    requires nbs != []
    ensures Ids(nbs) == {nbs[0].idx} + Ids(nbs[1..])
  {
    forall j | j in Ids(nbs[1..]) ensures j in Ids(nbs) {
      var i :| 0 <= i < |nbs[1..]| && nbs[1..][i].idx == j;
      assert nbs[i + 1].idx == j;
    }
    forall j | j in Ids(nbs) ensures j in {nbs[0].idx} + Ids(nbs[1..]) {
      var i :| 0 <= i < |nbs| && nbs[i].idx == j;
      if i > 0 {
        assert nbs[1..][i - 1].idx == j;
      }
    }
  }

  /** make_edges_double_sided keeps the graph's length, changes no node's
      node index, parent or child, and leaves nodes that are not listed
      untouched. */
  lemma {:induction false} BackEdgesFrame(graph: seq<GraphNode>, g: GraphNodeIdx, nbs: seq<Neighbour>, max: nat)
    requires IdsBelow(nbs, |graph|)
    ensures |BackEdges(graph, g, nbs, max)| == |graph|
    ensures forall j :: 0 <= j < |graph| ==> SameLinks(BackEdges(graph, g, nbs, max)[j], graph[j])
    ensures forall j :: 0 <= j < |graph| && j !in Ids(nbs) ==> BackEdges(graph, g, nbs, max)[j] == graph[j]
    decreases |nbs|
  {
    if nbs != [] {
      var next := InsertNeighbourAt(graph, nbs[0].idx, Neighbour(g, nbs[0].dist), max);
      assert IdsBelow(nbs[1..], |next|) by {
        forall i | 0 <= i < |nbs[1..]| ensures nbs[1..][i].idx < |next| {
          assert nbs[1..][i] == nbs[i + 1];
        }
      }
      BackEdgesFrame(next, g, nbs[1..], max);
      IdsCons(nbs);
    }
  }

  /** make_edges_double_sided keeps every list within `max` entries, free of
      repeated ids and with valid neighbour indices, provided the new node's
      index is valid, the targets are distinct and none of them lists it yet. */
  lemma {:induction false} BackEdgesGraphOk(graph: seq<GraphNode>, g: GraphNodeIdx, nbs: seq<Neighbour>, nodeCount: nat, max: nat)
    requires IdsBelow(nbs, |graph|) && GraphOk(graph, nodeCount, max) && g < |graph|
    requires DistinctIds(nbs)
    requires forall i :: 0 <= i < |nbs| ==> g !in Ids(graph[nbs[i].idx].neighbours)
    ensures GraphOk(BackEdges(graph, g, nbs, max), nodeCount, max)
    decreases |nbs|
  {
    if nbs != [] {
      var t := nbs[0].idx;
      var nb := Neighbour(g, nbs[0].dist);
      var next := InsertNeighbourAt(graph, t, nb, max);
      assert GraphNodeOk(graph[t], nodeCount, |graph|, max);
      var ns := graph[t].neighbours;
      var r := InsertInto(ns, nb, max);
      InsertIntoLength(ns, nb, max);
      InsertIntoShape(ns, nb, max);
      InsertIntoDistinct(ns, nb, max);
      assert IdsBelow(r, |graph|) by {
        var p := InsertIdx(ns, nb.dist);
        forall i | 0 <= i < |r| ensures r[i].idx < |graph| {
          if i < p {
            assert r[i] == ns[i];
          } else if i == p {
            assert r[i] == nb;
          } else {
            assert r[i] == ns[i - 1];
          }
        }
      }
      assert GraphOk(next, nodeCount, max) by {
        forall j | 0 <= j < |next| ensures GraphNodeOk(next[j], nodeCount, |next|, max) {
          if j != t {
            assert next[j] == graph[j];
            assert GraphNodeOk(graph[j], nodeCount, |graph|, max);
          }
        }
      }
      var rest := nbs[1..];
      forall i | 0 <= i < |rest| ensures rest[i].idx < |next| && rest[i].idx != t {
        assert rest[i] == nbs[i + 1];
      }
      assert DistinctIds(rest) by {
        forall i, j | 0 <= i < j < |rest| ensures rest[i].idx != rest[j].idx {
          assert rest[i] == nbs[i + 1] && rest[j] == nbs[j + 1];
        }
      }
      forall i | 0 <= i < |rest| ensures g !in Ids(next[rest[i].idx].neighbours) {
        assert rest[i] == nbs[i + 1];
      }
      BackEdgesGraphOk(next, g, rest, nodeCount, max);
    }
  }

  /** A back-edge offered to a full list that has no bracketing pair for its
      distance is dropped: that target keeps its list as it was, although the
      new node lists the target. Edges are not kept symmetric. */
  lemma {:induction false} BackEdgeDropped(graph: seq<GraphNode>, g: GraphNodeIdx, nbs: seq<Neighbour>, max: nat, i: nat)
    requires IdsBelow(nbs, |graph|) && DistinctIds(nbs) && i < |nbs|
    requires |graph[nbs[i].idx].neighbours| == max
    requires InsertIdx(graph[nbs[i].idx].neighbours, nbs[i].dist) == max
    ensures BackEdges(graph, g, nbs, max)[nbs[i].idx] == graph[nbs[i].idx]
    decreases |nbs|
  {
    var t := nbs[0].idx;
    var next := InsertNeighbourAt(graph, t, Neighbour(g, nbs[0].dist), max);
    var rest := nbs[1..];
    forall m | 0 <= m < |rest| ensures rest[m].idx < |next| {
      assert rest[m] == nbs[m + 1];
    }
    assert DistinctIds(rest) by {
      forall a, b | 0 <= a < b < |rest| ensures rest[a].idx != rest[b].idx {
        assert rest[a] == nbs[a + 1] && rest[b] == nbs[b + 1];
      }
    }
    if i == 0 {
      FullWithoutBracketUnchanged(graph[t].neighbours, Neighbour(g, nbs[0].dist), max);
      assert next[t] == graph[t];
      BackEdgesFrame(next, g, rest, max);
      IdsCons(nbs);
      forall m | 0 <= m < |rest| ensures rest[m].idx != t {
        assert rest[m] == nbs[m + 1];
      }
    } else {
      assert rest[i - 1] == nbs[i];
      BackEdgeDropped(next, g, rest, max, i - 1);
    }
  }

  /** In particular, a target whose full, sorted list starts no nearer than
      the new node does not gain the back-edge. */
  lemma CloserThanHeadDropped(graph: seq<GraphNode>, g: GraphNodeIdx, nbs: seq<Neighbour>, max: nat, i: nat)
    requires IdsBelow(nbs, |graph|) && DistinctIds(nbs) && i < |nbs|
    requires var ns := graph[nbs[i].idx].neighbours;
             |ns| == max && ns != [] && SortedByDist(ns) && nbs[i].dist <= ns[0].dist
    ensures BackEdges(graph, g, nbs, max)[nbs[i].idx] == graph[nbs[i].idx]
  {
    CloserThanFirstIsAppended(graph[nbs[i].idx].neighbours, nbs[i].dist);
    BackEdgeDropped(graph, g, nbs, max, i);
  }

  /** A concrete instance with max = 1: the new graph node 2 lists node 0,
      but node 0 still lists only node 1. */
  lemma EdgesNotSymmetric()
    ensures var graph := [GraphNode(0, [Neighbour(1, 1.0)], None, None),
                          GraphNode(1, [Neighbour(0, 1.0)], None, None),
                          GraphNode(2, [Neighbour(0, 2.0)], None, None)];
            var r := BackEdges(graph, 2, [Neighbour(0, 2.0)], 1);
            && 0 in Ids(r[2].neighbours) && 2 !in Ids(r[0].neighbours)
  {
    var graph := [GraphNode(0, [Neighbour(1, 1.0)], None, None),
                  GraphNode(1, [Neighbour(0, 1.0)], None, None),
                  GraphNode(2, [Neighbour(0, 2.0)], None, None)];
    var nbs := [Neighbour(0, 2.0)];
    assert InsertIdx(graph[0].neighbours, 2.0) == 1;
    BackEdgeDropped(graph, 2, nbs, 1, 0);
    var r := BackEdges(graph, 2, nbs, 1);
    BackEdgesFrame(graph, 2, nbs, 1);
    assert r[2].neighbours[0].idx == 0;
    assert r[0].neighbours == [Neighbour(1, 1.0)];
  }

  // ---------------------------------------------------------------------
  // Greedy local search
  // ---------------------------------------------------------------------

  /** The distance from every graph node's vector to the query. The ensures
      only repeat the comprehension per element, as a trigger for callers'
      quantifiers. */
  function Distances(graph: seq<GraphNode>, nodes: seq<Node>, query: Vector, distance: Distance): (ds: seq<real>)
    requires Searchable(graph, |nodes|)
    ensures |ds| == |graph|
    ensures forall j :: 0 <= j < |graph| ==> ds[j] == distance(nodes[graph[j].nodeIdx].vec, query)
  {
    seq(|graph|, j requires 0 <= j < |graph| => distance(nodes[graph[j].nodeIdx].vec, query))
  }

  /** The position in `adj` of the first neighbour strictly closer than `d`. */
  function FirstCloser(adj: seq<Neighbour>, ds: seq<real>, d: real): (r: Option<nat>)
    requires IdsBelow(adj, |ds|)
    ensures r.Some? ==> r.value < |adj| && ds[adj[r.value].idx] < d
    ensures forall k :: 0 <= k < |adj| && (r.None? || k < r.value) ==> d <= ds[adj[k].idx]
  {
    if adj == [] then None
    else if ds[adj[0].idx] < d then Some(0)
    else
      assert IdsBelow(adj[1..], |ds|) by {
        forall i | 0 <= i < |adj[1..]| ensures adj[1..][i].idx < |ds| {
          assert adj[1..][i] == adj[i + 1];
        }
      }
      match FirstCloser(adj[1..], ds, d)
      case None =>
        assert forall k :: 1 <= k < |adj| ==> adj[k] == adj[1..][k - 1];
        None
      case Some(k) =>
        assert forall j :: 1 <= j < |adj| ==> adj[j] == adj[1..][j - 1];
        Some(k + 1)
  }

  /** How many graph nodes are strictly closer than `d`: the measure that
      every move of the hill-climb decreases. */
  function CloserCount(ds: seq<real>, d: real): nat {
    |set j | 0 <= j < |ds| && ds[j] < d|
  }

  lemma CloserCountDrops(ds: seq<real>, n: nat, d: real)
    requires n < |ds| && ds[n] < d
    ensures CloserCount(ds, ds[n]) < CloserCount(ds, d)
  {
    var below := set j | 0 <= j < |ds| && ds[j] < ds[n];
    var all := set j | 0 <= j < |ds| && ds[j] < d;
    assert below <= all;
    assert n in all && n !in below;
    var rest := all - below;
    assert n in rest;
    assert all == below + rest && below * rest == {};
    assert |all| == |below| + |rest|;
  }

  /** The node where the first-improvement hill-climb from `start` stops. It
      is a valid index, no farther than the start, and a local minimum: none
      of its neighbours is strictly closer. */
  function Descend(graph: seq<GraphNode>, ds: seq<real>, start: GraphNodeIdx): (f: GraphNodeIdx)
    requires EdgesIn(graph) && |ds| == |graph| && start < |graph|
    ensures f < |graph| && ds[f] <= ds[start]
    ensures forall k :: 0 <= k < |graph[f].neighbours| ==> ds[f] <= ds[graph[f].neighbours[k].idx]
    decreases CloserCount(ds, ds[start])
  {
    match FirstCloser(graph[start].neighbours, ds, ds[start])
    case None => start
    case Some(k) =>
      var next := graph[start].neighbours[k].idx;
      CloserCountDrops(ds, next, ds[start]);
      Descend(graph, ds, next)
  }

  /** The neighbours of a node, each with its distance to the query. */
  function Rescored(adj: seq<Neighbour>, ds: seq<real>): seq<Neighbour>
    requires IdsBelow(adj, |ds|)
  {
    seq(|adj|, k requires 0 <= k < |adj| => Neighbour(adj[k].idx, ds[adj[k].idx]))
  }

  /** What the search collects at its final node: the node itself, then all
      its neighbours, each with its distance to the query. */
  function Visited(graph: seq<GraphNode>, ds: seq<real>, f: GraphNodeIdx): seq<Neighbour>
    requires EdgesIn(graph) && |ds| == |graph| && f < |graph|
  {
    [Neighbour(f, ds[f])] + Rescored(graph[f].neighbours, ds)
  }

  /** The `k`-th neighbour of `from`, graph node `next`, is the first one
      strictly closer to the query than `from`. */
  predicate ScanMovedAt(graph: seq<GraphNode>, ds: seq<real>, from: GraphNodeIdx, k: nat, next: GraphNodeIdx)
    requires EdgesIn(graph) && |ds| == |graph| && from < |graph|
  {
    k < |graph[from].neighbours| && next == graph[from].neighbours[k].idx && ds[next] < ds[from]
    && forall j :: 0 <= j < k ==> ds[from] <= ds[graph[from].neighbours[j].idx]
  }

  /** No neighbour of `from` is strictly closer to the query than `from`. */
  predicate ScanStopped(graph: seq<GraphNode>, ds: seq<real>, from: GraphNodeIdx)
    requires EdgesIn(graph) && |ds| == |graph| && from < |graph|
  {
    forall j :: 0 <= j < |graph[from].neighbours| ==> ds[from] <= ds[graph[from].neighbours[j].idx]
  }

  /** A move of the hill-climb: when the `k`-th neighbour is the first one
      strictly closer, the climb continues from it and the measure drops. */
  lemma DescendMoves(graph: seq<GraphNode>, ds: seq<real>, from: GraphNodeIdx, k: nat, next: GraphNodeIdx)
    requires EdgesIn(graph) && |ds| == |graph| && from < |graph|
    requires ScanMovedAt(graph, ds, from, k, next)
    ensures next < |graph|
    ensures Descend(graph, ds, next) == Descend(graph, ds, from)
    ensures CloserCount(ds, ds[next]) < CloserCount(ds, ds[from])
  {
    assert FirstCloser(graph[from].neighbours, ds, ds[from]) == Some(k);
    CloserCountDrops(ds, next, ds[from]);
  }

  /** The end of the hill-climb: no neighbour is strictly closer, so the climb
      stops here and collects exactly Visited. */
  lemma DescendStops(graph: seq<GraphNode>, ds: seq<real>, from: GraphNodeIdx, found: seq<Neighbour>)
    requires EdgesIn(graph) && |ds| == |graph| && from < |graph|
    requires ScanStopped(graph, ds, from)
    requires |found| == |graph[from].neighbours| + 1 && found[0] == Neighbour(from, ds[from])
    requires forall j :: 0 <= j < |graph[from].neighbours| ==>
      found[j + 1] == Neighbour(graph[from].neighbours[j].idx, ds[graph[from].neighbours[j].idx])
    ensures Descend(graph, ds, from) == from
    ensures found == Visited(graph, ds, from)
  {
    assert FirstCloser(graph[from].neighbours, ds, ds[from]) == None;
    var v := Visited(graph, ds, from);
    assert |found| == |v|;
    forall i | 0 <= i < |found| ensures found[i] == v[i] {
      if i > 0 {
        assert found[(i - 1) + 1] == v[i];
      }
    }
  }

  /** Sorting what a stopped scan collected gives a search result. */
  lemma StopIsResult(graph: seq<GraphNode>, ds: seq<real>, start: GraphNodeIdx, from: GraphNodeIdx,
                     found: seq<Neighbour>, r: seq<Neighbour>)
    requires EdgesIn(graph) && |ds| == |graph| && start < |graph| && from < |graph|
    requires Descend(graph, ds, from) == Descend(graph, ds, start)
    requires ScanStopped(graph, ds, from) && found == Visited(graph, ds, from)
    requires SortedByDist(r) && multiset(r) == multiset(found)
    ensures GreedyResult(graph, ds, start, r)
  {
    assert FirstCloser(graph[from].neighbours, ds, ds[from]) == None;
  }

  /** `r` is a possible result of the local search from `start`: some
      ordering, ascending by distance, of what is collected at the node where
      the hill-climb stops (the sort is unstable, so ties may come in any
      order). */
  ghost predicate GreedyResult(graph: seq<GraphNode>, ds: seq<real>, start: GraphNodeIdx, r: seq<Neighbour>)
    requires EdgesIn(graph) && |ds| == |graph| && start < |graph|
  {
    SortedByDist(r) && multiset(r) == multiset(Visited(graph, ds, Descend(graph, ds, start)))
  }

  /** A search result is non-empty, holds the final node and all its
      neighbours (1 + its degree entries), every entry carries its true
      distance, and the first distance is the final node's, which is no
      farther than the start. */
  lemma GreedyResultShape(graph: seq<GraphNode>, ds: seq<real>, start: GraphNodeIdx, r: seq<Neighbour>)
    requires EdgesIn(graph) && |ds| == |graph| && start < |graph|
    requires GreedyResult(graph, ds, start, r)
    ensures var f := Descend(graph, ds, start);
            && |r| == 1 + |graph[f].neighbours|
            && Neighbour(f, ds[f]) in r
            && r[0].dist == ds[f] <= ds[start]
            && forall i :: 0 <= i < |r| ==> r[i].idx < |graph| && r[i].dist == ds[r[i].idx]
  {
    var f := Descend(graph, ds, start);
    var v := Visited(graph, ds, f);
    var adj := graph[f].neighbours;
    assert |r| == |multiset(r)| == |multiset(v)| == |v|;
    assert v[0] in multiset(r);
    forall i | 0 <= i < |r|
      ensures r[i].idx < |graph| && r[i].dist == ds[r[i].idx] && ds[f] <= r[i].dist
    {
      assert r[i] in multiset(v);
      var m :| 0 <= m < |v| && v[m] == r[i];
      if m > 0 {
        assert v[m] == Neighbour(adj[m - 1].idx, ds[adj[m - 1].idx]);
      }
    }
    var m :| 0 <= m < |r| && r[m] == v[0];
    assert r[0].dist <= r[m].dist;
  }

  // ---------------------------------------------------------------------
  // Sorting (stands in for the library's unstable sort)
  // ---------------------------------------------------------------------

  lemma SortedTail(s: seq<Neighbour>)
    requires SortedByDist(s) && s != []
    ensures SortedByDist(s[1..])
  {
    forall i, j | 0 <= i < j < |s[1..]| ensures s[1..][i].dist <= s[1..][j].dist {
      assert s[1..][i] == s[i + 1] && s[1..][j] == s[j + 1];
    }
  }

  /** In a sorted list, the head is no farther than anything after it. */
  lemma HeadIsClosest(s: seq<Neighbour>, y: Neighbour)
    requires SortedByDist(s) && s != [] && y in multiset(s[1..])
    ensures s[0].dist <= y.dist
  {
    assert y in s[1..];
    var m :| 0 <= m < |s[1..]| && s[1..][m] == y;
    assert s[m + 1] == y;
  }

  lemma ConsSorted(h: Neighbour, t: seq<Neighbour>)
    requires SortedByDist(t)
    requires forall i :: 0 <= i < |t| ==> h.dist <= t[i].dist
    ensures SortedByDist([h] + t)
  {
    var r := [h] + t;
    forall i, j | 0 <= i < j < |r| ensures r[i].dist <= r[j].dist {
      assert r[j] == t[j - 1];
      if i > 0 {
        assert r[i] == t[i - 1];
      }
    }
  }

  function InsertByDist(x: Neighbour, s: seq<Neighbour>): (r: seq<Neighbour>)
    requires SortedByDist(s)
    ensures SortedByDist(r) && multiset(r) == multiset(s) + multiset{x}
  {
    if s == [] then [x]
    else if x.dist <= s[0].dist then
      ConsSorted(x, s);
      [x] + s
    else
      SortedTail(s);
      var rest := InsertByDist(x, s[1..]);
      assert s == [s[0]] + s[1..];
      assert forall i :: 0 <= i < |rest| ==> s[0].dist <= rest[i].dist by {
        forall i | 0 <= i < |rest| ensures s[0].dist <= rest[i].dist {
          assert rest[i] in multiset(rest);
          if rest[i] != x {
            HeadIsClosest(s, rest[i]);
          }
        }
      }
      ConsSorted(s[0], rest);
      [s[0]] + rest
  }

  function SortByDist(s: seq<Neighbour>): (r: seq<Neighbour>)
    ensures SortedByDist(r) && multiset(r) == multiset(s)
  {
    if s == [] then []
    else
      assert s == [s[0]] + s[1..];
      InsertByDist(s[0], SortByDist(s[1..]))
  }

  // ---------------------------------------------------------------------
  // The level itself
  // ---------------------------------------------------------------------

  class Level {
    /** Capacity of every neighbour list (the ArrayVec bound). */
    const maxNeighbours: nat
    /** The distance capability the level is generic over. */
    const distance: Distance
    /** The level's graph; a graph node's index is its position. */
    var graph: seq<GraphNode>

    /** An empty level. */
    constructor (maxNeighbours: nat, distance: Distance)
      ensures this.maxNeighbours == maxNeighbours && this.distance == distance
      ensures graph == []
    {
      this.maxNeighbours := maxNeighbours;
      this.distance := distance;
      graph := [];
    }

    /** One scan of `from`'s neighbour list, in order: stops at the first
        neighbour strictly closer than `from` and reports it; when there is
        none, returns `from` followed by every neighbour, each with its
        distance to the query. */
    method ScanNeighbours(query: Vector, nodes: seq<Node>, from: GraphNodeIdx, fromDist: real)
      returns (moved: bool, next: GraphNodeIdx, nextDist: real, neighbours: seq<Neighbour>, ghost k: nat)
      requires Searchable(graph, |nodes|) && from < |graph|
      requires fromDist == Distances(graph, nodes, query, distance)[from]
      ensures moved ==> ScanMovedAt(graph, Distances(graph, nodes, query, distance), from, k, next)
      ensures moved ==> nextDist == Distances(graph, nodes, query, distance)[next]
      ensures !moved ==> ScanStopped(graph, Distances(graph, nodes, query, distance), from)
      ensures !moved ==> neighbours == Visited(graph, Distances(graph, nodes, query, distance), from)
    {
      ghost var ds := Distances(graph, nodes, query, distance);
      var adj := graph[from].neighbours;
      neighbours := [Neighbour(from, fromDist)];
      var i := 0;
      moved, k := false, 0;
      next, nextDist := from, fromDist;
      while i < |adj|
        invariant i <= |adj| && |neighbours| == i + 1 && neighbours[0] == Neighbour(from, ds[from])
        invariant forall j :: 0 <= j < i ==> neighbours[j + 1] == Neighbour(adj[j].idx, ds[adj[j].idx])
        invariant forall j :: 0 <= j < i ==> ds[from] <= ds[adj[j].idx]
      {
        next := adj[i].idx;
        nextDist := distance(nodes[graph[next].nodeIdx].vec, query);
        if nextDist < fromDist {
          moved, k := true, i;
          return;
        }
        neighbours := neighbours + [Neighbour(next, nextDist)];
        i := i + 1;
      }
      DescendStops(graph, ds, from, neighbours);
    }

    /** Greedy first-improvement hill-climb from `start`: move to the first
        neighbour strictly closer than the current node and rescan from there;
        when a full scan finds none, return the current node and all its
        neighbours sorted by distance. */
    method NearestNeighbourSearchStartingFrom(query: Vector, nodes: seq<Node>, start: GraphNodeIdx)
      returns (result: seq<Neighbour>)
      requires Searchable(graph, |nodes|) && start < |graph|
      ensures GreedyResult(graph, Distances(graph, nodes, query, distance), start, result)
    {
      ghost var ds := Distances(graph, nodes, query, distance);
      var current: GraphNodeIdx := start;
      var currentDist := distance(nodes[graph[current].nodeIdx].vec, query);
      while true
        invariant current < |graph| && currentDist == ds[current]
        invariant Descend(graph, ds, current) == Descend(graph, ds, start)
        decreases CloserCount(ds, currentDist)
      {
        var moved, next, nextDist, neighbours, k := ScanNeighbours(query, nodes, current, currentDist);
        if !moved {
          result := SortByDist(neighbours);
          StopIsResult(graph, ds, start, current, neighbours, result);
          return;
        }
        DescendMoves(graph, ds, current, k, next);
        current, currentDist := next, nextDist;
      }
    }

    /** The search from the level's entry point, graph node 0; empty on an
        empty level. */
    method NearestNeighbourSearch(query: Vector, nodes: seq<Node>) returns (result: seq<Neighbour>)
      requires Searchable(graph, |nodes|)
      ensures graph == [] ==> result == []
      ensures graph != [] ==> GreedyResult(graph, Distances(graph, nodes, query, distance), 0, result)
    {
      if graph == [] {
        return [];
      }
      result := NearestNeighbourSearchStartingFrom(query, nodes, 0);
    }

    /** Inserts `nb` into the target's neighbour list at the first bracketing
        position (or at the end) and truncates the list to `maxNeighbours`;
        nothing else in the level changes. */
    method InsertNeighbour(target: GraphNodeIdx, nb: Neighbour)
      requires target < |graph|
      modifies this
      ensures graph == InsertNeighbourAt(old(graph), target, nb, maxNeighbours)
    {
      var neighbours := graph[target].neighbours;
      var i := 1;
      while i < |neighbours| && !(neighbours[i - 1].dist < nb.dist < neighbours[i].dist)
        invariant 1 <= i
        invariant InsertIdxFrom(neighbours, nb.dist, i) == InsertIdx(neighbours, nb.dist)
        decreases |neighbours| - i
      {
        i := i + 1;
      }
      var insertIdx := if i >= |neighbours| then |neighbours| else i;
      neighbours := neighbours[..insertIdx] + [nb] + neighbours[insertIdx..];
      if |neighbours| > maxNeighbours {
        neighbours := neighbours[..maxNeighbours];
      }
      assert neighbours == InsertInto(graph[target].neighbours, nb, maxNeighbours);
      graph := graph[target := graph[target].(neighbours := neighbours)];
    }

    /** Adds the back-edge (g, dist) to every listed node, in list order. */
    method MakeEdgesDoubleSided(g: GraphNodeIdx, nbs: seq<Neighbour>)
      requires IdsBelow(nbs, |graph|)
      modifies this
      ensures graph == BackEdges(old(graph), g, nbs, maxNeighbours)
    {
      var k := 0;
      while k < |nbs|
        invariant k <= |nbs| && |graph| == |old(graph)|
        invariant IdsBelow(nbs[k..], |graph|)
        invariant BackEdges(graph, g, nbs[k..], maxNeighbours) == BackEdges(old(graph), g, nbs, maxNeighbours)
      {
        assert nbs[k..][0] == nbs[k] && nbs[k..][1..] == nbs[k + 1..];
        InsertNeighbour(nbs[k].idx, Neighbour(g, nbs[k].dist));
        k := k + 1;
      }
    }
  }
}
