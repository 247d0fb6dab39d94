/** The data model of the index: stable integer indices, vectors, nodes and
    per-level graph nodes. Parent and child links are plain optional indices
    into the adjacent levels, never owned references. */
module Nodes {

  /** Index of a node in the node store. */
  type NodeIdx = nat

  /** Index of a graph node within one level's graph. */
  type GraphNodeIdx = nat

  /** A stored vector. Its length is the index's dimensionality, an invariant
      that HnswIndex.Hnsw keeps for every stored node. Components are reals. */
  type Vector = seq<real>

  /** The distance capability: any function of two vectors into a totally
      ordered type (here `real`). */
  type Distance = (Vector, Vector) -> real

  datatype Option<T> = None | Some(value: T)

  /** A neighbour entry: a graph-node index and the distance cached when the
      edge was made. */
  datatype Neighbour = Neighbour(idx: GraphNodeIdx, dist: real)

  /** A stored vector together with the index of its own slot in the store. */
  datatype Node = Node(idx: NodeIdx, vec: Vector)

  /** One node's entry in one level: the node-store index it stands for, its
      bounded neighbour list, and the optional indices of its entries one level
      above (`parent`) and one level below (`child`). */
  datatype GraphNode = GraphNode(
    nodeIdx: NodeIdx,
    neighbours: seq<Neighbour>,
    parent: Option<GraphNodeIdx>,
    child: Option<GraphNodeIdx>)

  function Min(a: int, b: int): int {
    if a <= b then a else b
  }

  /** Every neighbour index in `ns` is below `size`. */
  predicate IdsBelow(ns: seq<Neighbour>, size: nat) {
    forall i :: 0 <= i < |ns| ==> ns[i].idx < size
  }

  /** No graph-node index occurs twice in `ns`. */
  predicate DistinctIds(ns: seq<Neighbour>) {
    forall i, j :: 0 <= i < j < |ns| ==> ns[i].idx != ns[j].idx
  }

  /** The set of graph-node indices listed in `ns`. */
  function Ids(ns: seq<Neighbour>): set<GraphNodeIdx> {
    set i | 0 <= i < |ns| :: ns[i].idx
  }

  /** Two graph nodes agree on everything but their neighbour lists. */
  predicate SameLinks(a: GraphNode, b: GraphNode) {
    a.nodeIdx == b.nodeIdx && a.parent == b.parent && a.child == b.child
  }

  /** The node store: slot `i` holds the node whose `idx` is `i`, and every
      vector has `dim` components. */
  predicate NodesOk(nodes: seq<Node>, dim: nat) {
    forall i :: 0 <= i < |nodes| ==> nodes[i].idx == i && |nodes[i].vec| == dim
  }

  /** Pushing a node whose index is the current length, with a vector of the
      right length, keeps the store well formed and gives it that index. */
  lemma NodesOkPush(nodes: seq<Node>, dim: nat, vec: Vector)
    requires NodesOk(nodes, dim) && |vec| == dim
    ensures NodesOk(nodes + [Node(|nodes|, vec)], dim)
    ensures (nodes + [Node(|nodes|, vec)])[|nodes|].idx == |nodes|
  {
  }
}
