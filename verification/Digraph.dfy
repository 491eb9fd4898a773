/** Directed graphs as the digraph package sees them: nodes compared by identity, each with an
    ordered list of out-edges.  Reachability and strong connectivity are defined here once; the
    traversals of the other modules are stated against these definitions. */
module Digraph {

  datatype Node = Node(id: nat)

  /** A finite graph: every node with the tails of its out-edges, in the order `Edges()` gives them. */
  datatype Graph = Graph(edges: map<Node, seq<Node>>) {

    /** Every edge leads to a node of the graph. */
    ghost predicate Closed() {
      forall n, i :: n in edges && 0 <= i < |edges[n]| ==> edges[n][i] in edges
    }

    predicate Edge(a: Node, b: Node) {
      a in edges && b in edges[a]
    }

    ghost predicate IsWalk(p: seq<Node>, a: Node, b: Node) {
      |p| > 0 && p[0] == a && p[|p| - 1] == b &&
      forall i :: 0 <= i < |p| - 1 ==> Edge(p[i], p[i + 1])
    }

    /** b can be reached from a along zero or more edges. */
    ghost predicate Reach(a: Node, b: Node) {
      exists p :: IsWalk(p, a, b)
    }

    ghost predicate Mutual(a: Node, b: Node) {
      Reach(a, b) && Reach(b, a)
    }

    /** The listed nodes are, without repetition, one strongly connected component. */
    ghost predicate IsScc(c: seq<Node>) {
      |c| > 0 &&
      (forall i, j :: 0 <= i < j < |c| ==> c[i] != c[j]) &&
      (forall u, v :: u in c && v in c ==> Mutual(u, v)) &&
      (forall u, w :: u in c && Mutual(u, w) ==> w in c)
    }

    /** Some node reaches itself along at least one edge. */
    ghost predicate Cyclic() {
      exists a, b :: Edge(a, b) && Reach(b, a)
    }
  }

  lemma ReachSelf(g: Graph, a: Node)
    ensures g.Reach(a, a)
  {
    assert g.IsWalk([a], a, a);
  }

  lemma ReachEdge(g: Graph, a: Node, b: Node)
    requires g.Edge(a, b)
    ensures g.Reach(a, b)
  {
    assert g.IsWalk([a, b], a, b);
  }

  lemma ReachTrans(g: Graph, a: Node, b: Node, c: Node)
    requires g.Reach(a, b) && g.Reach(b, c)
    ensures g.Reach(a, c)
  {
    var p :| g.IsWalk(p, a, b);
    var q :| g.IsWalk(q, b, c);
    assert g.IsWalk(p + q[1..], a, c);
  }

  /** A set of nodes no edge leaves holds everything reachable from its members. */
  lemma ReachStaysInside(g: Graph, s: iset<Node>, a: Node, b: Node)
    requires a in s && g.Reach(a, b)
    requires forall v, w :: v in s && g.Edge(v, w) ==> w in s
    ensures b in s
  {
    var p :| g.IsWalk(p, a, b);
    for i := 1 to |p|
      invariant p[i - 1] in s
    {
      assert g.Edge(p[i - 1], p[i]);
    }
  }
}
