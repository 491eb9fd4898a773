/** Tarjan's strongly connected components (digraph/tarjan.go).  The class below keeps the
    accounting fields of `sccAcct`; the proof is about snapshots of them. */
module Tarjan {
  import opened Digraph
  import opened Lists
  import opened Wrappers

  /** A snapshot of the accounting: `comps` lists every component popped so far, also the
      single-node ones that `ExcludeSingle` keeps out of the answer. */
  datatype Acct = Acct(next: int, index: map<Node, int>, stack: seq<Node>, comps: seq<seq<Node>>)

  ghost predicate Done(a: Acct, v: Node) {
    v in a.index && v !in a.stack
  }

  /** Indices are below the next one and increase along the stack. */
  ghost predicate Indexed(g: Graph, a: Acct) {
    (forall v :: v in a.index ==> v in g.edges && 1 <= a.index[v] < a.next) &&
    a.next >= 1 &&
    (forall i :: 0 <= i < |a.stack| ==> a.stack[i] in a.index) &&
    (forall i, j :: 0 <= i < j < |a.stack| ==> a.index[a.stack[i]] < a.index[a.stack[j]])
  }

  /** Only nodes whose call is still running may lead to unvisited nodes. */
  ghost predicate NoneMissed(g: Graph, a: Acct, running: set<Node>) {
    forall v, w :: v in a.index && v !in running && g.Edge(v, w) ==> w in a.index
  }

  /** Each stacked node reaches those above it. */
  ghost predicate Spine(g: Graph, a: Acct) {
    forall i, j :: 0 <= i <= j < |a.stack| ==> g.Reach(a.stack[i], a.stack[j])
  }

  ghost predicate AnchoredAt(g: Graph, a: Acct, running: set<Node>, j: int, i: int)
    requires 0 <= j < |a.stack|
  {
    0 <= i <= j && a.stack[i] in running && g.Reach(a.stack[j], a.stack[i])
  }

  ghost predicate HasAnchor(g: Graph, a: Acct, running: set<Node>, j: int)
    requires 0 <= j < |a.stack|
  {
    exists i :: AnchoredAt(g, a, running, j, i)
  }

  /** Each stacked node reaches a running node at or below it. */
  ghost predicate Anchored(g: Graph, a: Acct, running: set<Node>) {
    forall j :: 0 <= j < |a.stack| ==> HasAnchor(g, a, running, j)
  }

  /** The popped components: each is one, they are disjoint, they hold exactly the done nodes, and
      an edge out of one leads into itself or an earlier one. */
  ghost predicate Emitted(g: Graph, a: Acct) {
    (forall k :: 0 <= k < |a.comps| ==> g.IsScc(a.comps[k])) &&
    (forall k, v :: 0 <= k < |a.comps| && v in a.comps[k] ==> Done(a, v)) &&
    (forall v :: Done(a, v) ==> exists k :: 0 <= k < |a.comps| && v in a.comps[k]) &&
    (forall k, l, v :: 0 <= k < l < |a.comps| && v in a.comps[k] ==> v !in a.comps[l]) &&
    EdgesGoBack(g, a.comps)
  }

  ghost predicate EdgesGoBack(g: Graph, comps: seq<seq<Node>>) {
    forall k, v, w :: 0 <= k < |comps| && v in comps[k] && g.Edge(v, w) ==>
      exists l :: 0 <= l <= k && w in comps[l]
  }

  /** What every step keeps. */
  ghost predicate Inv(g: Graph, a: Acct, running: set<Node>) {
    Indexed(g, a) &&
    (forall v :: v in running ==> v in a.stack) &&
    NoneMissed(g, a, running) &&
    Spine(g, a) &&
    Anchored(g, a, running) &&
    Emitted(g, a)
  }

  ghost predicate Extends(a: Acct, b: Acct) {
    (forall v :: v in a.index ==> v in b.index && b.index[v] == a.index[v]) &&
    a.stack <= b.stack && a.comps <= b.comps && a.next <= b.next
  }

  /** m is the index of a node of `below` that `node` reaches, unless it is the node's own. */
  ghost predicate LowAttained(g: Graph, below: Acct, own: int, node: Node, m: int) {
    m <= own &&
    (m < own ==> exists z :: z in below.stack && z in below.index && below.index[z] == m && g.Reach(node, z))
  }

  /** Every edge from the part of a's stack above position `from` into `below`'s stack has an index of at least m. */
  ghost predicate LowBounds(g: Graph, below: Acct, a: Acct, from: int, m: int) {
    forall i, w :: from <= i < |a.stack| && 0 <= i && g.Edge(a.stack[i], w) && w in below.stack && w in below.index ==>
      m <= below.index[w]
  }

  ghost predicate NewReached(g: Graph, a: Acct, b: Acct, node: Node) {
    forall v :: v in b.index && v !in a.index ==> g.Reach(node, v)
  }

  function Visited(a: Acct, node: Node): Acct {
    Acct(a.next + 1, a.index[node := a.next], a.stack + [node], a.comps)
  }

  lemma VisitKeepsInv(g: Graph, a: Acct, running: set<Node>, node: Node)
    requires Inv(g, a, running)
    requires node in g.edges && node !in a.index
    requires forall r :: r in running ==> g.Reach(r, node)
    ensures Inv(g, Visited(a, node), running + {node})
  {
    hide Graph.Reach;
    var b := Visited(a, node);
    var top := |a.stack|;
    ReachSelf(g, node);
    forall i | 0 <= i < |b.stack|
      ensures g.Reach(b.stack[i], node)
    {
      if i < top {
        assert HasAnchor(g, a, running, i);
        var r :| AnchoredAt(g, a, running, i, r);
        ReachTrans(g, a.stack[i], a.stack[r], node);
      }
    }
    assert Anchored(g, b, running + {node}) by {
      forall j | 0 <= j < |b.stack|
        ensures HasAnchor(g, b, running + {node}, j)
      {
        if j < top {
          assert HasAnchor(g, a, running, j);
          var r :| AnchoredAt(g, a, running, j, r);
          assert AnchoredAt(g, b, running + {node}, j, r);
        } else {
          assert AnchoredAt(g, b, running + {node}, j, j);
        }
      }
    }
    assert forall v :: Done(b, v) <==> Done(a, v);
  }

  /** The last call of a node that is not the root of its component: it just stops running. */
  lemma FinishInner(g: Graph, a0: Acct, a: Acct, running: set<Node>, node: Node, m: int)
    requires Inv(g, a, running + {node}) && node !in running
    requires Indexed(g, a0)
    requires Extends(a0, a) && |a0.stack| < |a.stack| && a.stack[|a0.stack|] == node
    requires forall w :: g.Edge(node, w) ==> w in a.index
    requires LowAttained(g, a0, a.index[node], node, m) && m < a.index[node]
    ensures Inv(g, a, running)
  {
    hide Graph.Reach, Emitted, Spine;
    var z :| z in a0.stack && z in a0.index && a0.index[z] == m && g.Reach(node, z);
    var zi :| 0 <= zi < |a0.stack| && a0.stack[zi] == z;
    assert a.stack[zi] == z;
    assert HasAnchor(g, a, running + {node}, zi);
    var x :| AnchoredAt(g, a, running + {node}, zi, x);
    assert a.stack[x] != node;
    ReachTrans(g, node, z, a.stack[x]);
    forall j | 0 <= j < |a.stack|
      ensures HasAnchor(g, a, running, j)
    {
      assert HasAnchor(g, a, running + {node}, j);
      var r :| AnchoredAt(g, a, running + {node}, j, r);
      if a.stack[r] == node {
        ReachTrans(g, a.stack[j], node, a.stack[x]);
        assert AnchoredAt(g, a, running, j, x);
      } else {
        assert AnchoredAt(g, a, running, j, r);
      }
    }
  }

  function Popped(a0: Acct, a: Acct): Acct
    requires |a0.stack| <= |a.stack|
  {
    Acct(a.next, a.index, a0.stack, a.comps + [Reversed(a.stack[|a0.stack|..])])
  }

  /** The node whose call ends is the lowest its part of the stack leads to. */
  ghost predicate AtRoot(g: Graph, a0: Acct, a: Acct, running: set<Node>, node: Node) {
    Inv(g, a, running + {node}) && node !in running && Indexed(g, a0) &&
    (forall v :: v in running ==> v in a0.stack) &&
    Extends(a0, a) && |a0.stack| < |a.stack| && a.stack[|a0.stack|] == node &&
    (forall w :: g.Edge(node, w) ==> w in a.index) &&
    LowBounds(g, a0, a, |a0.stack|, a.index[node])
  }

  lemma StackSplits(g: Graph, a0: Acct, a: Acct, v: Node)
    requires Indexed(g, a) && a0.stack <= a.stack
    ensures v in a.stack <==> v in a0.stack || v in a.stack[|a0.stack|..]
    ensures v in a.stack[|a0.stack|..] ==> v !in a0.stack
    ensures v in a.stack ==> v in a.index
  {
    assert a.stack == a0.stack + a.stack[|a0.stack|..];
    assert forall i :: 0 <= i < |a0.stack| ==> a0.stack[i] == a.stack[i];
  }

  /** No edge leaves the part of the stack above the root other than to done nodes. */
  lemma TopIsClosed(g: Graph, a0: Acct, a: Acct, running: set<Node>, node: Node, v: Node, w: Node)
    requires AtRoot(g, a0, a, running, node)
    requires v in a.stack[|a0.stack|..] && g.Edge(v, w)
    ensures w in a.stack[|a0.stack|..] || Done(a, w)
  {
    hide Graph.Reach, Emitted, Spine, Anchored;
    var n := |a0.stack|;
    StackSplits(g, a0, a, v);
    StackSplits(g, a0, a, w);
    assert w in a.index;
    var i :| n <= i < |a.stack| && a.stack[i] == v;
    assert forall j :: 0 <= j < n ==> a.index[a.stack[j]] < a.index[a.stack[n]];
  }

  /** What the top of the stack reaches stays in it or is done, and done nodes never lead back. */
  lemma TopReach(g: Graph, a0: Acct, a: Acct, running: set<Node>, node: Node, v: Node, w: Node)
    requires AtRoot(g, a0, a, running, node)
    requires v in a.stack[|a0.stack|..] && g.Reach(v, w)
    ensures w in a.stack[|a0.stack|..] || Done(a, w)
  {
    hide Graph.Reach, Spine, Anchored, Graph.IsScc;
    var s := iset u | u in a.stack[|a0.stack|..] || Done(a, u);
    forall x, y | x in s && g.Edge(x, y)
      ensures y in s
    {
      if x in a.stack[|a0.stack|..] {
        TopIsClosed(g, a0, a, running, node, x, y);
      } else {
        DoneIsClosed(g, a, x, y);
      }
    }
    ReachStaysInside(g, s, v, w);
  }

  lemma DoneIsClosed(g: Graph, a: Acct, v: Node, w: Node)
    requires Emitted(g, a) && Done(a, v) && g.Edge(v, w)
    ensures Done(a, w)
  {
    hide Graph.IsScc;
    var k :| 0 <= k < |a.comps| && v in a.comps[k];
    var l :| 0 <= l <= k && w in a.comps[l];
  }

  lemma DoneReach(g: Graph, a: Acct, v: Node, w: Node)
    requires Emitted(g, a) && Done(a, v) && g.Reach(v, w)
    ensures Done(a, w)
  {
    hide Graph.Reach, Graph.IsScc;
    var s := iset u | Done(a, u);
    forall x, y | x in s && g.Edge(x, y)
      ensures y in s
    {
      DoneIsClosed(g, a, x, y);
    }
    ReachStaysInside(g, s, v, w);
  }

  lemma TopReachesRoot(g: Graph, a0: Acct, a: Acct, running: set<Node>, node: Node, v: Node)
    requires AtRoot(g, a0, a, running, node)
    requires v in a.stack[|a0.stack|..]
    ensures g.Mutual(v, node)
  {
    hide Graph.Reach, Emitted, NoneMissed, LowBounds;
    var n := |a0.stack|;
    var j :| n <= j < |a.stack| && a.stack[j] == v;
    assert g.Reach(a.stack[n], a.stack[j]);
    assert HasAnchor(g, a, running + {node}, j);
    var i :| AnchoredAt(g, a, running + {node}, j, i);
    TopReach(g, a0, a, running, node, v, a.stack[i]);
    StackSplits(g, a0, a, a.stack[i]);
  }

  /** The popped part of the stack is one strongly connected component. */
  lemma TopIsScc(g: Graph, a0: Acct, a: Acct, running: set<Node>, node: Node)
    requires AtRoot(g, a0, a, running, node)
    ensures g.IsScc(Reversed(a.stack[|a0.stack|..]))
  {
    hide Graph.Reach;
    var top := a.stack[|a0.stack|..];
    var c := Reversed(top);
    forall u, v | u in c && v in c
      ensures g.Mutual(u, v)
    {
      TopReachesRoot(g, a0, a, running, node, u);
      TopReachesRoot(g, a0, a, running, node, v);
      ReachTrans(g, u, node, v);
      ReachTrans(g, v, node, u);
    }
    forall u, w | u in c && g.Mutual(u, w)
      ensures w in c
    {
      TopReach(g, a0, a, running, node, u, w);
      if Done(a, w) {
        DoneReach(g, a, w, u);
      }
    }
  }

  lemma PopEmits(g: Graph, a0: Acct, a: Acct, running: set<Node>, node: Node)
    requires AtRoot(g, a0, a, running, node)
    ensures Emitted(g, Popped(a0, a))
  {
    hide Graph.Reach, Graph.IsScc, Spine, Anchored, Indexed, NoneMissed, LowBounds;
    TopIsScc(g, a0, a, running, node);
    var top := a.stack[|a0.stack|..];
    forall v
      ensures v in a.stack <==> v in a0.stack || v in top
      ensures v in top ==> v !in a0.stack
      ensures v in a.stack ==> v in a.index
    {
      StackSplits(g, a0, a, v);
    }
    forall v, w | v in top && g.Edge(v, w)
      ensures w in top || Done(a, w)
    {
      TopIsClosed(g, a0, a, running, node, v, w);
    }
    AppendComponent(g, a, a0.stack, top);
  }

  /** Adding to the components a strongly connected part of the stack that only leads to itself and to done nodes. */
  lemma AppendComponent(g: Graph, a: Acct, rest: seq<Node>, top: seq<Node>)
    requires Emitted(g, a) && g.IsScc(Reversed(top))
    requires forall v :: v in rest ==> v in a.index
    requires forall v :: v in top ==> v in a.index
    requires forall v :: v in a.stack <==> v in rest || v in top
    requires forall v :: v in top ==> v !in rest
    requires forall v, w :: v in top && g.Edge(v, w) ==> w in top || Done(a, w)
    ensures Emitted(g, Acct(a.next, a.index, rest, a.comps + [Reversed(top)]))
  {
    hide Graph.IsScc;
    var b := Acct(a.next, a.index, rest, a.comps + [Reversed(top)]);
    var last := |a.comps|;
    assert forall v :: Done(b, v) <==> Done(a, v) || v in top;
    assert forall k :: 0 <= k < last ==> b.comps[k] == a.comps[k];
    assert b.comps[last] == Reversed(top);
    forall v | Done(b, v)
      ensures exists k :: 0 <= k < |b.comps| && v in b.comps[k]
    {
      if v in top {
        assert v in b.comps[last];
      } else {
        assert Done(a, v);
        var k :| 0 <= k < last && v in a.comps[k];
        assert v in b.comps[k];
      }
    }
    forall k, v, w | 0 <= k < |b.comps| && v in b.comps[k] && g.Edge(v, w)
      ensures exists l :: 0 <= l <= k && w in b.comps[l]
    {
      if k == last && w in top {
        assert w in b.comps[last];
      } else if k == last {
        assert Done(a, w);
        var l :| 0 <= l < last && w in a.comps[l];
        assert w in b.comps[l];
      } else {
        var l :| 0 <= l <= k && w in a.comps[l];
        assert w in b.comps[l];
      }
    }
    assert EdgesGoBack(g, b.comps);
    assert forall k, v :: 0 <= k < |b.comps| && v in b.comps[k] ==> Done(b, v);
    forall k, l, v | 0 <= k < l < |b.comps| && v in b.comps[k]
      ensures v !in b.comps[l]
    {
      assert v in a.comps[k];
      assert Done(a, v);
    }
  }

  /** The last call of the root of a component pops exactly that component. */
  lemma FinishRoot(g: Graph, a0: Acct, a: Acct, running: set<Node>, node: Node)
    requires AtRoot(g, a0, a, running, node)
    ensures Inv(g, Popped(a0, a), running)
  {
    hide Graph.Reach, Emitted;
    PopEmits(g, a0, a, running, node);
    var b := Popped(a0, a);
    forall j | 0 <= j < |b.stack|
      ensures HasAnchor(g, b, running, j)
    {
      assert HasAnchor(g, a, running + {node}, j);
      var i :| AnchoredAt(g, a, running + {node}, j, i);
      assert AnchoredAt(g, b, running, j, i);
    }
  }

  /** What a finished call of `node` from accounting a promises about the accounting b it leaves. */
  ghost predicate CallDone(g: Graph, a: Acct, b: Acct, running: set<Node>, node: Node, m: int) {
    Inv(g, b, running) && Extends(a, b) && node in b.index && b.index[node] == a.next &&
    LowAttained(g, a, a.next, node, m) && LowBounds(g, a, b, |a.stack|, m) && NewReached(g, a, b, node)
  }

  /** The call of `node` from a0, with the first i edges handled. */
  ghost predicate Scanning(g: Graph, a0: Acct, a: Acct, running: set<Node>, node: Node, m: int, i: int) {
    Inv(g, a0, running) && node in g.edges && node !in a0.index && 0 <= i <= |g.edges[node]| &&
    (forall r :: r in running ==> g.Reach(r, node)) &&
    Inv(g, a, running + {node}) && Extends(Visited(a0, node), a) &&
    LowAttained(g, a0, a0.next, node, m) && LowBounds(g, a0, a, |a0.stack| + 1, m) && NewReached(g, a0, a, node) &&
    forall k :: 0 <= k < i ==> Handled(a0, a, g.edges[node][k], m)
  }

  ghost predicate Handled(a0: Acct, a: Acct, target: Node, m: int) {
    target in a.index && (target in a0.stack && target in a0.index ==> m <= a0.index[target])
  }

  /** Extending the accounting during a call of `node` keeps it sitting right above a0's stack. */
  lemma Below(g: Graph, a0: Acct, a: Acct, running: set<Node>, node: Node, m: int, i: int, z: Node)
    requires Scanning(g, a0, a, running, node, m, i)
    ensures |a0.stack| < |a.stack| && a.stack[|a0.stack|] == node && a0.stack <= a.stack
    ensures a.index[node] == a0.next && Extends(a0, a)
    ensures z in a.stack && z in a.index && a.index[z] < a0.next ==>
      z in a0.stack && z in a0.index && a0.index[z] == a.index[z]
  {
    hide Graph.Reach, Emitted, Spine, Anchored, NoneMissed, LowBounds, LowAttained, NewReached;
    var v := Visited(a0, node);
    assert v.stack[|a0.stack|] == node;
    assert forall k :: 0 <= k < |v.stack| ==> a.stack[k] == v.stack[k];
    if z in a.stack && z in a.index && a.index[z] < a0.next {
      var k :| 0 <= k < |a.stack| && a.stack[k] == z;
      assert k < |a0.stack|;
      assert a0.stack[k] == z;
    }
  }

  lemma ScanStart(g: Graph, a0: Acct, running: set<Node>, node: Node)
    requires Inv(g, a0, running) && node in g.edges && node !in a0.index
    requires forall r :: r in running ==> g.Reach(r, node)
    ensures Scanning(g, a0, Visited(a0, node), running, node, a0.next, 0)
  {
    VisitKeepsInv(g, a0, running, node);
    hide Graph.Reach, Inv;
    ReachSelf(g, node);
  }

  lemma ChildReady(g: Graph, a0: Acct, a: Acct, running: set<Node>, node: Node, m: int, i: int)
    requires g.Closed() && Scanning(g, a0, a, running, node, m, i) && i < |g.edges[node]|
    ensures var t := g.edges[node][i];
      Inv(g, a, running + {node}) && t in g.edges && forall r :: r in running + {node} ==> g.Reach(r, t)
  {
    hide Graph.Reach, Inv, LowAttained, LowBounds, NewReached;
    var t := g.edges[node][i];
    assert g.Edge(node, t);
    ReachEdge(g, node, t);
    forall r | r in running
      ensures g.Reach(r, t)
    {
      ReachTrans(g, r, node, t);
    }
  }

  lemma ChildLow(g: Graph, a0: Acct, a: Acct, running: set<Node>, node: Node, m: int, i: int, t: Node, mc: int)
    requires Scanning(g, a0, a, running, node, m, i) && g.Edge(node, t)
    requires LowAttained(g, a, a.next, t, mc)
    ensures LowAttained(g, a0, a0.next, node, Min(m, mc))
  {
    hide Graph.Reach, Inv, LowBounds, NewReached;
    if mc < m {
      Below(g, a0, a, running, node, m, i, node);
      assert a0.next < a.next;
      var z :| z in a.stack && z in a.index && a.index[z] == mc && g.Reach(t, z);
      Below(g, a0, a, running, node, m, i, z);
      ReachEdge(g, node, t);
      ReachTrans(g, node, t, z);
    }
  }

  lemma ChildBounds(g: Graph, a0: Acct, a: Acct, b: Acct, m: int, mc: int)
    requires Extends(a0, a) && Extends(a, b)
    requires LowBounds(g, a0, a, |a0.stack| + 1, m) && LowBounds(g, a, b, |a.stack|, mc)
    ensures LowBounds(g, a0, b, |a0.stack| + 1, Min(m, mc))
  {
    forall k, w | |a0.stack| + 1 <= k < |b.stack| && g.Edge(b.stack[k], w) && w in a0.stack && w in a0.index
      ensures Min(m, mc) <= a0.index[w]
    {
      assert w in a.stack && a.index[w] == a0.index[w];
      if k < |a.stack| {
        assert b.stack[k] == a.stack[k];
      }
    }
  }

  lemma ChildReached(g: Graph, a0: Acct, a: Acct, b: Acct, node: Node, t: Node)
    requires g.Edge(node, t) && NewReached(g, a0, a, node) && NewReached(g, a, b, t)
    ensures NewReached(g, a0, b, node)
  {
    hide Graph.Reach;
    ReachEdge(g, node, t);
    forall v | v in b.index && v !in a.index
      ensures g.Reach(node, v)
    {
      ReachTrans(g, node, t, v);
    }
  }

  /** Recursing into an unvisited target. */
  lemma ScanChild(g: Graph, a0: Acct, a: Acct, b: Acct, running: set<Node>, node: Node, m: int, i: int, mc: int)
    requires Scanning(g, a0, a, running, node, m, i) && i < |g.edges[node]|
    requires g.edges[node][i] !in a.index
    requires CallDone(g, a, b, running + {node}, g.edges[node][i], mc)
    ensures Scanning(g, a0, b, running, node, Min(m, mc), i + 1)
  {
    hide Graph.Reach, Inv, LowAttained, LowBounds, NewReached;
    var t := g.edges[node][i];
    assert g.Edge(node, t);
    Below(g, a0, a, running, node, m, i, t);
    ChildLow(g, a0, a, running, node, m, i, t, mc);
    ChildBounds(g, a0, a, b, m, mc);
    ChildReached(g, a0, a, b, node, t);
    IndexFacts(g, a0, running, t);
  }

  lemma IndexFacts(g: Graph, a: Acct, running: set<Node>, v: Node)
    requires Inv(g, a, running)
    ensures v in a.stack ==> v in a.index
    ensures v in a.index ==> a.index[v] >= 1
  {
  }

  /** Looking at a target visited before. */
  lemma ScanVisited(g: Graph, a0: Acct, a: Acct, running: set<Node>, node: Node, m: int, i: int)
    requires Scanning(g, a0, a, running, node, m, i) && i < |g.edges[node]|
    requires g.edges[node][i] in a.index
    ensures var t := g.edges[node][i];
      Scanning(g, a0, a, running, node, if t in a.stack then Min(m, a.index[t]) else m, i + 1)
  {
    hide Graph.Reach, Emitted, Spine, Anchored, NoneMissed;
    var t := g.edges[node][i];
    assert g.Edge(node, t);
    ReachEdge(g, node, t);
    Below(g, a0, a, running, node, m, i, t);
  }

  /** All edges handled, and the node is the root of its component. */
  lemma ScanEndsAtRoot(g: Graph, a0: Acct, a: Acct, running: set<Node>, node: Node)
    requires node in g.edges && Scanning(g, a0, a, running, node, a0.next, |g.edges[node]|)
    ensures |a0.stack| < |a.stack| && a.stack[|a0.stack|] == node && a.stack[..|a0.stack|] == a0.stack
    ensures forall i, j :: 0 <= i < j < |a.stack| ==> a.stack[i] != a.stack[j]
    ensures CallDone(g, a0, Popped(a0, a), running, node, a0.next)
  {
    Below(g, a0, a, running, node, a0.next, |g.edges[node]|, node);
    assert AtRoot(g, a0, a, running, node) by {
      hide Graph.Reach, Emitted, Spine, Anchored;
    }
    FinishRoot(g, a0, a, running, node);
    hide Graph.Reach, Inv;
  }

  /** All edges handled, and the node leads below itself. */
  lemma ScanEndsInside(g: Graph, a0: Acct, a: Acct, running: set<Node>, node: Node, m: int)
    requires node in g.edges && Scanning(g, a0, a, running, node, m, |g.edges[node]|) && m != a0.next
    ensures CallDone(g, a0, a, running, node, m)
  {
    Below(g, a0, a, running, node, m, |g.edges[node]|, node);
    FinishInner(g, a0, a, running, node, m);
    hide Graph.Reach, Inv;
  }

  function Min(a: int, b: int): int {
    if a <= b then a else b
  }

  /** The components kept in the answer. */
  function Kept(excludeSingle: bool, comps: seq<seq<Node>>): seq<seq<Node>> {
    if comps == [] then [] else
      var last := comps[|comps| - 1];
      Kept(excludeSingle, comps[..|comps| - 1]) + if excludeSingle && |last| == 1 then [] else [last]
  }

  class SccAcct {
    const ExcludeSingle: bool
    var NextIndex: int
    var NodeIndex: map<Node, int>
    var Stack: seq<Node>
    var SCC: seq<seq<Node>>
    ghost var comps: seq<seq<Node>>

    constructor (excludeSingle: bool)
      ensures ExcludeSingle == excludeSingle && SCC == []
      ensures Valid() && Snapshot() == Acct(1, map[], [], [])
    {
      ExcludeSingle := excludeSingle;
      NextIndex, NodeIndex, Stack, SCC, comps := 1, map[], [], [], [];
    }

    ghost function Snapshot(): Acct
      reads this
    {
      Acct(NextIndex, NodeIndex, Stack, comps)
    }

    ghost predicate Valid()
      reads this
    {
      SCC == Kept(ExcludeSingle, comps)
    }

    method Visit(n: Node) returns (idx: int)
      modifies this
      ensures idx == old(NextIndex) && Snapshot() == Visited(old(Snapshot()), n) && SCC == old(SCC)
    {
      idx := NextIndex;
      NodeIndex := NodeIndex[n := idx];
      NextIndex := NextIndex + 1;
      Push(n);
    }

    method Push(n: Node)
      modifies this`Stack
      ensures Stack == old(Stack) + [n]
    {
      Stack := Stack + [n];
    }

    method Pop() returns (n: Option<Node>)
      modifies this`Stack
      ensures old(Stack) == [] ==> n == None && Stack == []
      ensures old(Stack) != [] ==> n.Some? && old(Stack) == Stack + [n.value]
    {
      if |Stack| == 0 {
        return None;
      }
      n := Some(Stack[|Stack| - 1]);
      Stack := Stack[..|Stack| - 1];
    }

    method InStack(needle: Node) returns (r: bool)
      ensures r <==> needle in Stack
    {
      for i := 0 to |Stack|
        invariant needle !in Stack[..i]
      {
        if Stack[i] == needle {
          return true;
        }
      }
      return false;
    }

    /** Pops down to and including `node`, the component it is the root of. */
    method PopComponent(node: Node, ghost base: nat)
      requires Valid()
      requires base < |Stack| && Stack[base] == node
      requires forall i, j :: 0 <= i < j < |Stack| ==> Stack[i] != Stack[j]
      modifies this`Stack, this`SCC, this`comps
      ensures Valid()
      ensures Stack == old(Stack)[..base]
      ensures comps == old(comps) + [Reversed(old(Stack)[base..])]
    {
      var scc: seq<Node> := [];
      ghost var full := Stack;
      var n := None;
      while n != Some(node)
        invariant base <= |Stack| <= |full| && Stack == full[..|Stack|]
        invariant |scc| == |full| - |Stack|
        invariant forall i :: 0 <= i < |scc| ==> scc[i] == full[|full| - 1 - i]
        invariant n == Some(node) <==> |Stack| == base
        invariant SCC == old(SCC) && comps == old(comps)
        decreases |Stack|
      {
        n := Pop();
        assert n.value == full[|Stack|];
        scc := scc + [n.value];
      }
      assert scc == Reversed(full[base..]);
      ghost var before := comps;
      comps := comps + [scc];
      assert comps[..|comps| - 1] == before;
      assert SCC + [] == SCC;
      if !(ExcludeSingle && |scc| == 1) {
        SCC := SCC + [scc];
      }
    }

    method StronglyConnected(g: Graph, node: Node, ghost running: set<Node>) returns (minIdx: int)
      requires Valid() && g.Closed() && Inv(g, Snapshot(), running)
      requires node in g.edges && node !in NodeIndex
      requires forall r :: r in running ==> g.Reach(r, node)
      modifies this
      ensures Valid() && CallDone(g, old(Snapshot()), Snapshot(), running, node, minIdx)
      decreases g.edges.Keys - NodeIndex.Keys
    {
      hide Graph.Reach, Inv, LowAttained, LowBounds, NewReached;
      ghost var a0 := Snapshot();
      var index := Visit(node);
      minIdx := index;
      ScanStart(g, a0, running, node);
      var edges := g.edges[node];
      for i := 0 to |edges|
        invariant Valid() && Scanning(g, a0, Snapshot(), running, node, minIdx, i)
      {
        var target := edges[i];
        ghost var a := Snapshot();
        var targetIdx := if target in NodeIndex then NodeIndex[target] else 0;
        if targetIdx == 0 {
          ChildReady(g, a0, a, running, node, minIdx, i);
          IndexFacts(g, a, running + {node}, target);
          assert node in g.edges.Keys - a0.index.Keys && node !in g.edges.Keys - NodeIndex.Keys by {
            Below(g, a0, a, running, node, minIdx, i, node);
          }
          var low := StronglyConnected(g, target, running + {node});
          ScanChild(g, a0, a, Snapshot(), running, node, minIdx, i, low);
          minIdx := Min(minIdx, low);
        } else {
          var stacked := InStack(target);
          ScanVisited(g, a0, a, running, node, minIdx, i);
          if stacked {
            minIdx := Min(minIdx, targetIdx);
          }
        }
      }
      if index == minIdx {
        ScanEndsAtRoot(g, a0, Snapshot(), running, node);
        PopComponent(node, |a0.stack|);
      } else {
        ScanEndsInside(g, a0, Snapshot(), running, node, minIdx);
      }
    }
  }

  lemma InitialInv(g: Graph)
    ensures Inv(g, Acct(1, map[], [], []), {})
  {
  }

  ghost predicate FromInput(g: Graph, nodes: seq<Node>, v: Node) {
    exists u :: u in nodes && g.Reach(u, v)
  }

  /** With no call running nothing is left on the stack. */
  lemma StackEmpty(g: Graph, a: Acct)
    requires Inv(g, a, {})
    ensures a.stack == [] && Emitted(g, a)
  {
    hide Graph.Reach, Emitted, Spine;
    assert |a.stack| > 0 ==> HasAnchor(g, a, {}, 0);
  }

  /** Where the i-th kept component stands among all of them. */
  ghost function KeptPos(excludeSingle: bool, comps: seq<seq<Node>>, i: nat): (k: nat)
    requires i < |Kept(excludeSingle, comps)|
    ensures k < |comps| && comps[k] == Kept(excludeSingle, comps)[i] && !(excludeSingle && |comps[k]| == 1)
  {
    var init := comps[..|comps| - 1];
    if i < |Kept(excludeSingle, init)| then KeptPos(excludeSingle, init, i) else |comps| - 1
  }

  lemma {:induction false} KeptPosIncreases(excludeSingle: bool, comps: seq<seq<Node>>, i: nat, j: nat)
    requires i < j < |Kept(excludeSingle, comps)|
    ensures KeptPos(excludeSingle, comps, i) < KeptPos(excludeSingle, comps, j)
  {
    var init := comps[..|comps| - 1];
    if j < |Kept(excludeSingle, init)| {
      KeptPosIncreases(excludeSingle, init, i, j);
    }
  }

  lemma {:induction false} KeptHas(excludeSingle: bool, comps: seq<seq<Node>>, k: nat)
    requires k < |comps| && !(excludeSingle && |comps[k]| == 1)
    ensures comps[k] in Kept(excludeSingle, comps)
  {
    if k < |comps| - 1 {
      KeptHas(excludeSingle, comps[..|comps| - 1], k);
    }
  }

  /** Emission order is reverse topological: no component reaches a later one. */
  lemma NeverReachesLater(g: Graph, a: Acct, k: nat, l: nat)
    requires Emitted(g, a) && k < l < |a.comps|
    ensures Behind(g, a.comps[k], a.comps[l])
  {
    hide Graph.Reach, Graph.IsScc;
    var first := a.comps[..k + 1];
    var s := iset x | Covered(first, x);
    forall x, y | x in s && g.Edge(x, y)
      ensures y in s
    {
      var i :| 0 <= i <= k && x in first[i];
      var j :| 0 <= j <= i && y in a.comps[j];
      assert y in first[j];
    }
    forall u, v | u in a.comps[k] && v in a.comps[l]
      ensures u != v && !g.Reach(u, v)
    {
      assert u in first[k];
      if g.Reach(u, v) {
        ReachStaysInside(g, s, u, v);
      }
    }
  }

  /** The answer for `nodes`: exactly the strongly connected components of what is reachable from them
      (of size two or more under excludeSingle), each once, in reverse topological order. */
  ghost predicate IsAnswer(g: Graph, nodes: seq<Node>, excludeSingle: bool, r: seq<seq<Node>>) {
    (forall i :: 0 <= i < |r| ==> g.IsScc(r[i]) && (excludeSingle ==> |r[i]| >= 2)) &&
    (forall i, v :: 0 <= i < |r| && v in r[i] ==> FromInput(g, nodes, v)) &&
    (forall i, j :: 0 <= i < j < |r| ==> Behind(g, r[i], r[j])) &&
    (forall v :: FromInput(g, nodes, v) ==> Covered(r, v) || (excludeSingle && g.IsScc([v])))
  }

  /** The components are disjoint and the first does not lead to the second. */
  ghost predicate Behind(g: Graph, c: seq<Node>, d: seq<Node>) {
    forall u, v :: u in c && v in d ==> u != v && !g.Reach(u, v)
  }

  ghost predicate Covered(r: seq<seq<Node>>, v: Node) {
    exists i :: 0 <= i < |r| && v in r[i]
  }

  lemma AnswerInside(g: Graph, a: Acct, nodes: seq<Node>, excludeSingle: bool, i: nat)
    requires Emitted(g, a) && i < |Kept(excludeSingle, a.comps)|
    requires forall v :: v in a.index ==> FromInput(g, nodes, v)
    ensures var c := Kept(excludeSingle, a.comps)[i];
      g.IsScc(c) && (excludeSingle ==> |c| >= 2) && forall v :: v in c ==> FromInput(g, nodes, v)
  {
    hide Graph.Reach, FromInput;
    var k := KeptPos(excludeSingle, a.comps, i);
    assert forall v :: v in a.comps[k] ==> Done(a, v);
  }

  lemma AnswerCovers(g: Graph, a: Acct, nodes: seq<Node>, excludeSingle: bool, v: Node)
    requires Emitted(g, a) && a.stack == []
    requires forall u :: u in nodes ==> u in a.index
    requires FromInput(g, nodes, v)
    ensures Covered(Kept(excludeSingle, a.comps), v) || (excludeSingle && g.IsScc([v]))
  {
    hide Graph.Reach, Graph.IsScc;
    var u :| u in nodes && g.Reach(u, v);
    DoneReach(g, a, u, v);
    var k :| 0 <= k < |a.comps| && v in a.comps[k];
    if excludeSingle && |a.comps[k]| == 1 {
      assert a.comps[k] == [v];
    } else {
      KeptHas(excludeSingle, a.comps, k);
    }
  }

  lemma AnswerIsRight(g: Graph, a: Acct, nodes: seq<Node>, excludeSingle: bool)
    requires Emitted(g, a) && a.stack == []
    requires forall u :: u in nodes ==> u in a.index
    requires forall v :: v in a.index ==> FromInput(g, nodes, v)
    ensures IsAnswer(g, nodes, excludeSingle, Kept(excludeSingle, a.comps))
  {
    hide Graph.Reach, Emitted, FromInput, Kept, Graph.IsScc, Covered;
    var r := Kept(excludeSingle, a.comps);
    forall i | 0 <= i < |r|
      ensures g.IsScc(r[i]) && (excludeSingle ==> |r[i]| >= 2)
      ensures forall v :: v in r[i] ==> FromInput(g, nodes, v)
    {
      AnswerInside(g, a, nodes, excludeSingle, i);
    }
    forall i, j | 0 <= i < j < |r|
      ensures Behind(g, r[i], r[j])
    {
      KeptPosIncreases(excludeSingle, a.comps, i, j);
      NeverReachesLater(g, a, KeptPos(excludeSingle, a.comps, i), KeptPos(excludeSingle, a.comps, j));
    }
    forall v | FromInput(g, nodes, v)
      ensures Covered(r, v) || (excludeSingle && g.IsScc([v]))
    {
      AnswerCovers(g, a, nodes, excludeSingle, v);
    }
  }

  method StronglyConnectedComponents(g: Graph, nodes: seq<Node>, excludeSingle: bool) returns (r: seq<seq<Node>>)
    requires g.Closed() && forall n :: n in nodes ==> n in g.edges
    ensures IsAnswer(g, nodes, excludeSingle, r)
  {
    hide Graph.Reach, Inv, Kept, IsAnswer;
    InitialInv(g);
    var acct := new SccAcct(excludeSingle);
    for i := 0 to |nodes|
      invariant fresh(acct) && acct.ExcludeSingle == excludeSingle
      invariant acct.Valid() && Inv(g, acct.Snapshot(), {})
      invariant acct.Stack == []
      invariant forall k :: 0 <= k < i ==> nodes[k] in acct.NodeIndex
      invariant forall v :: v in acct.NodeIndex ==> FromInput(g, nodes, v)
    {
      ghost var a := acct.Snapshot();
      IndexFacts(g, a, {}, nodes[i]);
      var idx := if nodes[i] in acct.NodeIndex then acct.NodeIndex[nodes[i]] else 0;
      if idx == 0 {
        var _ := acct.StronglyConnected(g, nodes[i], {});
        StackEmpty(g, acct.Snapshot());
      }
    }
    StackEmpty(g, acct.Snapshot());
    AnswerIsRight(g, acct.Snapshot(), nodes, excludeSingle);
    r := acct.SCC;
  }
}
