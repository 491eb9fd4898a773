/** The graph traversals of digraph/util.go: the explicit-stack depth-first walk, reachability,
    and in-degrees. */
module Traversal {
  import opened Digraph
  import opened Lists

  /** What a recursive preorder walk leaves: the nodes seen, and the order the new ones were visited in. */
  datatype Trace = Trace(seen: set<Node>, order: seq<Node>)

  /** Recursive preorder depth-first search over a list of nodes; children are skipped where the
      callback answers false. */
  function Preorder(g: Graph, descend: Node -> bool, todo: seq<Node>, seen: set<Node>): (r: Trace)
    requires g.Closed() && forall n :: n in todo ==> n in g.edges
    ensures seen <= r.seen
    decreases g.edges.Keys - seen, |todo|
  {
    if todo == [] then Trace(seen, [])
    else if todo[0] in seen then Preorder(g, descend, todo[1..], seen)
    else
      var n := todo[0];
      var below := if descend(n) then Preorder(g, descend, g.edges[n], seen + {n}) else Trace(seen + {n}, []);
      var after := Preorder(g, descend, todo[1..], below.seen);
      Trace(after.seen, [n] + below.order + after.order)
  }

  lemma {:induction false} PreorderAppend(g: Graph, descend: Node -> bool, a: seq<Node>, b: seq<Node>, seen: set<Node>)
    requires g.Closed() && (forall n :: n in a ==> n in g.edges) && (forall n :: n in b ==> n in g.edges)
    ensures var first := Preorder(g, descend, a, seen);
      var second := Preorder(g, descend, b, first.seen);
      Preorder(g, descend, a + b, seen) == Trace(second.seen, first.order + second.order)
    decreases g.edges.Keys - seen, |a|
  {
    if a == [] {
      assert a + b == b;
    } else {
      assert (a + b)[1..] == a[1..] + b;
      if a[0] in seen {
        PreorderAppend(g, descend, a[1..], b, seen);
      } else {
        var n := a[0];
        var below := if descend(n) then Preorder(g, descend, g.edges[n], seen + {n}) else Trace(seen + {n}, []);
        PreorderAppend(g, descend, a[1..], b, below.seen);
      }
    }
  }

  /** The graph without the edges the callback prunes. */
  function Pruned(g: Graph, descend: Node -> bool): Graph {
    Graph(map n | n in g.edges :: if descend(n) then g.edges[n] else [])
  }

  lemma {:induction false} PreorderOnce(g: Graph, descend: Node -> bool, todo: seq<Node>, seen: set<Node>)
    requires g.Closed() && forall n :: n in todo ==> n in g.edges
    ensures var r := Preorder(g, descend, todo, seen);
      (forall v :: v in r.seen <==> v in seen || v in r.order) &&
      (forall v :: v in r.order ==> v !in seen && v in g.edges) &&
      Distinct(r.order)
    decreases g.edges.Keys - seen, |todo|
  {
    if todo != [] {
      if todo[0] in seen {
        PreorderOnce(g, descend, todo[1..], seen);
      } else {
        var n := todo[0];
        if descend(n) {
          PreorderOnce(g, descend, g.edges[n], seen + {n});
        }
        var below := if descend(n) then Preorder(g, descend, g.edges[n], seen + {n}) else Trace(seen + {n}, []);
        var after := Preorder(g, descend, todo[1..], below.seen);
        PreorderOnce(g, descend, todo[1..], below.seen);
        DistinctAppend([n], below.order);
        DistinctAppend([n] + below.order, after.order);
        assert Preorder(g, descend, todo, seen) == Trace(after.seen, [n] + below.order + after.order);
      }
    }
  }

  /** Everything listed is seen, and so are the children of every visited node the walk descends from. */
  lemma {:induction false} PreorderClosed(g: Graph, descend: Node -> bool, todo: seq<Node>, seen: set<Node>)
    requires g.Closed() && forall n :: n in todo ==> n in g.edges
    ensures var r := Preorder(g, descend, todo, seen);
      (forall v :: v in todo ==> v in r.seen) &&
      (forall v, w :: v in r.seen && v !in seen && Pruned(g, descend).Edge(v, w) ==> w in r.seen)
    decreases g.edges.Keys - seen, |todo|
  {
    if todo != [] {
      assert todo == [todo[0]] + todo[1..];
      if todo[0] in seen {
        PreorderClosed(g, descend, todo[1..], seen);
      } else {
        var n := todo[0];
        if descend(n) {
          PreorderClosed(g, descend, g.edges[n], seen + {n});
        }
        var below := if descend(n) then Preorder(g, descend, g.edges[n], seen + {n}) else Trace(seen + {n}, []);
        var after := Preorder(g, descend, todo[1..], below.seen);
        PreorderClosed(g, descend, todo[1..], below.seen);
        assert Preorder(g, descend, todo, seen) == Trace(after.seen, [n] + below.order + after.order);
      }
    }
  }

  ghost predicate FromAny(g: Graph, todo: seq<Node>, v: Node) {
    exists u :: u in todo && g.Reach(u, v)
  }

  lemma {:induction false} PreorderReached(g: Graph, descend: Node -> bool, todo: seq<Node>, seen: set<Node>, v: Node)
    requires g.Closed() && forall n :: n in todo ==> n in g.edges
    requires v in Preorder(g, descend, todo, seen).order
    ensures FromAny(Pruned(g, descend), todo, v)
    decreases g.edges.Keys - seen, |todo|
  {
    hide Graph.Reach;
    var h := Pruned(g, descend);
    if todo[0] in seen {
      PreorderReached(g, descend, todo[1..], seen, v);
    } else {
      var n := todo[0];
      var below := if descend(n) then Preorder(g, descend, g.edges[n], seen + {n}) else Trace(seen + {n}, []);
      ReachSelf(h, n);
      if v != n {
        if v in below.order {
          PreorderReached(g, descend, g.edges[n], seen + {n}, v);
          var u :| u in g.edges[n] && h.Reach(u, v);
          assert h.Edge(n, u);
          ReachEdge(h, n, u);
          ReachTrans(h, n, u, v);
        } else {
          PreorderReached(g, descend, todo[1..], below.seen, v);
        }
      }
    }
  }

  /** Preorder from one node visits each node the callback lets it reach, once. */
  lemma PreorderVisits(g: Graph, descend: Node -> bool, node: Node)
    requires g.Closed() && node in g.edges
    ensures var order := Preorder(g, descend, [node], {}).order;
      (forall v :: v in order <==> Pruned(g, descend).Reach(node, v)) &&
      Distinct(order)
  {
    hide Graph.Reach;
    var h := Pruned(g, descend);
    var r := Preorder(g, descend, [node], {});
    PreorderOnce(g, descend, [node], {});
    PreorderClosed(g, descend, [node], {});
    forall v
      ensures v in r.order <==> h.Reach(node, v)
    {
      if v in r.order {
        PreorderReached(g, descend, [node], {}, v);
      }
      if h.Reach(node, v) {
        ReachStaysInside(h, (iset u | u in r.seen), node, v);
      }
    }
  }

  /** Pushing the tails of the edges last to first leaves the first on top. */
  method PushReversed(frontier: seq<Node>, edges: seq<Node>) returns (r: seq<Node>)
    ensures Reversed(r) == edges + Reversed(frontier)
  {
    r := frontier;
    for i := |edges| downto 0
      invariant |r| == |frontier| + |edges| - i
      invariant forall k :: 0 <= k < |r| ==>
        r[k] == if k < |frontier| then frontier[k] else edges[|edges| - 1 - (k - |frontier|)]
    {
      r := r + [edges[i]];
    }
  }

  lemma PreorderFirst(g: Graph, descend: Node -> bool, n: Node, rest: seq<Node>, seen: set<Node>)
    requires g.Closed() && n in g.edges && forall m :: m in rest ==> m in g.edges
    ensures n in seen ==> Preorder(g, descend, [n] + rest, seen) == Preorder(g, descend, rest, seen)
    ensures n !in seen ==>
      var below := if descend(n) then Preorder(g, descend, g.edges[n], seen + {n}) else Trace(seen + {n}, []);
      Preorder(g, descend, [n] + rest, seen).order == [n] + below.order + Preorder(g, descend, rest, below.seen).order
  {
    assert ([n] + rest)[1..] == rest;
  }

  /** One round of the walk: what is left to do after visiting or skipping the top of the frontier. */
  lemma WalkStep(g: Graph, descend: Node -> bool, current: Node, rest: seq<Node>, seen: set<Node>)
    requires g.Closed() && current in g.edges && forall n :: n in rest ==> n in g.edges
    ensures Preorder(g, descend, [current] + rest, seen).order ==
      if current in seen then Preorder(g, descend, rest, seen).order
      else if !descend(current) then [current] + Preorder(g, descend, rest, seen + {current}).order
      else [current] + Preorder(g, descend, g.edges[current] + rest, seen + {current}).order
  {
    PreorderFirst(g, descend, current, rest, seen);
    hide Preorder;
    if current !in seen && descend(current) {
      PreorderAppend(g, descend, g.edges[current], rest, seen + {current});
    }
  }

  ghost predicate Within(g: Graph, frontier: seq<Node>) {
    forall n :: n in frontier ==> n in g.edges
  }

  /** What the walk still visits. */
  ghost function Left(g: Graph, descend: Node -> bool, frontier: seq<Node>, seen: set<Node>): seq<Node>
    requires g.Closed() && Within(g, frontier)
  {
    Preorder(g, descend, Reversed(frontier), seen).order
  }

  lemma Popped(g: Graph, descend: Node -> bool, frontier: seq<Node>, seen: set<Node>)
    requires g.Closed() && Within(g, frontier) && frontier != []
    ensures var current, popped := frontier[|frontier| - 1], frontier[..|frontier| - 1];
      current in g.edges && Within(g, popped) &&
      (current in seen ==> Left(g, descend, frontier, seen) == Left(g, descend, popped, seen)) &&
      (current !in seen && !descend(current) ==>
        Left(g, descend, frontier, seen) == [current] + Left(g, descend, popped, seen + {current}))
  {
    hide Preorder;
    WalkStep(g, descend, frontier[|frontier| - 1], Reversed(frontier[..|frontier| - 1]), seen);
  }

  lemma Pushed(g: Graph, descend: Node -> bool, frontier: seq<Node>, seen: set<Node>, pushed: seq<Node>)
    requires g.Closed() && Within(g, frontier) && frontier != []
    requires var current := frontier[|frontier| - 1];
      current !in seen && descend(current) &&
      Reversed(pushed) == g.edges[current] + Reversed(frontier[..|frontier| - 1])
    ensures Within(g, pushed)
    ensures var current := frontier[|frontier| - 1];
      Left(g, descend, frontier, seen) == [current] + Left(g, descend, pushed, seen + {current})
  {
    hide Preorder;
    WalkStep(g, descend, frontier[|frontier| - 1], Reversed(frontier[..|frontier| - 1]), seen);
    forall n | n in pushed
      ensures n in g.edges
    {
      assert n in Reversed(pushed);
    }
  }

  /** Returns the nodes in the order the callback is invoked on them; `descend` is what it answers. */
  method DepthFirstWalk(g: Graph, node: Node, descend: Node -> bool) returns (visited: seq<Node>)
    requires g.Closed() && node in g.edges
    ensures visited == Preorder(g, descend, [node], {}).order
  {
    var frontier := [node];
    var seen: set<Node> := {};
    visited := [];
    assert Within(g, frontier);
    assert Left(g, descend, frontier, seen) == Preorder(g, descend, [node], {}).order;
    hide *;
    while |frontier| > 0
      invariant Within(g, frontier)
      invariant visited + Left(g, descend, frontier, seen) == Preorder(g, descend, [node], {}).order
      decreases g.edges.Keys - seen, |frontier|
    {
      var current := frontier[|frontier| - 1];
      ghost var whole, before := frontier, seen;
      Popped(g, descend, whole, before);
      frontier := frontier[..|frontier| - 1];
      if current in seen {
        continue;
      }
      seen := seen + {current};
      visited := visited + [current];
      assert current in g.edges.Keys - before;
      if !descend(current) {
        continue;
      }
      frontier := PushReversed(frontier, g.edges[current]);
      Pushed(g, descend, whole, before, frontier);
    }
    EmptyWalk(g, descend, seen);
  }

  lemma EmptyWalk(g: Graph, descend: Node -> bool, seen: set<Node>)
    requires g.Closed()
    ensures Left(g, descend, [], seen) == []
  {
  }

  /** The nodes of the list that `start` does not reach, in their order. */
  ghost function Unreached(g: Graph, start: Node, nodes: seq<Node>): seq<Node> {
    if nodes == [] then [] else
      Unreached(g, start, nodes[..|nodes| - 1]) +
        if g.Reach(start, nodes[|nodes| - 1]) then [] else [nodes[|nodes| - 1]]
  }

  /** Everything seen or waiting is reachable, and edges from what is seen lead to what is seen or waiting. */
  ghost predicate Sweeping(g: Graph, start: Node, frontier: seq<Node>, seen: set<Node>) {
    (forall v :: v in frontier || v in seen ==> v in g.edges && g.Reach(start, v)) &&
    (forall v, w :: v in seen && g.Edge(v, w) ==> w in seen || w in frontier) &&
    (start in frontier || start in seen)
  }

  lemma SweepEnds(g: Graph, start: Node, seen: set<Node>, v: Node)
    requires Sweeping(g, start, [], seen)
    ensures v in seen <==> g.Reach(start, v)
  {
    hide Graph.Reach;
    if g.Reach(start, v) {
      ReachStaysInside(g, (iset u | u in seen), start, v);
    }
  }

  lemma SweepStep(g: Graph, start: Node, frontier: seq<Node>, seen: set<Node>, current: Node, next: seq<Node>)
    requires g.Closed() && Sweeping(g, start, frontier + [current], seen)
    requires forall v :: v in next <==> v in frontier || v in g.edges[current]
    ensures Sweeping(g, start, next, seen + {current})
  {
    hide Graph.Reach;
    assert current in frontier + [current];
    forall v | v in g.edges[current]
      ensures v in g.edges && g.Reach(start, v)
    {
      assert g.Edge(current, v);
      ReachEdge(g, current, v);
      ReachTrans(g, start, current, v);
    }
  }

  /** Starts at the given node, performs a depth-first search from there, and returns the unreachable nodes. */
  method Unreachable(g: Graph, start: Node, nodes: seq<Node>) returns (unseen: seq<Node>)
    requires g.Closed() && start in g.edges
    ensures unseen == Unreached(g, start, nodes)
  {
    hide Graph.Reach, Sweeping;
    var frontier := [start];
    var seen: set<Node> := {};
    SweepStart(g, start);
    while |frontier| > 0
      invariant Sweeping(g, start, frontier, seen)
      decreases g.edges.Keys - seen, |frontier|
    {
      var current := frontier[|frontier| - 1];
      ghost var was := frontier;
      frontier := frontier[..|frontier| - 1];
      assert was == frontier + [current];
      InGraph(g, start, was, seen, current);
      if current in seen {
        SweepSkip(g, start, frontier, seen, current);
        continue;
      }
      ghost var before := seen;
      seen := seen + {current};
      assert current in g.edges.Keys - before;
      ghost var rest := frontier;
      frontier := PushReversed(frontier, g.edges[current]);
      assert forall v :: v in Reversed(frontier) <==> v in Reversed(rest) || v in g.edges[current];
      SweepStep(g, start, rest, before, current, frontier);
    }
    assert frontier == [];
    unseen := [];
    for i := 0 to |nodes|
      invariant unseen == Unreached(g, start, nodes[..i])
    {
      assert nodes[..i + 1][..i] == nodes[..i];
      SweepEnds(g, start, seen, nodes[i]);
      if nodes[i] !in seen {
        unseen := unseen + [nodes[i]];
      }
    }
    assert nodes[..|nodes|] == nodes;
  }

  lemma SweepStart(g: Graph, start: Node)
    requires start in g.edges
    ensures Sweeping(g, start, [start], {})
  {
    ReachSelf(g, start);
  }

  lemma SweepSkip(g: Graph, start: Node, frontier: seq<Node>, seen: set<Node>, current: Node)
    requires Sweeping(g, start, frontier + [current], seen) && current in seen
    ensures Sweeping(g, start, frontier, seen)
  {
    hide Graph.Reach;
  }

  lemma InGraph(g: Graph, start: Node, frontier: seq<Node>, seen: set<Node>, v: Node)
    requires Sweeping(g, start, frontier, seen) && v in frontier
    ensures v in g.edges
  {
  }

  /** How many times v stands in the list. */
  function Occurrences(s: seq<Node>, v: Node): nat {
    if s == [] then 0 else Occurrences(s[..|s| - 1], v) + if s[|s| - 1] == v then 1 else 0
  }

  lemma {:induction false} OccurrencesAre(s: seq<Node>, v: Node)
    ensures Occurrences(s, v) == multiset(s)[v]
  {
    if s != [] {
      OccurrencesAre(s[..|s| - 1], v);
      assert s == s[..|s| - 1] + [s[|s| - 1]];
    }
  }

  /** How many edges of the listed nodes lead to v. */
  function InEdges(g: Graph, nodes: seq<Node>, v: Node): nat
    requires forall n :: n in nodes ==> n in g.edges
  {
    if nodes == [] then 0 else InEdges(g, nodes[..|nodes| - 1], v) + Occurrences(g.edges[nodes[|nodes| - 1]], v)
  }

  function Degree(degree: map<Node, nat>, v: Node): nat {
    if v in degree then degree[v] else 0
  }

  /** Counts the tails of one node's edges. */
  method CountTails(degree: map<Node, nat>, edges: seq<Node>) returns (r: map<Node, nat>)
    ensures forall v :: v in r <==> v in degree || Occurrences(edges, v) > 0
    ensures forall v :: v in r ==> r[v] == Degree(degree, v) + Occurrences(edges, v)
  {
    r := degree;
    for k := 0 to |edges|
      invariant forall v :: v in r <==> v in degree || Occurrences(edges[..k], v) > 0
      invariant forall v :: v in r ==> r[v] == Degree(degree, v) + Occurrences(edges[..k], v)
    {
      assert edges[..k + 1][..k] == edges[..k];
      var t := edges[k];
      r := r[t := Degree(r, t) + 1];
    }
    assert edges[..|edges|] == edges;
  }

  method InDegree(g: Graph, nodes: seq<Node>) returns (degree: map<Node, nat>)
    requires forall n :: n in nodes ==> n in g.edges
    ensures forall v :: v in degree <==> v in nodes || InEdges(g, nodes, v) > 0
    ensures forall v :: v in degree ==> degree[v] == InEdges(g, nodes, v)
  {
    degree := map[];
    for i := 0 to |nodes|
      invariant forall v :: v in degree <==> v in nodes[..i] || InEdges(g, nodes[..i], v) > 0
      invariant forall v :: v in degree ==> degree[v] == InEdges(g, nodes[..i], v)
    {
      var n := nodes[i];
      assert nodes[..i + 1][..i] == nodes[..i];
      if n !in degree {
        degree := degree[n := 0];
      }
      degree := CountTails(degree, g.edges[n]);
    }
    assert nodes[..|nodes|] == nodes;
  }

  /** The nodes with the desired degree; the order of a map's keys is arbitrary. */
  method FilterDegree(degree: nat, degrees: map<Node, nat>) returns (matching: seq<Node>)
    ensures Distinct(matching)
    ensures forall v :: v in matching <==> v in degrees && degrees[v] == degree
  {
    matching := [];
    var todo := degrees.Keys;
    while todo != {}
      invariant todo <= degrees.Keys && Distinct(matching)
      invariant forall v :: v in matching <==> v in degrees.Keys - todo && degrees[v] == degree
    {
      var n :| n in todo;
      todo := todo - {n};
      if degrees[n] == degree {
        DistinctAppend(matching, [n]);
        matching := matching + [n];
      }
    }
  }

  lemma {:induction false} OccurrencesZero(s: seq<Node>, v: Node)
    ensures Occurrences(s, v) == 0 <==> v !in s
  {
    if s != [] {
      assert s == s[..|s| - 1] + [s[|s| - 1]];
      OccurrencesZero(s[..|s| - 1], v);
    }
  }

  lemma {:induction false} InEdgesZero(g: Graph, nodes: seq<Node>, v: Node)
    requires forall n :: n in nodes ==> n in g.edges
    ensures InEdges(g, nodes, v) == 0 <==> NoEdgeInto(g, nodes, v)
  {
    if nodes != [] {
      var init, last := nodes[..|nodes| - 1], nodes[|nodes| - 1];
      assert nodes == init + [last];
      InEdgesZero(g, init, v);
      OccurrencesZero(g.edges[last], v);
      assert last in nodes && forall u :: u in init ==> u in nodes;
    }
  }

  ghost predicate NoEdgeInto(g: Graph, nodes: seq<Node>, v: Node) {
    forall u :: u in nodes ==> !g.Edge(u, v)
  }

  /** The nodes no listed node leads to. */
  method Sources(g: Graph, nodes: seq<Node>) returns (r: seq<Node>)
    requires forall n :: n in nodes ==> n in g.edges
    ensures Distinct(r)
    ensures forall v :: v in r <==> v in nodes && NoEdgeInto(g, nodes, v)
  {
    var degree := InDegree(g, nodes);
    r := FilterDegree(0, degree);
    forall v
      ensures InEdges(g, nodes, v) == 0 <==> NoEdgeInto(g, nodes, v)
    {
      InEdgesZero(g, nodes, v);
    }
  }
}
