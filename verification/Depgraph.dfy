/** Dependency graphs of nouns (depgraph/graph.go): validation and constraint checking. */
module Depgraph {
  import opened Digraph
  import opened Wrappers
  import opened Lists
  import opened Tarjan
  import opened Traversal

  /** An opaque constraint between two nouns; what it answers is given by a `Checker`. */
  datatype Constraint = Constraint(id: nat)

  /** `Satisfied(head, tail)`: whether the constraint holds, and the error to report when it does not. */
  type Checker = (Constraint, Node, Node) -> (bool, string)

  datatype Dependency = Dependency(constraints: seq<Constraint>, source: Node, target: Node)

  datatype Violation = Violation(source: Node, target: Node, dependency: Dependency, constraint: Constraint,
    err: string)

  datatype ValidateError = ValidateError(missingRoot: bool, unreachable: seq<Node>, cycles: seq<seq<Node>>)

  datatype ConstraintsResult = NotValidated | Violated(violations: seq<Violation>) | AllSatisfied

  function Targets(deps: seq<Dependency>): (r: seq<Node>)
    ensures |r| == |deps| && forall i :: 0 <= i < |deps| ==> r[i] == deps[i].target
  {
    seq(|deps|, i requires 0 <= i < |deps| => deps[i].target)
  }

  /** The digraph the nouns and their dependencies form. */
  function AsDigraph(deps: map<Node, seq<Dependency>>): Graph {
    Digraph.Graph(map n | n in deps :: Targets(deps[n]))
  }

  /** Each dependency belongs to its source, and leads to a noun of the graph. */
  ghost predicate WellFormed(nouns: seq<Node>, deps: map<Node, seq<Dependency>>) {
    (forall n :: n in nouns <==> n in deps) &&
    (forall n, i :: n in deps && 0 <= i < |deps[n]| ==> deps[n][i].source == n && deps[n][i].target in deps)
  }

  /** Nothing depends on v. */
  ghost predicate IsSource(g: Graph, v: Node) {
    v in g.edges && forall u :: !g.Edge(u, v)
  }

  /** There is exactly one noun nothing depends on. */
  ghost predicate SingleRoot(g: Graph, root: Node) {
    IsSource(g, root) && forall v :: IsSource(g, v) ==> v == root
  }

  /** The nodes with a path of at least one edge to v. */
  ghost function Ancestors(g: Graph, v: Node): set<Node> {
    set u | u in g.edges && exists w :: g.Edge(u, w) && g.Reach(w, v)
  }

  lemma AncestorsShrink(g: Graph, p: Node, v: Node)
    requires !g.Cyclic() && g.Edge(p, v)
    ensures Ancestors(g, p) < Ancestors(g, v)
  {
    hide Graph.Reach;
    ReachSelf(g, v);
    assert p in Ancestors(g, v);
    forall u | u in Ancestors(g, p)
      ensures u in Ancestors(g, v)
    {
      var w :| g.Edge(u, w) && g.Reach(w, p);
      ReachEdge(g, p, v);
      ReachTrans(g, w, p, v);
    }
    assert p !in Ancestors(g, p);
  }

  /** An acyclic graph with one source has no unreachable noun. */
  lemma {:induction false} RootReachesAll(g: Graph, root: Node, v: Node)
    requires !g.Cyclic() && SingleRoot(g, root) && v in g.edges
    ensures g.Reach(root, v)
    decreases Ancestors(g, v)
  {
    hide Graph.Reach;
    if IsSource(g, v) {
      ReachSelf(g, v);
    } else {
      var p :| g.Edge(p, v);
      AncestorsShrink(g, p, v);
      RootReachesAll(g, root, p);
      ReachEdge(g, p, v);
      ReachTrans(g, root, p, v);
    }
  }

  ghost predicate SelfLoop(g: Graph, v: Node) {
    g.Edge(v, v)
  }

  /** The two cycle checks together find every cycle: a component of two or more, or a noun depending on itself. */
  lemma CyclesFound(g: Graph, nodes: seq<Node>, r: seq<seq<Node>>)
    requires IsAnswer(g, nodes, true, r) && forall n :: n in nodes <==> n in g.edges
    ensures g.Cyclic() <==> r != [] || exists v :: SelfLoop(g, v)
  {
    hide Graph.Reach, Behind;
    if r != [] {
      var a, b := r[0][0], r[0][1];
      assert g.Mutual(a, b) && a != b;
      TwoOnACycle(g, a, b);
    }
    if v :| SelfLoop(g, v) {
      ReachSelf(g, v);
    }
    if g.Cyclic() {
      var a, b :| g.Edge(a, b) && g.Reach(b, a);
      if a == b {
        assert SelfLoop(g, a);
      } else {
        ReachEdge(g, a, b);
        ReachSelf(g, a);
        assert FromInput(g, nodes, a);
        assert g.Mutual(a, b);
        assert !g.IsScc([a]);
        assert Covered(r, a);
      }
    }
  }

  lemma TwoOnACycle(g: Graph, a: Node, b: Node)
    requires g.Mutual(a, b) && a != b
    ensures g.Cyclic()
  {
    var p :| g.IsWalk(p, a, b);
    var c := p[1];
    assert g.Edge(p[0], c);
    assert g.IsWalk(p[1..], c, b);
    ReachTrans(g, c, b, a);
  }

  /** One position where a constraint is checked. */
  datatype Place = Place(noun: Node, dep: nat, constraint: nat)

  ghost predicate IsPlace(deps: map<Node, seq<Dependency>>, p: Place) {
    p.noun in deps && p.dep < |deps[p.noun]| && p.constraint < |deps[p.noun][p.dep].constraints|
  }

  ghost predicate Broken(deps: map<Node, seq<Dependency>>, check: Checker, p: Place)
    requires IsPlace(deps, p)
  {
    var d := deps[p.noun][p.dep];
    !check(d.constraints[p.constraint], p.noun, d.target).0
  }

  /** The violation names the noun and the one it depends on, the dependency, the constraint and its error. */
  ghost predicate Reported(deps: map<Node, seq<Dependency>>, check: Checker, p: Place, v: Violation)
    requires IsPlace(deps, p)
  {
    v.source == p.noun && v.dependency == deps[p.noun][p.dep] && v.target == v.dependency.target &&
    v.constraint == v.dependency.constraints[p.constraint] && v.err == check(v.constraint, v.source, v.target).1
  }

  /** The violations are the reports of the listed broken places, each listed once. */
  ghost predicate Reports(deps: map<Node, seq<Dependency>>, check: Checker, vs: seq<Violation>, ps: seq<Place>) {
    |vs| == |ps| && Distinct(ps) &&
    forall i :: 0 <= i < |ps| ==>
      IsPlace(deps, ps[i]) && Broken(deps, check, ps[i]) && Reported(deps, check, ps[i], vs[i])
  }

  lemma ReportsAppend(deps: map<Node, seq<Dependency>>, check: Checker, vs: seq<Violation>, ps: seq<Place>,
      ws: seq<Violation>, qs: seq<Place>)
    requires Reports(deps, check, vs, ps) && Reports(deps, check, ws, qs) && Disjoint(ps, qs)
    ensures Reports(deps, check, vs + ws, ps + qs)
  {
    hide IsPlace, Broken, Reported;
    DistinctAppend(ps, qs);
  }

  /** The callback on one dependency of a noun. */
  method CheckDependency(deps: map<Node, seq<Dependency>>, check: Checker, n: Node, i: nat)
    returns (vs: seq<Violation>, ghost ps: seq<Place>)
    requires n in deps && i < |deps[n]|
    ensures Reports(deps, check, vs, ps)
    ensures forall p :: p in ps <==> p.noun == n && p.dep == i && IsPlace(deps, p) && Broken(deps, check, p)
  {
    vs, ps := [], [];
    var dep := deps[n][i];
    for k := 0 to |dep.constraints|
      invariant Reports(deps, check, vs, ps)
      invariant forall p :: p in ps <==>
        p.noun == n && p.dep == i && p.constraint < k && IsPlace(deps, p) && Broken(deps, check, p)
    {
      var constraint := dep.constraints[k];
      var (ok, err) := check(constraint, n, dep.target);
      if ok {
        continue;
      }
      ghost var p := Place(n, i, k);
      ReportsAppend(deps, check, vs, ps, [Violation(n, dep.target, dep, constraint, err)], [p]);
      vs := vs + [Violation(n, dep.target, dep, constraint, err)];
      ps := ps + [p];
    }
  }

  /** The callback on one noun. */
  method CheckNoun(deps: map<Node, seq<Dependency>>, check: Checker, n: Node)
    returns (vs: seq<Violation>, ghost ps: seq<Place>)
    requires n in deps
    ensures Reports(deps, check, vs, ps)
    ensures forall p :: p in ps <==> p.noun == n && IsPlace(deps, p) && Broken(deps, check, p)
    ensures vs == [] <==> NothingBroken(deps, check, n)
  {
    hide Reports;
    vs, ps := [], [];
    NoReports(deps, check);
    for i := 0 to |deps[n]|
      invariant Reports(deps, check, vs, ps)
      invariant forall p :: p in ps <==> p.noun == n && p.dep < i && IsPlace(deps, p) && Broken(deps, check, p)
    {
      var ws, qs := CheckDependency(deps, check, n, i);
      ReportsAppend(deps, check, vs, ps, ws, qs);
      vs, ps := vs + ws, ps + qs;
    }
    SameCount(deps, check, vs, ps);
    assert vs != [] ==> ps[0] in ps;
  }

  ghost predicate NothingBroken(deps: map<Node, seq<Dependency>>, check: Checker, n: Node) {
    forall p: Place :: p.noun == n && IsPlace(deps, p) ==> !Broken(deps, check, p)
  }

  lemma SameCount(deps: map<Node, seq<Dependency>>, check: Checker, vs: seq<Violation>, ps: seq<Place>)
    requires Reports(deps, check, vs, ps)
    ensures |vs| == |ps|
  {
  }

  lemma NoReports(deps: map<Node, seq<Dependency>>, check: Checker)
    ensures Reports(deps, check, [], [])
  {
  }

  /** The violations are exactly one per broken place of a noun the root reaches. */
  ghost predicate ReportsAll(g: Graph, deps: map<Node, seq<Dependency>>, check: Checker, root: Node,
      vs: seq<Violation>) {
    exists ps :: Reports(deps, check, vs, ps) && ListsBroken(g, deps, check, root, ps)
  }

  ghost predicate ListsBroken(g: Graph, deps: map<Node, seq<Dependency>>, check: Checker, root: Node, ps: seq<Place>) {
    forall p :: p in ps <==> IsPlace(deps, p) && g.Reach(root, p.noun) && Broken(deps, check, p)
  }

  ghost predicate AllHold(g: Graph, deps: map<Node, seq<Dependency>>, check: Checker, root: Node) {
    forall p :: IsPlace(deps, p) && g.Reach(root, p.noun) ==> !Broken(deps, check, p)
  }

  lemma WholeWalk(g: Graph, root: Node)
    requires g.Closed() && root in g.edges
    ensures var order := Preorder(g, _ => true, [root], {}).order;
      (forall v :: v in order <==> g.Reach(root, v)) && (forall v :: v in order ==> v in g.edges) && Distinct(order)
  {
    hide Graph.Reach;
    PreorderVisits(g, _ => true, root);
    PreorderOnce(g, _ => true, [root], {});
    assert Pruned(g, _ => true) == g;
  }

  lemma ListedSource(g: Graph, nodes: seq<Node>, v: Node)
    requires forall n :: n in nodes <==> n in g.edges
    ensures v in nodes && NoEdgeInto(g, nodes, v) <==> IsSource(g, v)
  {
  }

  /** One source in the list is one root of the graph. */
  lemma SourcesAreRoots(g: Graph, nodes: seq<Node>, sources: seq<Node>)
    requires Distinct(sources) && (forall n :: n in nodes <==> n in g.edges)
    requires forall v :: v in sources <==> v in nodes && NoEdgeInto(g, nodes, v)
    ensures |sources| == 1 <==> exists s :: SingleRoot(g, s)
    ensures |sources| == 1 ==> SingleRoot(g, sources[0])
  {
    hide NoEdgeInto, IsSource;
    forall v
      ensures v in sources <==> IsSource(g, v)
    {
      ListedSource(g, nodes, v);
    }
    if s :| SingleRoot(g, s) {
      assert s in sources;
      assert forall i :: 0 <= i < |sources| ==> sources[i] in sources;
      assert |sources| > 1 ==> sources[0] == s && sources[1] == s;
    }
    assert |sources| == 1 ==> sources[0] in sources && SingleRoot(g, sources[0]);
  }

  lemma {:induction false} UnreachedNone(g: Graph, start: Node, nodes: seq<Node>)
    ensures Unreached(g, start, nodes) == [] <==> forall v :: v in nodes ==> g.Reach(start, v)
  {
    hide Graph.Reach;
    if nodes != [] {
      assert nodes == nodes[..|nodes| - 1] + [nodes[|nodes| - 1]];
      UnreachedNone(g, start, nodes[..|nodes| - 1]);
    }
  }

  lemma NoneUnreached(g: Graph, root: Node, nodes: seq<Node>)
    requires !g.Cyclic() && SingleRoot(g, root) && forall n :: n in nodes ==> n in g.edges
    ensures Unreached(g, root, nodes) == [] && forall v :: v in nodes ==> g.Reach(root, v)
  {
    hide Graph.Reach, Graph.Cyclic, Unreached;
    UnreachedNone(g, root, nodes);
    forall v | v in nodes
      ensures g.Reach(root, v)
    {
      RootReachesAll(g, root, v);
    }
  }

  /** One single-noun group for every dependency of the noun on itself. */
  method LoopsOf(n: Node, deps: seq<Dependency>) returns (r: seq<seq<Node>>)
    requires forall i :: 0 <= i < |deps| ==> deps[i].source == n
    ensures r != [] <==> n in Targets(deps)
    ensures forall c :: c in r ==> c == [n]
  {
    r := [];
    for j := 0 to |deps|
      invariant r != [] <==> n in Targets(deps)[..j]
      invariant forall c :: c in r ==> c == [n]
    {
      var d := deps[j];
      if d.source == d.target {
        r := r + [[n]];
      }
    }
    assert Targets(deps)[..|deps|] == Targets(deps);
  }

  /** The listed nouns that depend on themselves, each by itself, and nothing else. */
  ghost predicate LoopsAmong(g: Graph, nouns: seq<Node>, loops: seq<seq<Node>>) {
    (forall c :: c in loops ==> |c| == 1 && SelfLoop(g, c[0])) &&
      (forall v :: v in nouns && SelfLoop(g, v) ==> [v] in loops)
  }

  lemma OneNoun(nouns: seq<Node>, deps: map<Node, seq<Dependency>>, i: nat, loops: seq<seq<Node>>)
    requires WellFormed(nouns, deps) && i < |nouns| && (forall c :: c in loops ==> c == [nouns[i]])
    requires loops != [] <==> nouns[i] in Targets(deps[nouns[i]])
    ensures LoopsAmong(AsDigraph(deps), [nouns[i]], loops)
  {
    if loops != [] {
      assert loops[0] in loops;
    }
  }

  lemma MoreNouns(g: Graph, a: seq<Node>, r: seq<seq<Node>>, b: seq<Node>, s: seq<seq<Node>>)
    requires LoopsAmong(g, a, r) && LoopsAmong(g, b, s)
    ensures LoopsAmong(g, a + b, r + s)
  {
    hide SelfLoop;
  }

  lemma AllNouns(nouns: seq<Node>, deps: map<Node, seq<Dependency>>, r: seq<seq<Node>>)
    requires WellFormed(nouns, deps) && LoopsAmong(AsDigraph(deps), nouns, r)
    ensures ListsLoops(AsDigraph(deps), r) && (r != [] <==> exists v :: SelfLoop(AsDigraph(deps), v))
  {
    assert forall v :: SelfLoop(AsDigraph(deps), v) ==> v in nouns;
    hide SelfLoop;
    if r != [] {
      assert r[0] in r;
    }
  }

  method SelfLoops(nouns: seq<Node>, deps: map<Node, seq<Dependency>>) returns (r: seq<seq<Node>>)
    requires WellFormed(nouns, deps)
    ensures ListsLoops(AsDigraph(deps), r)
    ensures r != [] <==> exists v :: SelfLoop(AsDigraph(deps), v)
  {
    r := [];
    for i := 0 to |nouns|
      invariant LoopsAmong(AsDigraph(deps), nouns[..i], r)
    {
      var loops := LoopsOf(nouns[i], deps[nouns[i]]);
      OneNoun(nouns, deps, i, loops);
      hide LoopsAmong;
      MoreNouns(AsDigraph(deps), nouns[..i], r, [nouns[i]], loops);
      assert nouns[..i + 1] == nouns[..i] + [nouns[i]];
      r := r + loops;
    }
    assert nouns[..|nouns|] == nouns;
    AllNouns(nouns, deps, r);
  }

  /** Every noun that depends on itself, by itself, and nothing else. */
  ghost predicate ListsLoops(g: Graph, loops: seq<seq<Node>>) {
    (forall c :: c in loops ==> |c| == 1 && SelfLoop(g, c[0])) && (forall v :: SelfLoop(g, v) ==> [v] in loops)
  }

  /** First the components of two or more nouns, then the nouns that depend on themselves. */
  ghost predicate ListsCycles(g: Graph, nouns: seq<Node>, cycles: seq<seq<Node>>) {
    exists k :: 0 <= k <= |cycles| && IsAnswer(g, nouns, true, cycles[..k]) && ListsLoops(g, cycles[k..])
  }

  /** No violations exactly when every constraint of every reachable noun holds. */
  lemma Verdict(g: Graph, deps: map<Node, seq<Dependency>>, check: Checker, root: Node, vs: seq<Violation>,
      ps: seq<Place>)
    requires Reports(deps, check, vs, ps) && ListsBroken(g, deps, check, root, ps)
    ensures ReportsAll(g, deps, check, root, vs)
    ensures vs == [] <==> AllHold(g, deps, check, root)
  {
    hide Graph.Reach;
    if vs != [] {
      assert ps[0] in ps;
    }
  }

  class DepGraph {
    var Nouns: seq<Node>
    var Deps: map<Node, seq<Dependency>>
    var Root: Option<Node>

    constructor (nouns: seq<Node>, deps: map<Node, seq<Dependency>>)
      ensures Nouns == nouns && Deps == deps && Root == None
    {
      Nouns, Deps, Root := nouns, deps, None;
    }

    ghost predicate Valid()
      reads this
    {
      WellFormed(Nouns, Deps) && (Root.Some? ==> Root.value in Deps)
    }

    function AsGraph(): Graph
      reads this
    {
      AsDigraph(Deps)
    }

    method CheckConstraints(check: Checker) returns (r: ConstraintsResult)
      requires Valid()
      ensures r.NotValidated? <==> Root.None?
      ensures r.Violated? ==> r.violations != [] && ReportsAll(AsGraph(), Deps, check, Root.value, r.violations)
      ensures Root.Some? ==> (r.AllSatisfied? <==> AllHold(AsGraph(), Deps, check, Root.value))
    {
      if Root.None? {
        return NotValidated;
      }
      hide Graph.Reach, Reports, Preorder, AllHold, ReportsAll;
      var g := AsGraph();
      var visited := DepthFirstWalk(g, Root.value, _ => true);
      WholeWalk(g, Root.value);
      var vs: seq<Violation> := [];
      ghost var ps: seq<Place> := [];
      NoReports(Deps, check);
      for i := 0 to |visited|
        invariant Reports(Deps, check, vs, ps)
        invariant forall p :: p in ps <==> p.noun in visited[..i] && IsPlace(Deps, p) && Broken(Deps, check, p)
      {
        assert visited[i] in visited && visited[i] !in visited[..i];
        var ws, qs := CheckNoun(Deps, check, visited[i]);
        ReportsAppend(Deps, check, vs, ps, ws, qs);
        vs, ps := vs + ws, ps + qs;
      }
      assert visited[..|visited|] == visited;
      assert ListsBroken(g, Deps, check, Root.value, ps);
      Verdict(g, Deps, check, Root.value, vs, ps);
      r := if vs != [] then Violated(vs) else AllSatisfied;
    }

    /** Nil exactly on a graph with a single source and no cycle; every noun is then reachable from the
        source, which becomes the root. */
    method Validate() returns (r: Option<ValidateError>)
      requires Valid()
      modifies this`Root
      ensures Valid()
      ensures r.None? <==> !AsGraph().Cyclic() && exists s :: SingleRoot(AsGraph(), s)
      ensures r.None? ==>
        Root.Some? && SingleRoot(AsGraph(), Root.value) && forall v :: v in Nouns ==> AsGraph().Reach(Root.value, v)
      ensures r.Some? ==> (r.value.missingRoot <==> !exists s :: SingleRoot(AsGraph(), s))
      ensures r.Some? && r.value.missingRoot ==> Root == old(Root) && r.value.unreachable == []
      ensures r.Some? && !r.value.missingRoot ==>
        Root.Some? && SingleRoot(AsGraph(), Root.value) &&
          r.value.unreachable == Unreached(AsGraph(), Root.value, Nouns)
      ensures r.Some? ==>
        (r.value.cycles != [] <==> AsGraph().Cyclic()) && ListsCycles(AsGraph(), Nouns, r.value.cycles)
    {
      hide Graph.Reach, Graph.Cyclic, IsAnswer, Unreached, SingleRoot, IsSource, SelfLoop, ListsLoops;
      var g := AsGraph();
      var vErr := ValidateError(false, [], []);
      var sources := Sources(g, Nouns);
      SourcesAreRoots(g, Nouns, sources);
      if |sources| != 1 {
        vErr := vErr.(missingRoot := true);
      } else {
        assert sources[0] in sources;
        Root := Some(sources[0]);
        var unreached := Unreachable(g, sources[0], Nouns);
        vErr := vErr.(unreachable := unreached);
        if !g.Cyclic() {
          NoneUnreached(g, sources[0], Nouns);
        }
      }
      var cycles := StronglyConnectedComponents(g, Nouns, true);
      CyclesFound(g, Nouns, cycles);
      var loops := SelfLoops(Nouns, Deps);
      vErr := vErr.(cycles := cycles + loops);
      assert (cycles + loops)[..|cycles|] == cycles && (cycles + loops)[|cycles|..] == loops;
      if vErr.missingRoot || vErr.unreachable != [] || vErr.cycles != [] {
        return Some(vErr);
      }
      return None;
    }
  }
}
