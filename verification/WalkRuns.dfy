/** What every run of the concurrent walk promises: order, failures, termination (depgraph/graph.go). */
module WalkRuns {
  import opened Digraph
  import opened Lists
  import opened Walk

  // ---- What the walk promises ----

  /** Every goroutine the walk started has ended. */
  ghost predicate Finished(s: State) {
    s.main.Returned? && !s.draining
  }

  /** Before any callback fails, a callback begins only after those of all its transitive dependencies ended. */
  lemma {:induction false} CalledAfterDependencies(g: Graph, log: seq<Event>, k: nat, n: Node, p: seq<Node>, d: Node)
    requires forall j :: 0 <= j < |log| ==> EventInv(g, log, j)
    requires k < |log| && log[k] == CallStart(n) && Clean(log[..k])
    requires g.IsWalk(p, n, d) && |p| >= 2
    ensures CallEnd(d, true) in log[..k]
    decreases |p|
  {
    var x := p[1];
    assert g.Edge(p[0], x);
    assert EventInv(g, log, k);
    if |p| > 2 {
      var i :| 0 <= i < k && log[i] == CallEnd(x, true);
      assert EventInv(g, log, i);
      var j :| 0 <= j < i && log[j] == CallStart(x);
      assert Clean(log[..j]) by {
        assert forall e :: e in log[..j] ==> e in log[..k];
      }
      assert g.IsWalk(p[1..], x, d);
      CalledAfterDependencies(g, log, j, x, p[1..], d);
    }
  }

  /** In every run: while no callback has failed, each callback begins after those of all transitive dependencies
      ended. */
  lemma WalkIsOrdered(g: Graph, root: Node, run: seq<State>, i: nat, k: nat, n: Node, d: Node)
    requires g.Closed() && root in g.edges && !g.Cyclic() && IsRun(g, root, run) && i < |run|
    requires k < |run[i].log| && run[i].log[k] == CallStart(n) && Clean(run[i].log[..k])
    requires g.Reach(n, d) && n != d
    ensures CallEnd(d, true) in run[i].log[..k]
  {
    RunKeeps(g, root, run, i);
    var p :| g.IsWalk(p, n, d);
    CalledAfterDependencies(g, run[i].log, k, n, p, d);
  }

  /** In every run: no callback begins or ends twice. */
  lemma WalkCallsOnce(g: Graph, root: Node, run: seq<State>, i: nat)
    requires g.Closed() && root in g.edges && IsRun(g, root, run) && i < |run|
    ensures Distinct(run[i].log)
  {
    RunKeeps(g, root, run, i);
  }

  /** In every run: nobody is about to send, or will ever send, on the closed error channel. */
  lemma WalkNeverSendsOnClosed(g: Graph, root: Node, run: seq<State>, i: nat, n: Node)
    requires g.Closed() && root in g.edges && IsRun(g, root, run) && i < |run|
    requires run[i].errClosed && n in run[i].workers
    ensures run[i].workers[n] == Closed
  {
    RunKeeps(g, root, run, i);
  }

  lemma AllSpawned(g: Graph, root: Node, s: State, n: Node)
    requires SpawnInv(g, root, s) && !BeforeSelect(s.main)
    ensures n in s.workers <==> g.Reach(root, n)
    ensures n in s.seen <==> n in s.workers
    ensures n in s.workers ==> n in g.edges && forall j :: 0 <= j < |g.edges[n]| ==> g.edges[n][j] in s.workers
  {
    hide Graph.Reach;
    if g.Reach(root, n) {
      forall v, w | v in (iset u | u in s.seen) && g.Edge(v, w)
        ensures w in s.seen
      {
        var j :| 0 <= j < |g.edges[v]| && g.edges[v][j] == w;
      }
      ReachStaysInside(g, (iset u | u in s.seen), root, n);
    }
  }

  /** In every run: the walk returns nil exactly when no callback failed, and otherwise an error a callback returned. */
  lemma WalkReportsFailure(g: Graph, root: Node, run: seq<State>, i: nat)
    requires g.Closed() && root in g.edges && IsRun(g, root, run) && i < |run| && run[i].main.Returned?
    ensures run[i].main.result.None? <==> Clean(run[i].log)
    ensures run[i].main.result.Some? ==> Failed(run[i], run[i].main.result.value)
  {
    RunKeeps(g, root, run, i);
    hide Graph.Reach, LogInv;
    var s := run[i];
    forall n | CallEnd(n, false) in s.log
      ensures s.main.result.Some?
    {
      assert Failed(s, n);
      assert WorkerInv(g, s, n);
    }
    assert s.main.result.Some? ==> CallEnd(s.main.result.value, false) in s.log;
  }

  /** In every run: a noun one of whose direct dependencies failed is never called back. */
  lemma WalkSkipsFailed(g: Graph, root: Node, run: seq<State>, i: nat, n: Node, d: Node)
    requires g.Closed() && root in g.edges && IsRun(g, root, run) && i < |run|
    requires Started(run[i], n) && g.Edge(n, d)
    ensures !Failed(run[i], d)
  {
    RunKeeps(g, root, run, i);
    NotFailedBelow(g, run[i], n, d);
  }

  lemma NotFailedBelow(g: Graph, s: State, n: Node, d: Node)
    requires WorkersInv(g, s) && Started(s, n) && g.Edge(n, d)
    ensures !Failed(s, d)
  {
    var j :| 0 <= j < |g.edges[n]| && g.edges[n][j] == d;
    assert Passed(s, g.edges[n][j]);
    assert Outcome(g, s, d);
  }

  ghost predicate DependencyFailed(g: Graph, s: State, n: Node) {
    exists d :: g.Edge(n, d) && Failed(s, d)
  }

  /** Once the walk has returned: exactly the reachable nouns none of whose direct dependencies failed were called
      back. */
  lemma WalkCallsExactly(g: Graph, root: Node, run: seq<State>, i: nat, n: Node)
    requires g.Closed() && root in g.edges && IsRun(g, root, run) && i < |run| && run[i].main.Returned?
    ensures Started(run[i], n) <==> g.Reach(root, n) && !DependencyFailed(g, run[i], n)
  {
    RunKeeps(g, root, run, i);
    hide Graph.Reach, LogInv;
    var s := run[i];
    AllSpawned(g, root, s, n);
    if Started(s, n) {
      forall d | g.Edge(n, d)
        ensures !Failed(s, d)
      {
        NotFailedBelow(g, s, n, d);
      }
    } else if n in s.workers {
      assert Outcome(g, s, n);
      var d :| SkippedFor(g, s, n, d);
      assert Failed(s, d);
    }
  }

  // ---- It never gets stuck, and it ends ----

  /** The nodes at the end of a path of at least one edge from n. */
  ghost function Descendants(g: Graph, n: Node): set<Node> {
    set v | v in g.edges && exists w :: g.Edge(n, w) && g.Reach(w, v)
  }

  lemma DescendantsShrink(g: Graph, n: Node, d: Node)
    requires !g.Cyclic() && g.Edge(n, d) && d in g.edges
    ensures Descendants(g, d) < Descendants(g, n)
  {
    hide Graph.Reach;
    ReachSelf(g, d);
    assert d in Descendants(g, n);
    forall v | v in Descendants(g, d)
      ensures v in Descendants(g, n)
    {
      var w :| g.Edge(d, w) && g.Reach(w, v);
      ReachEdge(g, d, w);
      ReachTrans(g, d, w, v);
    }
    assert d !in Descendants(g, d);
  }

  /** The goroutine waits for the channel of a dependency that is still open. */
  ghost predicate BlockedOn(g: Graph, s: State, n: Node, d: Node) {
    g.Edge(n, d) && d in s.workers && s.workers[d] != Closed
  }

  lemma MovesOrBlocked(g: Graph, s: State, n: Node)
    requires n in s.workers && n in g.edges && WorkerInv(g, s, n) && s.workers[n] != Closed && s.workers[n] != Sending
    requires forall j :: 0 <= j < |g.edges[n]| ==> g.edges[n][j] in s.workers
    ensures (exists step :: Enabled(g, s, step)) || (exists d :: BlockedOn(g, s, n, d))
  {
    var w := s.workers[n];
    if w.Waiting? && w.i == |g.edges[n]| {
      assert Enabled(g, s, Begin(n));
    } else if w.Waiting? && s.workers[g.edges[n][w.i]] == Closed {
      assert Enabled(g, s, Wait(n));
    } else if w.Waiting? {
      assert BlockedOn(g, s, n, g.edges[n][w.i]);
    } else if w.Checking? {
      assert Enabled(g, s, Check(n));
    } else if w.Calling? {
      assert Enabled(g, s, Finish(n, true));
    } else if w.CallFailed? {
      assert Enabled(g, s, Record(n));
    } else {
      assert Enabled(g, s, Close(n));
    }
  }

  /** Some goroutine below an unfinished one can move, unless one is blocked handing over an error. */
  lemma {:induction false} SomeoneCanMove(g: Graph, root: Node, s: State, n: Node)
    requires g.Closed() && !g.Cyclic() && Inv(g, root, s) && !BeforeSelect(s.main)
    requires n in s.workers && s.workers[n] != Closed && forall m :: !At(s, m, Sending)
    ensures exists step :: Enabled(g, s, step)
    decreases Descendants(g, n)
  {
    hide Graph.Reach, LogInv, WatchInv, ChannelInv, SpawnInv, Graph.Cyclic, Enabled, Descendants, WorkerInv;
    AllSpawned(g, root, s, n);
    assert !At(s, n, Sending);
    MovesOrBlocked(g, s, n);
    if d :| BlockedOn(g, s, n, d) {
      AllSpawned(g, root, s, d);
      DescendantsShrink(g, n, d);
      SomeoneCanMove(g, root, s, d);
    }
  }

  ghost function Listed(s: set<Node>): (r: seq<Node>)
    ensures |r| == |s| && forall n :: n in r <==> n in s
  {
    if s == {} then [] else var n :| n in s; [n] + Listed(s - {n})
  }

  /** With main in its select or waiting for doneCh, somebody can move. */
  lemma SelectCanMove(g: Graph, root: Node, s: State)
    requires g.Closed() && !g.Cyclic() && Inv(g, root, s) && (s.main.Selecting? || s.main.Joining?)
    ensures exists step :: Enabled(g, s, step)
  {
    hide Graph.Reach, LogInv, WorkersInv, Graph.Cyclic, Distinct;
    if m :| At(s, m, Sending) {
      assert Enabled(g, s, if s.main.Selecting? then Receive(m) else Drain(m));
    } else if s.watcher == DoneClosed {
      assert Enabled(g, s, if s.main.Selecting? then ReturnNil else Join);
    } else if n :| n in s.workers && s.workers[n] != Closed {
      SomeoneCanMove(g, root, s, n);
    } else if s.watcher == Watching([]) {
      assert Enabled(g, s, WatchEnd);
    } else {
      assert s.watcher.left[0] in s.watcher.left;
      AllSpawned(g, root, s, s.watcher.left[0]);
      assert Enabled(g, s, WatchNext);
    }
  }

  /** In every run: unless everything has ended, some step can be taken. */
  lemma NeverStuck(g: Graph, root: Node, s: State)
    requires g.Closed() && !g.Cyclic() && Inv(g, root, s) && !Finished(s)
    ensures exists step :: Enabled(g, s, step)
  {
    hide Graph.Reach, LogInv, WorkersInv, WatchInv, Graph.Cyclic, Distinct;
    match s.main {
      case Popping => assert Enabled(g, s, if |s.tovisit| > 0 then Pop else StartWatch(Listed(s.seen)));
      case Scanning(n, i) => assert Enabled(g, s, if i < |g.edges[n]| then Scan else Spawn);
      case Closing(_) => assert Enabled(g, s, CloseErr);
      case Returned(_) => assert Enabled(g, s, DrainerExit);
      case _ => SelectCanMove(g, root, s);
    }
  }

  lemma WalkNeverDeadlocks(g: Graph, root: Node, run: seq<State>, i: nat)
    requires g.Closed() && root in g.edges && !g.Cyclic() && IsRun(g, root, run) && i < |run| && !Finished(run[i])
    ensures exists t :: Next(g, run[i], t)
  {
    RunKeeps(g, root, run, i);
    NeverStuck(g, root, run[i]);
    hide Inv, Enabled, Apply;
    var step :| Enabled(g, run[i], step);
    assert Next(g, run[i], Apply(g, run[i], step));
  }

  // A quantity every step makes smaller.

  function WorkerRank(deps: nat, w: Worker): int {
    match w
    case Waiting(i) => 2 * (deps - i) + 6
    case Checking(i) => 2 * (deps - i) + 5
    case Calling => 5
    case CallFailed => 4
    case Sending => 3
    case Returning => 2
    case Closed => 0
  }

  function Rank(g: Graph, s: State, n: Node): int {
    var deps := if n in g.edges then |g.edges[n]| else 0;
    if n in s.workers then WorkerRank(deps, s.workers[n])
    else if s.main.Scanning? && s.main.current == n then 3 * deps + 8 - s.main.i
    else 3 * deps + 9
  }

  function Total(g: Graph, s: State, nodes: seq<Node>): int {
    if nodes == [] then 0 else Rank(g, s, nodes[0]) + Total(g, s, nodes[1..])
  }

  function MainRank(s: State): int {
    match s.main
    case Popping => 6
    case Scanning(_, _) => 6
    case Selecting => 5
    case Joining(_) => 3
    case Closing(_) => 2
    case Returned(_) => 0
  }

  function WatchRank(s: State, count: nat): int {
    match s.watcher
    case NotStarted => count + 3
    case Watching(left) => |left| + 2
    case DoneClosed => 0
  }

  function RestRank(s: State, count: nat): int {
    MainRank(s) + (if s.draining then 1 else 0) + WatchRank(s, count)
  }

  /** `nodes` lists the nodes of the graph. */
  function Measure(g: Graph, s: State, nodes: seq<Node>): int {
    Total(g, s, nodes) + RestRank(s, |nodes|)
  }

  lemma {:induction false} TotalFalls(g: Graph, s: State, t: State, nodes: seq<Node>, n: Node)
    requires forall m :: m in nodes ==> Rank(g, t, m) <= Rank(g, s, m)
    ensures Total(g, t, nodes) <= Total(g, s, nodes)
    ensures n in nodes && Rank(g, t, n) < Rank(g, s, n) ==> Total(g, t, nodes) < Total(g, s, nodes)
  {
    hide Rank;
    if nodes != [] {
      assert nodes[0] in nodes && forall m :: m in nodes[1..] ==> m in nodes;
      TotalFalls(g, s, t, nodes[1..], n);
    }
  }

  lemma {:induction false} TotalNonNegative(g: Graph, root: Node, s: State, nodes: seq<Node>)
    requires Inv(g, root, s) && forall n :: n in nodes ==> n in g.edges
    ensures Total(g, s, nodes) >= 0
  {
    hide Graph.Reach, LogInv, WatchInv, ChannelInv, Distinct;
    if nodes != [] {
      TotalNonNegative(g, root, s, nodes[1..]);
      assert nodes[0] in s.workers ==> WorkerInv(g, s, nodes[0]);
    }
  }

  /** The noun whose goroutine, or whose place in the spawn loop, a step moves. */
  ghost predicate Advances(s: State, step: Step, n: Node) {
    Moves(s, step, n) ||
    (step.Scan? && s.main.Scanning? && s.main.current == n) ||
    (step.Pop? && |s.tovisit| > 0 && s.tovisit[|s.tovisit| - 1] == n)
  }

  /** The part of the spawn invariant the ranks rest on. */
  ghost predicate Placed(g: Graph, s: State) {
    (forall n :: n in s.workers ==> n in g.edges) &&
    (s.main.Scanning? ==> s.main.current !in s.workers && s.main.current in g.edges) &&
    (forall n :: n in s.tovisit ==> n in g.edges && n !in s.workers)
  }

  lemma RankDrops(g: Graph, s: State, step: Step, n: Node)
    requires Placed(g, s) && Enabled(g, s, step) && Advances(s, step, n)
    ensures n in g.edges && Rank(g, Apply(g, s, step), n) < Rank(g, s, n)
  {
    if step.Pop? {
      assert s.tovisit[|s.tovisit| - 1] in s.tovisit;
    }
  }

  lemma RankStays(g: Graph, s: State, step: Step, n: Node)
    requires Placed(g, s) && Enabled(g, s, step) && !Advances(s, step, n)
    ensures Rank(g, Apply(g, s, step), n) == Rank(g, s, n)
  {
    StepUnmoved(g, s, step, n);
    hide Unmoved;
  }

  lemma RestFalls(g: Graph, s: State, step: Step, count: nat)
    requires Enabled(g, s, step) && |s.seen| <= count
    requires BeforeSelect(s.main) ==> s.watcher.NotStarted?
    ensures RestRank(Apply(g, s, step), count) <= RestRank(s, count)
    ensures RestRank(Apply(g, s, step), count) < RestRank(s, count) || exists n :: Advances(s, step, n)
  {
    if step.Pop? {
      assert Advances(s, step, s.tovisit[|s.tovisit| - 1]);
    } else if step.Scan? || step.Spawn? {
      assert Advances(s, step, s.main.current);
    } else if step.Drain? || step.Wait? || step.Check? || step.Begin? || step.Finish? || step.Record? || step.Close? {
      assert Advances(s, step, step.n);
    }
  }

  lemma TotalStep(g: Graph, s: State, step: Step, nodes: seq<Node>, n: Node)
    requires Placed(g, s) && Enabled(g, s, step) && forall m :: m in nodes <==> m in g.edges
    ensures Total(g, Apply(g, s, step), nodes) <= Total(g, s, nodes)
    ensures Advances(s, step, n) ==> Total(g, Apply(g, s, step), nodes) < Total(g, s, nodes)
  {
    hide Rank, Enabled, Apply, Advances, Total;
    var t := Apply(g, s, step);
    forall m | m in nodes
      ensures Rank(g, t, m) <= Rank(g, s, m)
    {
      if Advances(s, step, m) {
        RankDrops(g, s, step, m);
      } else {
        RankStays(g, s, step, m);
      }
    }
    if Advances(s, step, n) {
      RankDrops(g, s, step, n);
    }
    TotalFalls(g, s, t, nodes, n);
  }

  /** Every step makes the measure smaller. */
  lemma StepShrinks(g: Graph, root: Node, s: State, step: Step, nodes: seq<Node>)
    requires Inv(g, root, s) && Enabled(g, s, step)
    requires forall n :: n in nodes <==> n in g.edges
    requires |nodes| == |g.edges|
    ensures Measure(g, Apply(g, s, step), nodes) < Measure(g, s, nodes)
  {
    hide Graph.Reach, Distinct, Enabled, Apply, Advances, Total, RestRank, WorkersInv, LogInv, ChannelInv, WatchInv;
    assert s.seen <= g.edges.Keys;
    SubsetSize(s.seen, g.edges.Keys);
    RestFalls(g, s, step, |nodes|);
    if n :| Advances(s, step, n) {
      TotalStep(g, s, step, nodes, n);
    } else {
      TotalStep(g, s, step, nodes, root);
    }
  }

  /** No run is longer than the measure of its start: the walk cannot go on forever. */
  lemma {:induction false} WalkEnds(g: Graph, root: Node, run: seq<State>, k: nat)
    requires g.Closed() && root in g.edges && IsRun(g, root, run) && k < |run|
    ensures k + Measure(g, run[k], Listed(g.edges.Keys)) <= Measure(g, Init(root), Listed(g.edges.Keys))
    ensures k <= Measure(g, Init(root), Listed(g.edges.Keys))
  {
    hide Inv, Enabled, Apply, Total;
    var nodes := Listed(g.edges.Keys);
    RunKeeps(g, root, run, k);
    TotalNonNegative(g, root, run[k], nodes);
    if k > 0 {
      WalkEnds(g, root, run, k - 1);
      RunKeeps(g, root, run, k - 1);
      assert Next(g, run[k - 1], run[k - 1 + 1]);
      var step :| Enabled(g, run[k - 1], step) && run[k] == Apply(g, run[k - 1], step);
      StepShrinks(g, root, run[k - 1], step, nodes);
    }
  }

  /** Any run goes on to one in which the walk has returned and every goroutine has ended. */
  lemma {:induction false} WalkCompletes(g: Graph, root: Node, run: seq<State>) returns (full: seq<State>)
    requires g.Closed() && root in g.edges && !g.Cyclic() && IsRun(g, root, run)
    ensures run <= full && IsRun(g, root, full) && Finished(full[|full| - 1])
    decreases Measure(g, Init(root), Listed(g.edges.Keys)) - |run|
  {
    hide Next, Measure, Listed, Graph.Cyclic;
    WalkEnds(g, root, run, |run| - 1);
    if Finished(run[|run| - 1]) {
      full := run;
    } else {
      WalkNeverDeadlocks(g, root, run, |run| - 1);
      var t :| Next(g, run[|run| - 1], t);
      assert IsRun(g, root, run + [t]);
      WalkEnds(g, root, run + [t], |run|);
      full := WalkCompletes(g, root, run + [t]);
    }
  }

  // ---- Failures further down ----

  /** The callbacks that have ended failed exactly for the nouns of the set. */
  ghost predicate FailsFor(log: seq<Event>, fails: set<Node>) {
    forall n, ok :: CallEnd(n, ok) in log ==> (ok <==> n !in fails)
  }

  lemma FailsForStep(g: Graph, s: State, step: Step, fails: set<Node>)
    requires Enabled(g, s, step) && FailsFor(s.log, fails) && (step.Finish? ==> step.ok == (step.n !in fails))
    ensures FailsFor(Apply(g, s, step).log, fails)
  {
  }

  lemma FailsForNext(g: Graph, root: Node, run: seq<State>, fails: set<Node>) returns (t: State)
    requires g.Closed() && root in g.edges && !g.Cyclic() && IsRun(g, root, run) && !Finished(run[|run| - 1])
    requires FailsFor(run[|run| - 1].log, fails)
    ensures Next(g, run[|run| - 1], t) && FailsFor(t.log, fails)
  {
    var s := run[|run| - 1];
    RunKeeps(g, root, run, |run| - 1);
    NeverStuck(g, root, s);
    var step :| Enabled(g, s, step);
    var chosen := if step.Finish? then Finish(step.n, step.n !in fails) else step;
    assert Enabled(g, s, chosen);
    FailsForStep(g, s, chosen, fails);
    t := Apply(g, s, chosen);
  }

  /** Any run goes on to a finished one in which, of the remaining callbacks, exactly those of the set fail. */
  lemma {:induction false} CompletesFailing(g: Graph, root: Node, run: seq<State>,
      fails: set<Node>) returns (full: seq<State>)
    requires g.Closed() && root in g.edges && !g.Cyclic() && IsRun(g, root, run) && FailsFor(run[|run| - 1].log, fails)
    ensures IsRun(g, root, full) && Finished(full[|full| - 1]) && FailsFor(full[|full| - 1].log, fails)
    decreases Measure(g, Init(root), Listed(g.edges.Keys)) - |run|
  {
    hide Next, Measure, Listed, Graph.Cyclic, FailsFor;
    WalkEnds(g, root, run, |run| - 1);
    if Finished(run[|run| - 1]) {
      full := run;
    } else {
      var t := FailsForNext(g, root, run, fails);
      assert IsRun(g, root, run + [t]);
      WalkEnds(g, root, run + [t], |run|);
      full := CompletesFailing(g, root, run + [t], fails);
    }
  }

  ghost predicate DependsOn(g: Graph, n: Node, c: Node) {
    exists w :: g.Edge(n, w) && g.Reach(w, c)
  }

  lemma EndedWhenFinished(g: Graph, root: Node, s: State, n: Node)
    requires Inv(g, root, s) && s.main.Returned? && Started(s, n)
    ensures Succeeded(s, n) || Failed(s, n)
  {
    hide Graph.Reach, LogInv;
    assert n in s.workers;
    assert WorkerInv(g, s, n);
  }

  /** A failure is not passed on past direct dependents: they are skipped but not recorded as failed.  So a noun that
      depends on c only through others is called back in some run although c failed. */
  lemma MissedFailure(g: Graph, root: Node, n: Node, c: Node) returns (run: seq<State>)
    requires g.Closed() && root in g.edges && !g.Cyclic()
    requires g.Reach(root, n) && DependsOn(g, n, c) && !g.Edge(n, c)
    ensures IsRun(g, root, run) && Finished(run[|run| - 1])
    ensures Failed(run[|run| - 1], c) && Started(run[|run| - 1], n)
  {
    OneStateRun(g, root);
    run := CompletesFailing(g, root, [Init(root)], {c});
    var i := |run| - 1;
    var s := run[i];
    RunKeeps(g, root, run, i);
    hide Inv, Graph.Reach, Next;
    var w :| g.Edge(n, w) && g.Reach(w, c);
    ReachEdge(g, n, w);
    ReachTrans(g, n, w, c);
    ReachTrans(g, root, n, c);
    ReachSelf(g, c);
    assert !g.Edge(c, c);
    WalkCallsExactly(g, root, run, i, n);
    WalkCallsExactly(g, root, run, i, c);
    EndedWhenFinished(g, root, s, c);
  }

  /** In every run, no noun is called back that depends on one whose callback failed. */
  ghost predicate StopsAtFailure(g: Graph, root: Node) {
    forall run, n, c :: IsRun(g, root, run) && DependsOn(g, n, c) && Failed(run[|run| - 1], c) ==>
      !Started(run[|run| - 1], n)
  }

  /** Every reachable noun lists all its transitive dependencies itself. */
  ghost predicate ListsAllDependencies(g: Graph, root: Node) {
    forall n, c :: g.Reach(root, n) && DependsOn(g, n, c) ==> g.Edge(n, c)
  }

  /** The walk stops above every failure exactly on graphs whose nouns list all their dependencies themselves. */
  lemma StopsExactlyWhenListed(g: Graph, root: Node)
    requires g.Closed() && root in g.edges && !g.Cyclic()
    ensures StopsAtFailure(g, root) <==> ListsAllDependencies(g, root)
  {
    hide Graph.Reach, Graph.Cyclic, Next;
    if ListsAllDependencies(g, root) {
      forall run, n, c | IsRun(g, root, run) && DependsOn(g, n, c) && Failed(run[|run| - 1], c)
        ensures !Started(run[|run| - 1], n)
      {
        if Started(run[|run| - 1], n) {
          CalledIsReachable(g, root, run, |run| - 1, n);
          WalkSkipsFailed(g, root, run, |run| - 1, n, c);
        }
      }
    } else {
      var n, c :| g.Reach(root, n) && DependsOn(g, n, c) && !g.Edge(n, c);
      var run := MissedFailure(g, root, n, c);
    }
  }

  lemma CalledIsReachable(g: Graph, root: Node, run: seq<State>, i: nat, n: Node)
    requires g.Closed() && root in g.edges && IsRun(g, root, run) && i < |run| && Started(run[i], n)
    ensures g.Reach(root, n)
  {
    RunKeeps(g, root, run, i);
  }

  lemma OneStateRun(g: Graph, root: Node)
    ensures IsRun(g, root, [Init(root)])
  {
  }

  function Chain(): Graph {
    Graph(map[Node(0) := [Node(1)], Node(1) := [Node(2)], Node(2) := []])
  }

  lemma ChainIsAcyclic()
    ensures Chain().Closed() && !Chain().Cyclic()
  {
    forall a, b | Chain().Edge(a, b)
      ensures !Chain().Reach(b, a)
    {
      assert b.id == a.id + 1;
      if Chain().Reach(b, a) {
        ReachStaysInside(Chain(), (iset v: Node | v.id >= b.id), b, a);
      }
    }
  }

  /** Along 0 -> 1 -> 2: in some finished run the root is called back although 2 failed. */
  lemma ChainMissesFailure() returns (run: seq<State>)
    ensures IsRun(Chain(), Node(0), run) && Finished(run[|run| - 1])
    ensures Failed(run[|run| - 1], Node(2)) && Started(run[|run| - 1], Node(0))
  {
    var g := Chain();
    ChainIsAcyclic();
    assert g.Edge(Node(0), Node(1)) && g.Edge(Node(1), Node(2));
    ReachSelf(g, Node(0));
    ReachEdge(g, Node(1), Node(2));
    run := MissedFailure(g, Node(0), Node(0), Node(2));
  }
}
