/** The order of callbacks in all runs of the concurrent walk, whether callbacks fail or not (depgraph/graph.go). */
module WalkOrder {
  import opened Digraph
  import opened Walk
  import opened WalkRuns

  // ---- Direct dependencies are always waited for ----

  /** If the event begins a callback, each direct dependency's callback has ended without error before, or there is
      none. */
  ghost predicate AfterDirect(g: Graph, log: seq<Event>, k: int)
    requires 0 <= k < |log|
  {
    log[k].CallStart? ==>
      forall d :: g.Edge(log[k].n, d) ==> CallEnd(d, true) in log[..k] || CallStart(d) !in log
  }

  ghost predicate AllAfterDirect(g: Graph, log: seq<Event>) {
    forall k :: 0 <= k < |log| ==> AfterDirect(g, log, k)
  }

  /** A noun that has begun has all its direct dependencies behind it. */
  lemma DependencyClosed(g: Graph, s: State, n: Node, d: Node)
    requires WorkersInv(g, s) && Started(s, n) && g.Edge(n, d)
    ensures At(s, d, Closed)
  {
    var j :| 0 <= j < |g.edges[n]| && g.edges[n][j] == d;
    assert PassedFirst(g, s, n, |g.edges[n]|) && Passed(s, g.edges[n][j]);
  }

  /** So has a noun that is about to begin: each was called back without error, or was skipped. */
  lemma DependencyDone(g: Graph, s: State, n: Node, d: Node)
    requires WorkersInv(g, s) && Enabled(g, s, Begin(n)) && g.Edge(n, d)
    ensures At(s, d, Closed) && (CallEnd(d, true) in s.log || CallStart(d) !in s.log)
  {
    assert WorkerInv(g, s, n);
    var j :| 0 <= j < |g.edges[n]| && g.edges[n][j] == d;
    assert Passed(s, g.edges[n][j]);
    assert WorkerInv(g, s, d);
  }

  lemma BeginKeepsOrder(g: Graph, s: State, n: Node)
    requires WorkersInv(g, s) && Enabled(g, s, Begin(n)) && AllAfterDirect(g, s.log)
    ensures AllAfterDirect(g, s.log + [CallStart(n)])
  {
    var log := s.log + [CallStart(n)];
    assert s.workers[n].Waiting?;
    forall k | 0 <= k < |log|
      ensures AfterDirect(g, log, k)
    {
      if k < |s.log| {
        assert AfterDirect(g, s.log, k) && log[k] == s.log[k] && log[..k] == s.log[..k];
        if log[k].CallStart? {
          assert Started(s, log[k].n);
          forall d | g.Edge(log[k].n, d)
            ensures d != n
          {
            DependencyClosed(g, s, log[k].n, d);
          }
        }
      } else {
        assert log[..k] == s.log;
        forall d | g.Edge(n, d)
          ensures CallEnd(d, true) in s.log || CallStart(d) !in log
        {
          DependencyDone(g, s, n, d);
        }
      }
    }
  }

  lemma EndKeepsOrder(g: Graph, log: seq<Event>, n: Node, ok: bool)
    requires AllAfterDirect(g, log)
    ensures AllAfterDirect(g, log + [CallEnd(n, ok)])
  {
    var log' := log + [CallEnd(n, ok)];
    forall k | 0 <= k < |log'|
      ensures AfterDirect(g, log', k)
    {
      if k < |log| {
        assert AfterDirect(g, log, k) && log'[k] == log[k] && log'[..k] == log[..k];
      }
    }
  }

  lemma StepKeepsOrder(g: Graph, root: Node, s: State, step: Step)
    requires Inv(g, root, s) && Enabled(g, s, step) && AllAfterDirect(g, s.log)
    ensures AllAfterDirect(g, Apply(g, s, step).log) && s.log <= Apply(g, s, step).log
  {
    hide AllAfterDirect, SpawnInv, WorkersInv, ChannelInv, WatchInv, LogInv, Graph.Reach;
    if step.Begin? {
      BeginKeepsOrder(g, s, step.n);
    } else if step.Finish? {
      EndKeepsOrder(g, s.log, step.n, step.ok);
    }
  }

  lemma {:induction false} RunKeepsOrder(g: Graph, root: Node, run: seq<State>, i: nat, j: nat)
    requires g.Closed() && root in g.edges && IsRun(g, root, run) && i <= j < |run|
    ensures AllAfterDirect(g, run[j].log) && run[i].log <= run[j].log
    decreases j
  {
    hide Inv, Enabled, Apply;
    if j == 0 {
      assert run[0].log == [];
    } else {
      RunKeepsOrder(g, root, run, if i < j then i else j - 1, j - 1);
      RunKeeps(g, root, run, j - 1);
      assert Next(g, run[j - 1], run[j - 1 + 1]);
      var step :| Enabled(g, run[j - 1], step) && run[j] == Apply(g, run[j - 1], step);
      hide AllAfterDirect;
      StepKeepsOrder(g, root, run[j - 1], step);
    }
  }

  /** At an event, a noun's callback has ended without error, or it never begins in the run. */
  ghost predicate BehindOrNever(run: seq<State>, i: nat, k: nat, d: Node)
    requires i < |run| && k < |run[i].log|
  {
    CallEnd(d, true) in run[i].log[..k] || forall j :: 0 <= j < |run| ==> CallStart(d) !in run[j].log
  }

  /** In every run, failures or not: when a callback begins, that of each direct dependency has ended without error,
      or is not called before and never will be. */
  lemma DirectOrderAlwaysHolds(g: Graph, root: Node, run: seq<State>, i: nat, k: nat, n: Node, d: Node)
    requires g.Closed() && root in g.edges && IsRun(g, root, run) && i < |run|
    requires k < |run[i].log| && run[i].log[k] == CallStart(n) && g.Edge(n, d)
    ensures BehindOrNever(run, i, k, d)
  {
    hide Next, AllAfterDirect;
    var last := |run| - 1;
    var log := run[last].log;
    RunKeepsOrder(g, root, run, i, last);
    OneAfterDirect(g, log, k);
    assert log[k] == run[i].log[k] && log[..k] == run[i].log[..k];
    forall j | 0 <= j < |run|
      ensures run[j].log <= log
    {
      RunKeepsOrder(g, root, run, j, last);
    }
    if CallStart(d) !in log {
      forall j | 0 <= j < |run|
        ensures CallStart(d) !in run[j].log
      {
        assert run[j].log <= log;
      }
    }
  }

  lemma OneAfterDirect(g: Graph, log: seq<Event>, k: nat)
    requires AllAfterDirect(g, log) && k < |log|
    ensures AfterDirect(g, log, k)
  {
  }

  // ---- Transitive ones exactly where they are listed as direct ones ----

  /** In every run: when a callback begins, that of each dependency, direct or not, has ended without error or never
      begins. */
  ghost predicate InOrder(g: Graph, root: Node) {
    forall run: seq<State>, i: nat, k: nat, n, d ::
      IsRun(g, root, run) && i < |run| && k < |run[i].log| && run[i].log[k] == CallStart(n) && DependsOn(g, n, d) ==>
        BehindOrNever(run, i, k, d)
  }

  lemma FailedBegan(g: Graph, root: Node, run: seq<State>, c: Node)
    requires g.Closed() && root in g.edges && IsRun(g, root, run) && Failed(run[|run| - 1], c)
    ensures Started(run[|run| - 1], c) && !Succeeded(run[|run| - 1], c)
  {
    hide Next, Graph.Reach, SpawnInv, ChannelInv, WatchInv, LogInv;
    RunKeeps(g, root, run, |run| - 1);
    assert WorkersInv(g, run[|run| - 1]);
    assert c in run[|run| - 1].workers;
    assert WorkerInv(g, run[|run| - 1], c);
  }

  /** It breaks the order that a noun begins although one it depends on has begun and not ended without error. */
  lemma BreaksOrder(g: Graph, root: Node, run: seq<State>, n: Node, c: Node)
    requires IsRun(g, root, run) && DependsOn(g, n, c)
    requires Started(run[|run| - 1], n) && Started(run[|run| - 1], c) && !Succeeded(run[|run| - 1], c)
    ensures !InOrder(g, root)
  {
    hide Next, DependsOn;
    var last := |run| - 1;
    var k :| 0 <= k < |run[last].log| && run[last].log[k] == CallStart(n);
    assert !BehindOrNever(run, last, k, c);
  }

  /** The order holds for all dependencies exactly on graphs whose nouns list all their dependencies themselves. */
  lemma InOrderExactlyWhenListed(g: Graph, root: Node)
    requires g.Closed() && root in g.edges && !g.Cyclic()
    ensures InOrder(g, root) <==> ListsAllDependencies(g, root)
  {
    hide Graph.Reach, Graph.Cyclic, Next, DependsOn, BehindOrNever;
    if ListsAllDependencies(g, root) {
      forall run: seq<State>, i: nat, k: nat, n, d |
        IsRun(g, root, run) && i < |run| && k < |run[i].log| && run[i].log[k] == CallStart(n) && DependsOn(g, n, d)
        ensures BehindOrNever(run, i, k, d)
      {
        CalledIsReachable(g, root, run, i, n);
        DirectOrderAlwaysHolds(g, root, run, i, k, n, d);
      }
    } else {
      var n, c :| g.Reach(root, n) && DependsOn(g, n, c) && !g.Edge(n, c);
      var run := MissedFailure(g, root, n, c);
      FailedBegan(g, root, run, c);
      BreaksOrder(g, root, run, n, c);
    }
  }

  // ---- A run that shows the order lost ----

  /** 0 -> 1 -> {2, 3} */
  function Fan(): Graph {
    Graph(map[Node(0) := [Node(1)], Node(1) := [Node(2), Node(3)], Node(2) := [], Node(3) := []])
  }

  /** A run that has come to a state. */
  ghost predicate Reaches(run: seq<State>, s: State) {
    IsRun(Fan(), Node(0), run) && run[|run| - 1] == s
  }

  /** One more step of a run, to a given state. */
  lemma Go(run: seq<State>, s: State, step: Step, t: State) returns (run': seq<State>)
    requires Reaches(run, s) && Enabled(Fan(), s, step) && Apply(Fan(), s, step) == t
    ensures Reaches(run', t)
  {
    hide Enabled, Apply;
    assert Next(Fan(), s, t);
    hide Next;
    run' := run + [t];
    forall k | 0 <= k < |run'| - 1
      ensures Next(Fan(), run'[k], run'[k + 1])
    {
      if k < |run| - 1 {
        assert Next(Fan(), run[k], run[k + 1]);
      }
    }
  }

  function Spawning(seen: set<Node>, tovisit: seq<Node>, main: Main, workers: map<Node, Worker>): State {
    State(seen, tovisit, main, workers, {}, NotStarted, false, false, [])
  }

  lemma StartRun()
    ensures Reaches([Init(Node(0))], Init(Node(0)))
  {
  }

  /** The first two nouns are spawned. */
  lemma SpawnZero() returns (run: seq<State>)
    ensures Reaches(run, Spawning({Node(0), Node(1)}, [Node(1)], Popping, map[Node(0) := Waiting(0)]))
  {
    hide Reaches;
    StartRun();
    var a, b := Node(0), Node(1);
    var s := Spawning({a}, [], Scanning(a, 0), map[]);
    run := Go([Init(a)], Init(a), Pop, s);
    var t := Spawning({a, b}, [b], Scanning(a, 1), map[]);
    run := Go(run, s, Scan, t);
    run := Go(run, t, Spawn, Spawning({a, b}, [b], Popping, map[a := Waiting(0)]));
  }

  lemma SpawnOne(run: seq<State>) returns (run': seq<State>)
    requires Reaches(run, Spawning({Node(0), Node(1)}, [Node(1)], Popping, map[Node(0) := Waiting(0)]))
    ensures Reaches(run', Spawning({Node(0), Node(1), Node(2), Node(3)}, [Node(2), Node(3)], Popping,
                                   map[Node(0) := Waiting(0), Node(1) := Waiting(0)]))
  {
    hide Reaches;
    var a, b, c, d := Node(0), Node(1), Node(2), Node(3);
    var w := map[a := Waiting(0)];
    var s := Spawning({a, b}, [], Scanning(b, 0), w);
    run' := Go(run, Spawning({a, b}, [b], Popping, w), Pop, s);
    var t := Spawning({a, b, c}, [c], Scanning(b, 1), w);
    run' := Go(run', s, Scan, t);
    var u := Spawning({a, b, c, d}, [c, d], Scanning(b, 2), w);
    run' := Go(run', t, Scan, u);
    run' := Go(run', u, Spawn, Spawning({a, b, c, d}, [c, d], Popping, w[b := Waiting(0)]));
  }

  function AllWaiting(): map<Node, Worker> {
    map[Node(0) := Waiting(0), Node(1) := Waiting(0), Node(2) := Waiting(0), Node(3) := Waiting(0)]
  }

  lemma SpawnRest(run: seq<State>) returns (run': seq<State>)
    requires Reaches(run, Spawning({Node(0), Node(1), Node(2), Node(3)}, [Node(2), Node(3)], Popping,
                                   map[Node(0) := Waiting(0), Node(1) := Waiting(0)]))
    ensures Reaches(run', Spawning({Node(0), Node(1), Node(2), Node(3)}, [], Popping, AllWaiting()))
  {
    hide Reaches;
    var a, b, c, d := Node(0), Node(1), Node(2), Node(3);
    var all := {a, b, c, d};
    var s := Spawning(all, [c, d], Popping, map[a := Waiting(0), b := Waiting(0)]);
    var t := Spawning(all, [c], Scanning(d, 0), map[a := Waiting(0), b := Waiting(0)]);
    run' := Go(run, s, Pop, t);
    s := Spawning(all, [c], Popping, map[a := Waiting(0), b := Waiting(0), d := Waiting(0)]);
    run' := Go(run', t, Spawn, s);
    t := Spawning(all, [], Scanning(c, 0), map[a := Waiting(0), b := Waiting(0), d := Waiting(0)]);
    run' := Go(run', s, Pop, t);
    s := Spawning(all, [], Popping, AllWaiting());
    run' := Go(run', t, Spawn, s);
  }

  /** The four goroutines after the watcher has started. */
  function Going(main: Main, zero: Worker, one: Worker, two: Worker, three: Worker, failed: set<Node>,
      log: seq<Event>): State {
    State({Node(0), Node(1), Node(2), Node(3)}, [], main,
      map[Node(0) := zero, Node(1) := one, Node(2) := two, Node(3) := three],
      failed, Watching([Node(0), Node(1), Node(2), Node(3)]), main.Joining?, false, log)
  }

  function Begun(): seq<Event> {
    [CallStart(Node(3)), CallStart(Node(2)), CallEnd(Node(2), false)]
  }

  lemma Watch(run: seq<State>) returns (run': seq<State>)
    requires Reaches(run, Spawning({Node(0), Node(1), Node(2), Node(3)}, [], Popping, AllWaiting()))
    ensures Reaches(run', Going(Selecting, Waiting(0), Waiting(0), Waiting(0), Waiting(0), {}, []))
  {
    hide Reaches;
    var order := [Node(0), Node(1), Node(2), Node(3)];
    var s := Spawning({Node(0), Node(1), Node(2), Node(3)}, [], Popping, AllWaiting());
    assert |s.seen| == 4 && forall n :: n in order <==> n in s.seen;
    run' := Go(run, s, StartWatch(order), s.(main := Selecting, watcher := Watching(order)));
  }

  /** Noun 3 is in its callback when that of noun 2 fails. */
  lemma FailTwo(run: seq<State>) returns (run': seq<State>)
    requires Reaches(run, Going(Selecting, Waiting(0), Waiting(0), Waiting(0), Waiting(0), {}, []))
    ensures Reaches(run', Going(Selecting, Waiting(0), Waiting(0), CallFailed, Calling, {}, Begun()))
  {
    hide Reaches;
    var c, d := Node(2), Node(3);
    var t := Going(Selecting, Waiting(0), Waiting(0), Waiting(0), Waiting(0), {}, []);
    var u := Move(t, d, Calling).(log := [CallStart(d)]);
    run' := Go(run, t, Begin(d), u);
    var v := Move(u, c, Calling).(log := [CallStart(d), CallStart(c)]);
    run' := Go(run', u, Begin(c), v);
    run' := Go(run', v, Finish(c, false), Move(v, c, CallFailed).(log := Begun()));
    assert Move(v, c, CallFailed).workers ==
      map[Node(0) := Waiting(0), Node(1) := Waiting(0), c := CallFailed, d := Calling];
  }

  lemma ReportTwo(run: seq<State>) returns (run': seq<State>)
    requires Reaches(run, Going(Selecting, Waiting(0), Waiting(0), CallFailed, Calling, {}, Begun()))
    ensures Reaches(run', Going(Joining(Node(2)), Waiting(0), Waiting(0), Closed, Calling, {Node(2)}, Begun()))
  {
    hide Reaches;
    var c := Node(2);
    var s := Going(Selecting, Waiting(0), Waiting(0), CallFailed, Calling, {}, Begun());
    var t := Move(s, c, Sending).(failed := {c});
    run' := Go(run, s, Record(c), t);
    var u := Move(t, c, Returning).(main := Joining(c), draining := true);
    run' := Go(run', t, Receive(c), u);
    run' := Go(run', u, Close(c), Move(u, c, Closed));
    assert Move(u, c, Closed).workers ==
      map[Node(0) := Waiting(0), Node(1) := Waiting(0), c := Closed, Node(3) := Calling];
  }

  /** Noun 1 is skipped without waiting for noun 3, and then noun 0 begins. */
  lemma SkipOne(run: seq<State>) returns (run': seq<State>)
    requires Reaches(run, Going(Joining(Node(2)), Waiting(0), Waiting(0), Closed, Calling, {Node(2)}, Begun()))
    ensures Reaches(run', Going(Joining(Node(2)), Waiting(0), Closed, Closed, Calling, {Node(2)}, Begun()))
  {
    hide Reaches;
    var b := Node(1);
    var s := Going(Joining(Node(2)), Waiting(0), Waiting(0), Closed, Calling, {Node(2)}, Begun());
    var t := Move(s, b, Checking(0));
    run' := Go(run, s, Wait(b), t);
    var u := Move(t, b, Returning);
    run' := Go(run', t, Check(b), u);
    run' := Go(run', u, Close(b), Move(u, b, Closed));
    assert Move(u, b, Closed).workers == map[Node(0) := Waiting(0), b := Closed, Node(2) := Closed, Node(3) := Calling];
  }

  lemma BeginZero(run: seq<State>) returns (run': seq<State>)
    requires Reaches(run, Going(Joining(Node(2)), Waiting(0), Closed, Closed, Calling, {Node(2)}, Begun()))
    ensures Reaches(run',
      Going(Joining(Node(2)), Calling, Closed, Closed, Calling, {Node(2)}, Begun() + [CallStart(Node(0))]))
  {
    hide Reaches;
    var a := Node(0);
    var s := Going(Joining(Node(2)), Waiting(0), Closed, Closed, Calling, {Node(2)}, Begun());
    var t := Move(s, a, Checking(0));
    run' := Go(run, s, Wait(a), t);
    var u := Move(t, a, Waiting(1));
    run' := Go(run', t, Check(a), u);
    run' := Go(run', u, Begin(a), Move(u, a, Calling).(log := s.log + [CallStart(a)]));
    assert Move(u, a, Calling).workers == map[a := Calling, Node(1) := Closed, Node(2) := Closed, Node(3) := Calling];
  }

  lemma FanDepends()
    ensures Fan().Edge(Node(0), Node(1)) && Fan().Edge(Node(1), Node(3)) && DependsOn(Fan(), Node(0), Node(3))
  {
    ReachEdge(Fan(), Node(1), Node(3));
  }

  /** So a callback can begin while that of a transitive dependency is still going on. */
  lemma TransitiveOrderIsLost() returns (run: seq<State>)
    ensures IsRun(Fan(), Node(0), run) && DependsOn(Fan(), Node(0), Node(3)) && !InOrder(Fan(), Node(0))
    ensures Started(run[|run| - 1], Node(0)) && At(run[|run| - 1], Node(3), Calling)
    ensures Started(run[|run| - 1], Node(3)) && !Succeeded(run[|run| - 1], Node(3)) && !Failed(run[|run| - 1], Node(3))
  {
    FanDepends();
    run := SpawnZero();
    run := SpawnOne(run);
    run := SpawnRest(run);
    run := Watch(run);
    run := FailTwo(run);
    run := ReportTwo(run);
    run := SkipOne(run);
    run := BeginZero(run);
    BreaksOrder(Fan(), Node(0), run, Node(0), Node(3));
  }
}
