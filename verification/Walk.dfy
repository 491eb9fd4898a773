/** The concurrent dependency-first walk of depgraph/graph.go as a protocol: one goroutine and one
    close-channel per noun, an unbuffered error channel, a watcher that waits for every channel, and
    a drainer.  A step is one goroutine's move between two points where it can be interrupted. */
module Walk {
  import opened Digraph
  import opened Wrappers
  import opened Lists

  /** Where the goroutine of a noun stands.  `Closed` also says that its channel is closed. */
  datatype Worker =
    | Waiting(i: nat)   // about to receive from the channel of dependency i, or to call back after the last
    | Checking(i: nat)  // received; about to look dependency i up in errMap
    | Calling           // inside the callback
    | CallFailed        // the callback returned an error that errMap does not hold yet
    | Sending           // blocked on errCh
    | Returning         // about to run the deferred close
    | Closed

  datatype Main =
    | Popping
    | Scanning(current: Node, i: nat)  // dependency i of the popped noun comes next
    | Selecting
    | Joining(err: Node)               // received the error of a noun; waiting for doneCh
    | Closing(err: Node)
    | Returned(result: Option<Node>)

  datatype Watcher = NotStarted | Watching(left: seq<Node>) | DoneClosed

  datatype Event = CallStart(n: Node) | CallEnd(n: Node, ok: bool)

  datatype State = State(
    seen: set<Node>,          // the keys of seenMap
    tovisit: seq<Node>,
    main: Main,
    workers: map<Node, Worker>,
    failed: set<Node>,        // errMap
    watcher: Watcher,
    draining: bool,           // the drainer runs
    errClosed: bool,          // errCh is closed
    log: seq<Event>)          // callbacks begun and ended so far

  datatype Step =
    | Pop | Scan | Spawn | StartWatch(order: seq<Node>) | ReturnNil | Receive(n: Node) | Join | CloseErr
    | Drain(n: Node) | DrainerExit
    | Wait(n: Node) | Check(n: Node) | Begin(n: Node) | Finish(n: Node, ok: bool) | Record(n: Node) | Close(n: Node)
    | WatchNext | WatchEnd

  function Init(root: Node): State {
    State({root}, [root], Popping, map[], {}, NotStarted, false, false, [])
  }

  predicate At(s: State, n: Node, w: Worker) {
    n in s.workers && s.workers[n] == w
  }

  ghost predicate Enabled(g: Graph, s: State, step: Step) {
    match step
    case Pop => s.main == Popping && |s.tovisit| > 0
    case Scan => s.main.Scanning? && s.main.current in g.edges && s.main.i < |g.edges[s.main.current]|
    case Spawn => s.main.Scanning? && s.main.current in g.edges && s.main.i == |g.edges[s.main.current]|
    case StartWatch(order) => s.main == Popping && s.tovisit == [] && (forall n :: n in order <==> n in s.seen) &&
                              |order| == |s.seen|
    case ReturnNil => s.main == Selecting && s.watcher == DoneClosed
    case Receive(n) => s.main == Selecting && At(s, n, Sending)
    case Join => s.main.Joining? && s.watcher == DoneClosed
    case CloseErr => s.main.Closing?
    case Drain(n) => s.draining && !s.errClosed && At(s, n, Sending)
    case DrainerExit => s.draining && s.errClosed
    case Wait(n) => n in s.workers && n in g.edges && s.workers[n].Waiting? &&
                    s.workers[n].i < |g.edges[n]| && At(s, g.edges[n][s.workers[n].i], Closed)
    case Check(n) => n in s.workers && n in g.edges && s.workers[n].Checking? && s.workers[n].i < |g.edges[n]|
    case Begin(n) => n in s.workers && n in g.edges && s.workers[n].Waiting? && s.workers[n].i == |g.edges[n]|
    case Finish(n, ok) => At(s, n, Calling)
    case Record(n) => At(s, n, CallFailed)
    case Close(n) => At(s, n, Returning)
    case WatchNext => s.watcher.Watching? && |s.watcher.left| > 0 && At(s, s.watcher.left[0], Closed)
    case WatchEnd => s.watcher == Watching([])
  }

  function Move(s: State, n: Node, w: Worker): State {
    s.(workers := s.workers[n := w])
  }

  function Apply(g: Graph, s: State, step: Step): State
    requires Enabled(g, s, step)
  {
    match step
    case Pop =>
      var last := |s.tovisit| - 1;
      s.(main := Scanning(s.tovisit[last], 0), tovisit := s.tovisit[..last])
    case Scan =>
      var t := g.edges[s.main.current][s.main.i];
      var next := s.(main := Scanning(s.main.current, s.main.i + 1));
      if t in s.seen then next else next.(seen := s.seen + {t}, tovisit := s.tovisit + [t])
    case Spawn => Move(s, s.main.current, Waiting(0)).(main := Popping)
    case StartWatch(order) => s.(main := Selecting, watcher := Watching(order))
    case ReturnNil => s.(main := Returned(None))
    case Receive(n) => Move(s, n, Returning).(main := Joining(n), draining := true)
    case Join => s.(main := Closing(s.main.err))
    case CloseErr => s.(main := Returned(Some(s.main.err)), errClosed := true)
    case Drain(n) => Move(s, n, Returning)
    case DrainerExit => s.(draining := false)
    case Wait(n) => Move(s, n, Checking(s.workers[n].i))
    case Check(n) =>
      var i := s.workers[n].i;
      Move(s, n, if g.edges[n][i] in s.failed then Returning else Waiting(i + 1))
    case Begin(n) => Move(s, n, Calling).(log := s.log + [CallStart(n)])
    case Finish(n, ok) => Move(s, n, if ok then Returning else CallFailed).(log := s.log + [CallEnd(n, ok)])
    case Record(n) => Move(s, n, Sending).(failed := s.failed + {n})
    case Close(n) => Move(s, n, Closed)
    case WatchNext => s.(watcher := Watching(s.watcher.left[1..]))
    case WatchEnd => s.(watcher := DoneClosed)
  }

  ghost predicate Next(g: Graph, s: State, t: State) {
    exists step :: Enabled(g, s, step) && t == Apply(g, s, step)
  }

  /** A run: any interleaving of steps from the start of the walk. */
  ghost predicate IsRun(g: Graph, root: Node, run: seq<State>) {
    |run| > 0 && run[0] == Init(root) && forall k :: 0 <= k < |run| - 1 ==> Next(g, run[k], run[k + 1])
  }

  // ---- What every step keeps ----

  predicate BeforeSelect(m: Main) {
    m.Popping? || m.Scanning?
  }

  /** Main has received an error. */
  predicate HasError(m: Main) {
    m.Joining? || m.Closing? || (m.Returned? && m.result.Some?)
  }

  predicate Started(s: State, n: Node) {
    CallStart(n) in s.log
  }

  predicate Succeeded(s: State, n: Node) {
    CallEnd(n, true) in s.log
  }

  predicate Failed(s: State, n: Node) {
    CallEnd(n, false) in s.log
  }

  /** The spawn loop: each seen noun is spawned, being scanned, or waiting to be popped. */
  ghost predicate SpawnInv(g: Graph, root: Node, s: State) {
    root in s.seen && Distinct(s.tovisit) &&
    (forall n :: n in s.workers ==> n in s.seen) &&
    (forall n :: n in s.tovisit ==> n in s.seen && n !in s.workers) &&
    (forall n :: n in s.seen ==> n in g.edges && g.Reach(root, n)) &&
    (forall n :: n in s.seen ==> n in s.workers || n in s.tovisit || (s.main.Scanning? && s.main.current == n)) &&
    (forall n, i :: n in s.workers && n in g.edges && 0 <= i < |g.edges[n]| ==> g.edges[n][i] in s.seen) &&
    (s.main.Scanning? ==> ScanInv(g, s, s.main.current, s.main.i)) &&
    (!BeforeSelect(s.main) ==> s.tovisit == []) &&
    (BeforeSelect(s.main) <==> s.watcher.NotStarted?)
  }

  ghost predicate ScanInv(g: Graph, s: State, n: Node, i: nat) {
    n in s.seen && n !in s.workers && n !in s.tovisit && n in g.edges && i <= |g.edges[n]| &&
    forall j :: 0 <= j < i ==> g.edges[n][j] in s.seen
  }

  /** The dependency's channel is closed and its error status is final and clean. */
  predicate Passed(s: State, d: Node) {
    At(s, d, Closed) && d !in s.failed
  }

  ghost predicate NoEvents(s: State, n: Node) {
    !Started(s, n) && !Succeeded(s, n) && !Failed(s, n)
  }

  ghost predicate PassedFirst(g: Graph, s: State, n: Node, i: nat) {
    n in g.edges && i <= |g.edges[n]| && forall j :: 0 <= j < i ==> Passed(s, g.edges[n][j])
  }

  ghost predicate SkippedFor(g: Graph, s: State, n: Node, d: Node) {
    g.Edge(n, d) && d in s.failed && At(s, d, Closed)
  }

  /** How the goroutine of a noun ended: skipped, called back without error, or failed with its error delivered. */
  ghost predicate Outcome(g: Graph, s: State, n: Node) {
    (NoEvents(s, n) && exists d :: SkippedFor(g, s, n, d)) ||
    (Started(s, n) && Succeeded(s, n) && !Failed(s, n)) ||
    (Started(s, n) && Failed(s, n) && !Succeeded(s, n) && n in s.failed && HasError(s.main))
  }

  ghost predicate WorkerInv(g: Graph, s: State, n: Node)
    requires n in s.workers
  {
    match s.workers[n]
    case Waiting(i) => NoEvents(s, n) && PassedFirst(g, s, n, i) && n !in s.failed
    case Checking(i) => NoEvents(s, n) && PassedFirst(g, s, n, i) && n !in s.failed &&
      i < |g.edges[n]| && At(s, g.edges[n][i], Closed)
    case Calling => Started(s, n) && !Succeeded(s, n) && !Failed(s, n) && n !in s.failed
    case CallFailed => Started(s, n) && !Succeeded(s, n) && Failed(s, n) && n !in s.failed
    case Sending => Started(s, n) && !Succeeded(s, n) && Failed(s, n) && n in s.failed
    case Returning => Outcome(g, s, n)
    case Closed => Outcome(g, s, n)
  }

  ghost predicate WorkersInv(g: Graph, s: State) {
    (forall n :: n in s.workers ==> WorkerInv(g, s, n)) &&
    (forall n :: n !in s.workers ==> NoEvents(s, n) && n !in s.failed) &&
    (forall n :: Started(s, n) ==> n in g.edges && PassedFirst(g, s, n, |g.edges[n]|)) &&
    (forall n :: n in s.failed ==> Failed(s, n))
  }

  ghost predicate ChannelInv(s: State) {
    match s.main
    case Popping => !s.draining && !s.errClosed
    case Scanning(_, _) => !s.draining && !s.errClosed
    case Selecting => !s.draining && !s.errClosed
    case Joining(e) => s.draining && !s.errClosed && Failed(s, e)
    case Closing(e) => s.draining && !s.errClosed && Failed(s, e) && s.watcher == DoneClosed
    case Returned(r) =>
      s.watcher == DoneClosed && s.errClosed == r.Some? && (r.None? ==> !s.draining) && (r.Some? ==> Failed(s, r.value))
  }

  ghost predicate WatchInv(s: State) {
    match s.watcher
    case NotStarted => true
    case Watching(left) => (forall n :: n in left ==> n in s.seen) &&
      (forall n :: n in s.seen ==> n in left || At(s, n, Closed))
    case DoneClosed => forall n :: n in s.seen ==> At(s, n, Closed)
  }

  ghost predicate Clean(log: seq<Event>) {
    forall n :: CallEnd(n, false) !in log
  }

  /** A callback ends after it began, and, while none has failed, begins after those of all its dependencies ended. */
  ghost predicate EventInv(g: Graph, log: seq<Event>, k: int)
    requires 0 <= k < |log|
  {
    match log[k]
    case CallEnd(n, _) => CallStart(n) in log[..k]
    case CallStart(n) => Clean(log[..k]) ==> forall d :: g.Edge(n, d) ==> CallEnd(d, true) in log[..k]
  }

  ghost predicate LogInv(g: Graph, s: State) {
    Distinct(s.log) && forall k :: 0 <= k < |s.log| ==> EventInv(g, s.log, k)
  }

  ghost predicate Inv(g: Graph, root: Node, s: State) {
    SpawnInv(g, root, s) && WorkersInv(g, s) && ChannelInv(s) && WatchInv(s) && LogInv(g, s)
  }

  lemma ScanKeepsSpawn(g: Graph, root: Node, s: State)
    requires g.Closed() && SpawnInv(g, root, s) && Enabled(g, s, Scan)
    ensures SpawnInv(g, root, Apply(g, s, Scan))
  {
    hide Graph.Reach;
    var n, d := s.main.current, g.edges[s.main.current][s.main.i];
    assert g.Edge(n, d);
    ReachEdge(g, n, d);
    ReachTrans(g, root, n, d);
    if d !in s.seen {
      DistinctAppend(s.tovisit, [d]);
    }
  }

  lemma PopKeepsSpawn(g: Graph, root: Node, s: State)
    requires SpawnInv(g, root, s) && Enabled(g, s, Pop)
    ensures SpawnInv(g, root, Apply(g, s, Pop))
  {
    hide Graph.Reach;
    var t := Apply(g, s, Pop);
    assert s.tovisit == t.tovisit + [t.main.current];
  }

  lemma SpawnKeepsSpawn(g: Graph, root: Node, s: State)
    requires g.Closed() && SpawnInv(g, root, s) && Enabled(g, s, Spawn)
    ensures SpawnInv(g, root, Apply(g, s, Spawn))
  {
    hide Graph.Reach, Distinct;
  }

  lemma SpawnSame(g: Graph, root: Node, s: State, t: State)
    requires SpawnInv(g, root, s) && t.seen == s.seen && t.tovisit == s.tovisit && t.workers.Keys == s.workers.Keys
    requires (t.main == s.main && (t.watcher.NotStarted? <==> s.watcher.NotStarted?)) ||
             (!s.main.Scanning? && s.tovisit == [] && !BeforeSelect(t.main) && !t.watcher.NotStarted?)
    ensures SpawnInv(g, root, t)
  {
    hide Graph.Reach, Distinct;
    assert forall n :: n in s.workers <==> n in t.workers by {
      assert forall n :: n in s.workers.Keys <==> n in t.workers.Keys;
    }
  }

  lemma SpawnKept(g: Graph, root: Node, s: State, step: Step)
    requires g.Closed() && SpawnInv(g, root, s) && Enabled(g, s, step)
    ensures SpawnInv(g, root, Apply(g, s, step))
  {
    match step {
      case Scan => ScanKeepsSpawn(g, root, s);
      case Pop => PopKeepsSpawn(g, root, s);
      case Spawn => SpawnKeepsSpawn(g, root, s);
      case _ =>
        var t := Apply(g, s, step);
        assert t.workers.Keys == s.workers.Keys;
        assert !BeforeSelect(s.main) ==> s.tovisit == [] && !s.watcher.NotStarted?;
        hide SpawnInv;
        SpawnSame(g, root, s, t);
    }
  }

  lemma FailureStays(g: Graph, s: State, step: Step, e: Node)
    requires Enabled(g, s, step)
    ensures Failed(s, e) ==> Failed(Apply(g, s, step), e)
  {
    hide Graph.Reach;
  }

  lemma ReceivedFailed(g: Graph, root: Node, s: State, step: Step)
    requires Inv(g, root, s) && Enabled(g, s, step) && step.Receive?
    ensures Failed(s, step.n)
  {
    hide SpawnInv, ChannelInv, WatchInv, LogInv, Graph.Reach;
    assert WorkerInv(g, s, step.n);
  }

  lemma ChannelKept(g: Graph, root: Node, s: State, step: Step)
    requires Inv(g, root, s) && Enabled(g, s, step)
    ensures ChannelInv(Apply(g, s, step))
  {
    hide Graph.Reach, LogInv, SpawnInv, WorkersInv, WatchInv;
    if step.Receive? {
      ReceivedFailed(g, root, s, step);
      FailureStays(g, s, step, step.n);
    }
    if s.main.Joining? || s.main.Closing? {
      FailureStays(g, s, step, s.main.err);
    }
    if s.main.Returned? && s.main.result.Some? {
      FailureStays(g, s, step, s.main.result.value);
    }
    assert BeforeSelect(s.main) <==> s.watcher.NotStarted? by {
      WatchStartsOnce(g, root, s);
    }
    hide Failed;
  }

  lemma WatchStartsOnce(g: Graph, root: Node, s: State)
    requires SpawnInv(g, root, s)
    ensures BeforeSelect(s.main) <==> s.watcher.NotStarted?
    ensures s.main.Scanning? ==> s.main.current !in s.workers
  {
    hide Graph.Reach, Distinct;
  }

  /** A closed channel stays closed. */
  lemma ClosedStays(g: Graph, root: Node, s: State, step: Step, n: Node)
    requires SpawnInv(g, root, s) && Enabled(g, s, step) && At(s, n, Closed)
    ensures At(Apply(g, s, step), n, Closed)
  {
    WatchStartsOnce(g, root, s);
    hide SpawnInv, Graph.Reach;
  }

  lemma WatchKept(g: Graph, root: Node, s: State, step: Step)
    requires Inv(g, root, s) && Enabled(g, s, step)
    ensures WatchInv(Apply(g, s, step))
  {
    hide Graph.Reach, LogInv, WorkersInv, ChannelInv;
    WatchStartsOnce(g, root, s);
    var t := Apply(g, s, step);
    forall n | At(s, n, Closed)
      ensures At(t, n, Closed)
    {
      ClosedStays(g, root, s, step, n);
    }
    hide SpawnInv, At;
    assert s.watcher.NotStarted? || t.seen == s.seen;
    if step.WatchNext? {
      assert s.watcher.left == [s.watcher.left[0]] + t.watcher.left;
    }
  }

  /** What a step leaves in place: closed channels, verdicts on them, the log so far. */
  ghost predicate Grows(s: State, t: State) {
    s.log <= t.log && s.failed <= t.failed && (HasError(s.main) ==> HasError(t.main)) &&
    (forall n :: n in s.workers ==> n in t.workers) &&
    (forall n :: At(s, n, Closed) ==> At(t, n, Closed) && (n in t.failed ==> n in s.failed))
  }

  /** Nothing about noun m changes. */
  ghost predicate Unmoved(s: State, t: State, m: Node) {
    (m in s.workers <==> m in t.workers) && (m in s.workers ==> s.workers[m] == t.workers[m]) &&
    (m in s.failed <==> m in t.failed) &&
    (Started(s, m) <==> Started(t, m)) && (Succeeded(s, m) <==> Succeeded(t, m)) && (Failed(s, m) <==> Failed(t, m))
  }

  lemma SkipKept(g: Graph, s: State, t: State, m: Node)
    requires Grows(s, t) && exists d :: SkippedFor(g, s, m, d)
    ensures exists d :: SkippedFor(g, t, m, d)
  {
    var d :| SkippedFor(g, s, m, d);
    assert SkippedFor(g, t, m, d);
  }

  lemma UnmovedKept(g: Graph, s: State, t: State, m: Node)
    requires Grows(s, t) && Unmoved(s, t, m) && m in s.workers && WorkerInv(g, s, m)
    ensures WorkerInv(g, t, m)
  {
    if exists d :: SkippedFor(g, s, m, d) {
      SkipKept(g, s, t, m);
    }
  }

  /** The noun whose goroutine a step moves. */
  ghost predicate Moves(s: State, step: Step, n: Node) {
    match step
    case Spawn => s.main.Scanning? && s.main.current == n
    case Receive(m) => m == n
    case Drain(m) => m == n
    case Wait(m) => m == n
    case Check(m) => m == n
    case Begin(m) => m == n
    case Finish(m, _) => m == n
    case Record(m) => m == n
    case Close(m) => m == n
    case _ => false
  }

  lemma StepGrows(g: Graph, s: State, step: Step)
    requires WorkersInv(g, s) && Enabled(g, s, step)
    requires s.main.Scanning? ==> s.main.current !in s.workers
    ensures Grows(s, Apply(g, s, step))
  {
    hide WorkersInv;
  }

  lemma StepUnmoved(g: Graph, s: State, step: Step, m: Node)
    requires Enabled(g, s, step) && !Moves(s, step, m)
    ensures Unmoved(s, Apply(g, s, step), m)
  {
  }

  /** Waiting for a dependency, and looking up how it ended. */
  lemma WaitingKept(g: Graph, s: State, step: Step, n: Node)
    requires n in s.workers && WorkerInv(g, s, n) && Enabled(g, s, step) && Grows(s, Apply(g, s, step))
    requires step == Wait(n) || step == Check(n)
    ensures WorkerInv(g, Apply(g, s, step), n)
  {
    var t := Apply(g, s, step);
    if step.Check? && g.edges[n][s.workers[n].i] in s.failed {
      assert SkippedFor(g, t, n, g.edges[n][s.workers[n].i]);
    }
  }

  /** Calling back, recording a failure, and closing the channel. */
  lemma CallingKept(g: Graph, s: State, step: Step, n: Node)
    requires n in s.workers && WorkerInv(g, s, n) && Enabled(g, s, step) && Grows(s, Apply(g, s, step))
    requires step == Begin(n) || step == Finish(n, true) || step == Finish(n, false) || step == Record(n) ||
      step == Close(n)
    ensures WorkerInv(g, Apply(g, s, step), n)
  {
    var t := Apply(g, s, step);
    if step.Close? && exists d :: SkippedFor(g, s, n, d) {
      SkipKept(g, s, t, n);
    }
  }

  /** Handing an error over, to main or to the drainer. */
  lemma SendingKept(g: Graph, s: State, step: Step, n: Node)
    requires n in s.workers && WorkerInv(g, s, n) && ChannelInv(s) && Enabled(g, s, step)
    requires step == Receive(n) || step == Drain(n)
    ensures WorkerInv(g, Apply(g, s, step), n)
  {
  }

  /** The noun whose goroutine moves still stands as its place in the code says. */
  lemma MovedKept(g: Graph, root: Node, s: State, step: Step, n: Node)
    requires SpawnInv(g, root, s) && WorkersInv(g, s) && ChannelInv(s) && Enabled(g, s, step) && Moves(s, step, n)
    ensures n in Apply(g, s, step).workers && WorkerInv(g, Apply(g, s, step), n)
  {
    hide Graph.Reach, WorkerInv, ChannelInv;
    StepGrows(g, s, step);
    if step.Wait? || step.Check? {
      WaitingKept(g, s, step, n);
    } else if step.Receive? || step.Drain? {
      SendingKept(g, s, step, n);
    } else if !step.Spawn? {
      CallingKept(g, s, step, n);
    } else {
      SpawnedKept(g, s);
    }
  }

  lemma SpawnedKept(g: Graph, s: State)
    requires WorkersInv(g, s) && Enabled(g, s, Spawn) && s.main.current !in s.workers
    ensures WorkerInv(g, Apply(g, s, Spawn), s.main.current)
  {
  }

  lemma WorkerKept(g: Graph, root: Node, s: State, step: Step, m: Node)
    requires SpawnInv(g, root, s) && WorkersInv(g, s) && ChannelInv(s) && Enabled(g, s, step)
    ensures var t := Apply(g, s, step);
      (m in t.workers ==> WorkerInv(g, t, m)) &&
      (m !in t.workers ==> NoEvents(t, m) && m !in t.failed) &&
      (Started(t, m) ==> m in g.edges && PassedFirst(g, t, m, |g.edges[m]|)) &&
      (m in t.failed ==> Failed(t, m))
  {
    hide Graph.Reach;
    StepGrows(g, s, step);
    if Moves(s, step, m) {
      MovedKept(g, root, s, step, m);
    } else {
      StepUnmoved(g, s, step, m);
      if m in s.workers {
        UnmovedKept(g, s, Apply(g, s, step), m);
      }
    }
  }

  lemma WorkersKept(g: Graph, root: Node, s: State, step: Step)
    requires Inv(g, root, s) && Enabled(g, s, step)
    ensures WorkersInv(g, Apply(g, s, step))
  {
    hide Graph.Reach, LogInv, WatchInv, SpawnInv, ChannelInv, WorkerInv, Apply, Enabled, NoEvents, PassedFirst;
    var t := Apply(g, s, step);
    forall m
      ensures m in t.workers ==> WorkerInv(g, t, m)
      ensures m !in t.workers ==> NoEvents(t, m) && m !in t.failed
      ensures Started(t, m) ==> m in g.edges && PassedFirst(g, t, m, |g.edges[m]|)
      ensures m in t.failed ==> Failed(t, m)
    {
      WorkerKept(g, root, s, step, m);
    }
  }

  lemma LogGrows(g: Graph, log: seq<Event>, e: Event)
    requires Distinct(log) && (forall k :: 0 <= k < |log| ==> EventInv(g, log, k)) && e !in log
    requires EventInv(g, log + [e], |log|)
    ensures Distinct(log + [e]) && forall k :: 0 <= k <= |log| ==> EventInv(g, log + [e], k)
  {
    DistinctAppend(log, [e]);
    forall k | 0 <= k < |log|
      ensures EventInv(g, log + [e], k)
    {
      assert (log + [e])[..k] == log[..k];
      assert EventInv(g, log, k);
    }
  }

  /** A dependency that passed, with no failure anywhere, was called back successfully. */
  lemma PassedSucceeded(g: Graph, s: State, d: Node)
    requires WorkersInv(g, s) && Passed(s, d) && Clean(s.log)
    ensures Succeeded(s, d)
  {
    assert Outcome(g, s, d);
    assert forall x :: x in s.failed ==> Failed(s, x);
    assert forall x :: x !in s.failed;
  }

  lemma BeginAllowed(g: Graph, s: State, n: Node)
    requires WorkersInv(g, s) && Enabled(g, s, Begin(n))
    ensures EventInv(g, s.log + [CallStart(n)], |s.log|) && CallStart(n) !in s.log
  {
    assert WorkerInv(g, s, n);
    assert (s.log + [CallStart(n)])[..|s.log|] == s.log;
    if Clean(s.log) {
      forall d | g.Edge(n, d)
        ensures CallEnd(d, true) in s.log
      {
        var j :| 0 <= j < |g.edges[n]| && g.edges[n][j] == d;
        assert Passed(s, d);
        PassedSucceeded(g, s, d);
      }
    }
  }

  lemma LogKept(g: Graph, root: Node, s: State, step: Step)
    requires Inv(g, root, s) && Enabled(g, s, step)
    ensures LogInv(g, Apply(g, s, step))
  {
    if step.Begin? {
      BeginAllowed(g, s, step.n);
      LogGrows(g, s.log, CallStart(step.n));
    } else if step.Finish? {
      assert WorkerInv(g, s, step.n);
      var e := CallEnd(step.n, step.ok);
      assert (s.log + [e])[..|s.log|] == s.log;
      LogGrows(g, s.log, e);
    }
  }

  lemma StepKeeps(g: Graph, root: Node, s: State, step: Step)
    requires g.Closed() && Inv(g, root, s) && Enabled(g, s, step)
    ensures Inv(g, root, Apply(g, s, step))
  {
    SpawnKept(g, root, s, step);
    WorkersKept(g, root, s, step);
    ChannelKept(g, root, s, step);
    WatchKept(g, root, s, step);
    LogKept(g, root, s, step);
  }

  lemma InitInv(g: Graph, root: Node)
    requires root in g.edges
    ensures Inv(g, root, Init(root))
  {
    ReachSelf(g, root);
  }

  /** Every state of every run keeps the invariant. */
  lemma {:induction false} RunKeeps(g: Graph, root: Node, run: seq<State>, k: nat)
    requires g.Closed() && root in g.edges && IsRun(g, root, run) && k < |run|
    ensures Inv(g, root, run[k])
  {
    hide Inv, Enabled, Apply;
    if k == 0 {
      InitInv(g, root);
    } else {
      RunKeeps(g, root, run, k - 1);
      assert Next(g, run[k - 1], run[k - 1 + 1]);
      var step :| Enabled(g, run[k - 1], step) && run[k] == Apply(g, run[k - 1], step);
      StepKeeps(g, root, run[k - 1], step);
    }
  }
}
