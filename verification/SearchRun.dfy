/** The evaluation as the program runs it: walking the linked chain and cutting each subquery out of it
    (search/search.go).  It is given for every chain, also for one whose markers do not match. */
module SearchRun {
  import opened Wrappers
  import opened Lists
  import opened SearchChain
  import opened SearchEval

  // ---- Chains that have been cut ----

  /** Links are numbered along the chain, and n stands for nil.  Nothing follows a link that has been cut. */
  function NextOf(cuts: set<nat>, n: nat, p: nat): (q: nat)
    requires p < n
    ensures p < q <= n
  {
    if p in cuts then n else p + 1
  }

  /** Where the chain that starts at a link ends. */
  function ChainEnd(cuts: set<nat>, n: nat, p: nat): (hi: nat)
    requires p <= n
    ensures p <= hi <= n
    decreases n - p
  {
    if p == n then n else if p in cuts then p + 1 else ChainEnd(cuts, n, p + 1)
  }

  ghost function Nexts(links: seq<Link>): (nexts: seq<Link?>)
    reads links
    ensures |nexts| == |links|
  {
    seq(|links|, i requires 0 <= i < |links| reads links => links[i].next)
  }

  ghost function Prevs(links: seq<Link>): seq<Link?>
    reads links
  {
    seq(|links|, i requires 0 <= i < |links| reads links => links[i].prev)
  }

  ghost function LinkOf(links: seq<Link>, p: nat): Link? {
    if p < |links| then links[p] else null
  }

  /** The links are chained but for the cuts. */
  ghost predicate Chained(nexts: seq<Link?>, links: seq<Link>, cuts: set<nat>) {
    |nexts| == |links| && forall i :: 0 <= i < |links| ==> nexts[i] == LinkOf(links, NextOf(cuts, |links|, i))
  }

  ghost predicate Precedes(prevs: seq<Link?>, links: seq<Link>, i: int)
    requires 0 <= i < |links| == |prevs|
  {
    prevs[i] == if i == 0 then null else links[i - 1]
  }

  ghost predicate BackLinked(prevs: seq<Link?>, links: seq<Link>)
    requires |links| == |prevs|
  {
    forall i :: 0 <= i < |links| ==> Precedes(prevs, links, i)
  }

  /** The end marker that closes the subquery whose start is a link, on the way along the chain. */
  function CloseOf(items: seq<LinkView>, cuts: set<nat>, p: nat): (close: Option<nat>)
    requires p < |items|
    ensures close.Some? ==> p < close.value < |items|
  {
    MatchClose(items, p + 1, ChainEnd(cuts, |items|, p + 1), 1)
  }

  /** What becomes of a subquery: the program panics when nothing follows its start, and it may not be closed. */
  datatype Extraction = NothingFollows | NotClosed | Extracted(top: Link, end: Link)

  lemma ChainGoesOn(nexts: seq<Link?>, links: seq<Link>, cuts: set<nat>, p: nat)
    requires Chained(nexts, links, cuts) && p < |links|
    ensures |nexts| == |links| && (nexts[p] == null <==> NextOf(cuts, |links|, p) == |links|)
    ensures nexts[p] != null ==> p + 1 < |links| && nexts[p] == links[p + 1] && p + 1 < ChainEnd(cuts, |links|, p + 1)
    ensures ChainEnd(cuts, |links|, p) == if nexts[p] == null then p + 1 else ChainEnd(cuts, |links|, p + 1)
  {
  }

  lemma CutChained(nexts: seq<Link?>, links: seq<Link>, cuts: set<nat>, p: nat)
    requires Chained(nexts, links, cuts) && p < |links|
    ensures Chained(nexts[p := null], links, cuts + {p})
  {
  }

  method Snip(prev: Link, ghost links: seq<Link>, ghost cuts: set<nat>, ghost p: nat)
    requires Distinct(links) && p < |links| && prev == links[p] && Chained(Nexts(links), links, cuts)
    modifies links
    ensures Views(links) == old(Views(links)) && Prevs(links) == old(Prevs(links))
    ensures Chained(Nexts(links), links, cuts + {p})
  {
    ghost var nexts := Nexts(links);
    CutChained(nexts, links, cuts, p);
    hide Chained;
    prev.next := null;
    assert Nexts(links) == nexts[p := null];
  }

  /** Follows a subquery to its end and snips the chain off there. */
  method ExtractSubQuery(s: Link, ghost links: seq<Link>, ghost cuts: set<nat>, ghost p: nat) returns (r: Extraction)
    requires Distinct(links) && p < |links| && s == links[p] && Chained(Nexts(links), links, cuts)
    modifies links
    ensures Views(links) == old(Views(links)) && Prevs(links) == old(Prevs(links))
    ensures NextOf(cuts, |links|, p) == |links| ==> r.NothingFollows? && Chained(Nexts(links), links, cuts)
    ensures NextOf(cuts, |links|, p) < |links| ==>
      match CloseOf(old(Views(links)), cuts, p)
      case None => r.NotClosed? && Chained(Nexts(links), links, cuts)
      case Some(close) =>
        r == Extracted(links[p + 1], links[close]) && Chained(Nexts(links), links, cuts + {close - 1})
  {
    hide Chained, NextOf, ChainEnd, MatchClose, Distinct;
    ghost var items, nexts, prevs, n := Views(links), Nexts(links), Prevs(links), |links|;
    ChainGoesOn(nexts, links, cuts, p);
    assert nexts[p] == s.next;
    if s.next == null {
      return NothingFollows;
    }
    var level, prev, top, end := 1, s, s.next, s.next;
    ghost var i, hi := p + 1, ChainEnd(cuts, n, p + 1);
    while end != null
      invariant p < i <= hi && end == (if i < hi then links[i] else null) && prev == links[i - 1] && level > 0
      invariant i < hi ==> ChainEnd(cuts, n, i) == hi
      invariant MatchClose(items, p + 1, hi, 1) == MatchClose(items, i, hi, level)
      invariant Views(links) == items && Nexts(links) == nexts && Prevs(links) == prevs
      decreases hi - i
    {
      assert items[i] == end.View() && nexts[i] == end.next;
      ChainGoesOn(nexts, links, cuts, i);
      MatchStep(items, i, hi, level);
      if end.query.Sub? {
        level := if end.query.opens then level + 1 else level - 1;
      }
      if level == 0 {
        Snip(prev, links, cuts, i - 1);
        return Extracted(top, end);
      }
      prev, end, i := end, end.next, i + 1;
    }
    return NotClosed;
  }

  // ---- The evaluation ----

  datatype Outcome = Panics | Fails | Found(docs: Docs)

  /** How an evaluation ends, and where the chain has been cut by then. */
  datatype Trail = Trail(outcome: Outcome, cuts: set<nat>)

  /** Evaluates the links from p on.  A subquery runs as a chain of its own; when it has no links, that chain starts at
      its end marker and goes on behind it. */
  function Evaluate(ix: Index, items: seq<LinkView>, cuts: set<nat>, p: nat, docs: Docs, op: Op): Trail
    requires p <= |items|
    decreases |items| - p, 1
  {
    if p == |items| then Trail(Found(docs), cuts)
    else
      var next := NextOf(cuts, |items|, p);
      if items[p].query.Not? then Evaluate(ix, items, cuts, next, docs, op)
      else if items[p].query.Sub? then
        if next == |items| then Trail(Panics, cuts)
        else if CloseOf(items, cuts, p).None? then Trail(Fails, cuts)
        else
          var close := CloseOf(items, cuts, p).value;
          var sub := Evaluate(ix, items, cuts + {close - 1}, p + 1, if op == BinAnd then docs else map[], op);
          GoOn(ix, items, sub, close, docs, op)
      else
        var found := Lookup(ix, items[p].query, PrevOp(items, p), if op == BinAnd then Some(docs) else None);
        Evaluate(ix, items, cuts, next, Combine(docs, found, op), items[p].op)
  }

  /** Goes on behind the end marker of a subquery with what it found. */
  function GoOn(ix: Index, items: seq<LinkView>, sub: Trail, close: nat, docs: Docs, op: Op): Trail
    requires close < |items|
    decreases |items| - close, 0
  {
    if !sub.outcome.Found? then sub
    else
      Evaluate(ix, items, sub.cuts, NextOf(sub.cuts, |items|, close), Combine(docs, sub.outcome.docs, op),
        items[close].op)
  }

  /** What stands in every round: the links say what they said, and are chained but for the cuts. */
  ghost predicate Standing(links: seq<Link>, items: seq<LinkView>, cuts: set<nat>)
    reads links
  {
    Views(links) == items && BackLinked(Prevs(links), links) && Chained(Nexts(links), links, cuts)
  }

  lemma LinkAt(links: seq<Link>, items: seq<LinkView>, cuts: set<nat>, i: nat)
    requires i < |links| && Standing(links, items, cuts)
    ensures |items| == |links| && links[i].View() == items[i]
    ensures links[i].next == LinkOf(links, NextOf(cuts, |links|, i))
    ensures links[i].prev == (if i > 0 then links[i - 1] else null)
  {
    assert Precedes(Prevs(links), links, i);
    assert Nexts(links)[i] == links[i].next && Prevs(links)[i] == links[i].prev && Views(links)[i] == links[i].View();
  }

  /** Cuts the subquery out and runs it as a chain of its own. */
  method RunSubQuery(ix: Index, s: Link, docs: Docs, op: Op, ghost links: seq<Link>, ghost items: seq<LinkView>,
      ghost cuts: set<nat>, ghost p: nat) returns (r: Outcome, end: Link, ghost cuts': set<nat>)
    requires Distinct(links) && p < |links| == |items| && Standing(links, items, cuts) && s == links[p]
    modifies links
    ensures Standing(links, items, cuts')
    ensures NextOf(cuts, |links|, p) == |links| ==> r.Panics? && cuts' == cuts
    ensures NextOf(cuts, |links|, p) < |links| ==>
      match CloseOf(items, cuts, p)
      case None => r.Fails? && cuts' == cuts
      case Some(close) =>
        var start := if op == BinAnd then docs else map[];
        end == links[close] && Trail(r, cuts') == Evaluate(ix, items, cuts + {close - 1}, p + 1, start, op)
    decreases |links| - p, 0
  {
    hide BackLinked, Chained, Evaluate, CloseOf, NextOf, Distinct;
    end, cuts' := s, cuts;
    var x := ExtractSubQuery(s, links, cuts, p);
    match x
    case NothingFollows => r := Panics;
    case NotClosed => r := Fails;
    case Extracted(top, last) =>
      ghost var close := CloseOf(items, cuts, p).value;
      r, cuts' := RunChain(ix, top, if op == BinAnd then docs else map[], op, links, items, cuts + {close - 1}, p + 1);
      end := last;
  }

  /** Evaluates a chain link by link: what the links say is read off the heap, and subqueries are cut out. */
  method RunChain(ix: Index, chain: Link?, found: Docs, parentOp: Op, ghost links: seq<Link>,
      ghost items: seq<LinkView>, ghost cuts: set<nat>, ghost p: nat) returns (r: Outcome, ghost cuts': set<nat>)
    requires Distinct(links) && p <= |links| == |items| && Standing(links, items, cuts) && chain == LinkOf(links, p)
    modifies links
    ensures Trail(r, cuts') == Evaluate(ix, items, cuts, p, found, parentOp) && Standing(links, items, cuts')
    decreases |links| - p, 1
  {
    hide BackLinked, Chained, Lookup, Combine, CloseOf, Distinct, NextOf;
    var s, docs, curOp := chain, found, parentOp;
    ghost var i := p;
    cuts' := cuts;
    while s != null
      invariant p <= i <= |links| && s == LinkOf(links, i) && Standing(links, items, cuts')
      invariant Evaluate(ix, items, cuts, p, found, parentOp) == Evaluate(ix, items, cuts', i, docs, curOp)
      decreases |links| - i
    {
      LinkAt(links, items, cuts', i);
      ghost var next := NextOf(cuts', |links|, i);
      if s.query.Not? {
        s, i := s.next, next;
      } else if s.query.Sub? {
        ghost var close := CloseOf(items, cuts', i);
        var sub, end;
        sub, end, cuts' := RunSubQuery(ix, s, docs, curOp, links, items, cuts', i);
        if !sub.Found? {
          return sub, cuts';
        }
        LinkAt(links, items, cuts', close.value);
        docs := Combine(docs, sub.docs, curOp);
        s, curOp, i := end.next, end.op, NextOf(cuts', |links|, close.value);
      } else {
        var matches := Lookup(ix, s.query, if s.prev == null then NotAnOp else s.prev.op,
                              if curOp == BinAnd then Some(docs) else None);
        docs := Combine(docs, matches, curOp);
        s, curOp, i := s.next, s.op, next;
      }
    }
    return Found(docs), cuts';
  }

  // ---- Chains whose markers match ----

  /** The links lo up to hi are a chain, nowhere cut. */
  ghost predicate Whole(cuts: set<nat>, n: nat, lo: nat, hi: nat) {
    lo <= hi <= n && (forall k :: lo <= k < hi - 1 ==> k !in cuts) && (lo < hi < n ==> hi - 1 in cuts)
  }

  /** Where to go on: nowhere, when there are no links left. */
  function Onward(lo: nat, hi: nat, n: nat): nat {
    if lo < hi then lo else n
  }

  ghost predicate SameOutside(cuts: set<nat>, cuts': set<nat>, lo: nat, hi: nat) {
    forall k: nat :: k < lo || k + 1 >= hi ==> (k in cuts <==> k in cuts')
  }

  lemma {:induction false} WholeEnds(cuts: set<nat>, n: nat, lo: nat, hi: nat)
    requires Whole(cuts, n, lo, hi) && lo < hi
    ensures ChainEnd(cuts, n, lo) == hi && NextOf(cuts, n, lo) == Onward(lo + 1, hi, n) && Whole(cuts, n, lo + 1, hi)
    decreases hi - lo
  {
    if lo + 1 < hi {
      WholeEnds(cuts, n, lo + 1, hi);
    }
  }

  /** Cutting before `close` leaves two whole chains. */
  lemma CutWhole(cuts: set<nat>, n: nat, lo: nat, close: nat, hi: nat)
    requires Whole(cuts, n, lo, hi) && lo + 1 < close < hi
    ensures Whole(cuts + {close - 1}, n, lo + 1, close)
  {
  }

  lemma AfterSub(cuts: set<nat>, cuts': set<nat>, n: nat, lo: nat, close: nat, hi: nat)
    requires Whole(cuts, n, lo, hi) && lo + 1 < close < hi && SameOutside(cuts + {close - 1}, cuts', lo + 1, close)
    ensures Whole(cuts', n, close, hi) && SameOutside(cuts, cuts', lo, hi)
  {
  }

  lemma OutsideStays(cuts: set<nat>, mid: set<nat>, cuts': set<nat>, lo: nat, at: nat, hi: nat)
    requires lo <= at && SameOutside(cuts, mid, lo, hi) && SameOutside(mid, cuts', at, hi)
    ensures SameOutside(cuts, cuts', lo, hi)
  {
  }

  lemma WholeCloses(items: seq<LinkView>, cuts: set<nat>, lo: nat, hi: nat)
    requires Whole(cuts, |items|, lo, hi) && lo + 1 < hi
    ensures CloseOf(items, cuts, lo) == MatchClose(items, lo + 1, hi, 1) && NextOf(cuts, |items|, lo) < |items|
  {
    hide MatchClose;
    WholeEnds(cuts, |items|, lo, hi);
    WholeEnds(cuts, |items|, lo + 1, hi);
  }

  /** A subquery read in place. */
  lemma SubInPlace(ix: Index, items: seq<LinkView>, lo: nat, hi: nat, docs: Docs, op: Op) returns (close: nat)
    requires lo < hi <= |items| && items[lo].query.Sub? && Execute(ix, items, lo, hi, docs, op).Some?
    ensures MatchClose(items, lo + 1, hi, 1) == Some(close) && lo + 1 < close < hi
    ensures var r := Execute(ix, items, lo + 1, close, if op == BinAnd then docs else map[], op);
      r.Some? && Execute(ix, items, lo, hi, docs, op) ==
        Execute(ix, items, close + 1, hi, Combine(docs, r.value, op), items[close].op)
  {
    hide Lookup, Combine;
    close := MatchClose(items, lo + 1, hi, 1).value;
  }

  lemma SubStep(ix: Index, items: seq<LinkView>, cuts: set<nat>, p: nat, docs: Docs, op: Op, close: nat)
    requires p < |items| && items[p].query.Sub? && NextOf(cuts, |items|, p) < |items|
    requires CloseOf(items, cuts, p) == Some(close)
    ensures Evaluate(ix, items, cuts, p, docs, op) ==
      GoOn(ix, items, Evaluate(ix, items, cuts + {close - 1}, p + 1, if op == BinAnd then docs else map[], op), close,
        docs, op)
  {
    hide *;
    SubStepIs(ix, items, cuts, p, docs, op);
  }

  lemma SubStepIs(ix: Index, items: seq<LinkView>, cuts: set<nat>, p: nat, docs: Docs, op: Op)
    requires p < |items| && items[p].query.Sub?
    ensures Evaluate(ix, items, cuts, p, docs, op) ==
      if NextOf(cuts, |items|, p) == |items| then Trail(Panics, cuts)
      else match CloseOf(items, cuts, p)
        case None => Trail(Fails, cuts)
        case Some(close) =>
          var start := if op == BinAnd then docs else map[];
          GoOn(ix, items, Evaluate(ix, items, cuts + {close - 1}, p + 1, start, op), close, docs, op)
  {
    hide Lookup, Combine, CloseOf, NextOf, GoOn, PrevOp;
  }

  lemma PlainStep(ix: Index, items: seq<LinkView>, cuts: set<nat>, lo: nat, docs: Docs, op: Op)
    requires lo < |items| && !items[lo].query.Sub?
    ensures Evaluate(ix, items, cuts, lo, docs, op) ==
      var next := NextOf(cuts, |items|, lo);
      if items[lo].query.Not? then Evaluate(ix, items, cuts, next, docs, op)
      else
        var found := Lookup(ix, items[lo].query, PrevOp(items, lo), if op == BinAnd then Some(docs) else None);
        Evaluate(ix, items, cuts, next, Combine(docs, found, op), items[lo].op)
  {
    hide Lookup, Combine, MatchClose;
  }

  lemma GoesOn(ix: Index, items: seq<LinkView>, sub: Trail, close: nat, docs: Docs, op: Op)
    requires close < |items| && sub.outcome.Found?
    ensures GoOn(ix, items, sub, close, docs, op) ==
      Evaluate(ix, items, sub.cuts, NextOf(sub.cuts, |items|, close), Combine(docs, sub.outcome.docs, op),
        items[close].op)
  {
    hide Evaluate, NextOf, Combine;
  }

  /** Where the markers match, cutting makes no difference: the program finds what reading the links in place finds. */
  lemma {:induction false} EvaluatesInPlace(ix: Index, items: seq<LinkView>, cuts: set<nat>, lo: nat, hi: nat,
      docs: Docs, op: Op)
    requires Whole(cuts, |items|, lo, hi) && Execute(ix, items, lo, hi, docs, op).Some?
    ensures var r := Evaluate(ix, items, cuts, Onward(lo, hi, |items|), docs, op);
      r.outcome == Found(Execute(ix, items, lo, hi, docs, op).value) && SameOutside(cuts, r.cuts, lo, hi)
    decreases hi - lo, 1
  {
    hide Lookup, Combine, MatchClose, Execute, Evaluate;
    if lo == hi {
      ExecEnd(ix, items, hi, docs, op);
      AtNil(ix, items, cuts, docs, op);
    } else {
      WholeEnds(cuts, |items|, lo, hi);
      hide NextOf, Whole, SameOutside;
      if items[lo].query.Sub? {
        SubEvaluatesInPlace(ix, items, cuts, lo, hi, docs, op);
      } else {
        ExecStep(ix, items, lo, hi, docs, op);
        PlainStep(ix, items, cuts, lo, docs, op);
        var found := Lookup(ix, items[lo].query, PrevOp(items, lo), if op == BinAnd then Some(docs) else None);
        if items[lo].query.Not? {
          EvaluatesInPlace(ix, items, cuts, lo + 1, hi, docs, op);
        } else {
          EvaluatesInPlace(ix, items, cuts, lo + 1, hi, Combine(docs, found, op), items[lo].op);
        }
        OutsideNothing(cuts, lo, hi);
        OutsideStays(cuts, cuts, Evaluate(ix, items, cuts, lo, docs, op).cuts, lo, lo + 1, hi);
      }
    }
  }

  lemma {:induction false} SubEvaluatesInPlace(ix: Index, items: seq<LinkView>, cuts: set<nat>, lo: nat, hi: nat,
      docs: Docs, op: Op)
    requires Whole(cuts, |items|, lo, hi) && lo < hi <= |items| && items[lo].query.Sub?
    requires Execute(ix, items, lo, hi, docs, op).Some?
    ensures var r := Evaluate(ix, items, cuts, lo, docs, op);
      r.outcome == Found(Execute(ix, items, lo, hi, docs, op).value) && SameOutside(cuts, r.cuts, lo, hi)
    decreases hi - lo, 0
  {
    hide *;
    var n := |items|;
    var close := SubInPlace(ix, items, lo, hi, docs, op);
    var start := if op == BinAnd then docs else map[];
    CutWhole(cuts, n, lo, close, hi);
    Starts(lo + 1, close, n);
    EvaluatesInPlace(ix, items, cuts + {close - 1}, lo + 1, close, start, op);
    var sub := Evaluate(ix, items, cuts + {close - 1}, lo + 1, start, op);
    WholeCloses(items, cuts, lo, hi);
    SubStep(ix, items, cuts, lo, docs, op, close);
    GoesOn(ix, items, sub, close, docs, op);
    AfterSub(cuts, sub.cuts, n, lo, close, hi);
    WholeEnds(sub.cuts, n, close, hi);
    EvaluatesInPlace(ix, items, sub.cuts, close + 1, hi, Combine(docs, sub.outcome.docs, op), items[close].op);
    OutsideStays(cuts, sub.cuts, Evaluate(ix, items, cuts, lo, docs, op).cuts, lo, close + 1, hi);
  }

  lemma Starts(lo: nat, hi: nat, n: nat)
    requires lo < hi
    ensures Onward(lo, hi, n) == lo
  {
  }

  lemma AtNil(ix: Index, items: seq<LinkView>, cuts: set<nat>, docs: Docs, op: Op)
    ensures Evaluate(ix, items, cuts, |items|, docs, op) == Trail(Found(docs), cuts)
  {
  }

  lemma OutsideNothing(cuts: set<nat>, lo: nat, hi: nat)
    ensures SameOutside(cuts, cuts, lo, hi)
  {
  }
}
