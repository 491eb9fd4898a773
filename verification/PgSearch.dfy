/** Compiling a query chain into one parameterised SQL statement (search/postgres_search.go). */
module PgSearch {
  import opened Lists
  import opened Wrappers
  import opened SearchChain
  import opened SearchEval
  import opened SearchRun
  import opened SearchShape
  import opened Sql
  import opened PgClauses

  // ---- The statement with every argument in place ----

  function Clause(key: string -> string, q: Query, t: int, op: Op): Text {
    match q
    case Basic(field, term) => BasicClause(key, field, term, t, op)
    case Grouped(field, terms) => GroupedClause(key, field, terms, t, op)
    case Range(field, start, end, inclusive, negated) => RangeClause(key, field, start, end, inclusive, t, op, negated)
    case _ => Lit("")
  }

  /** How many joined tables a link takes. */
  function Width(q: Query): nat {
    match q
    case Basic(_, _) => 1
    case Grouped(_, terms) => |terms| + 1
    case Range(_, _, _, _, _) => 1
    case _ => 0
  }

  function WidthOf(o: Operand): nat {
    match o
    case Leaf(q, _) => Width(q)
    case Group(c) => Tables(c)
  }

  function Tables(c: Chain): nat {
    match c
    case End(o) => WidthOf(o)
    case More(o, _, rest) => WidthOf(o) + Tables(rest)
  }

  function ClauseOf(key: string -> string, o: Operand, t: int, op: Op): Text
    decreases o, 1
  {
    match o
    case Leaf(q, _) => Clause(key, q, t, op)
    case Group(c) => Joined(op, Join(Clauses(key, c, t, NotAnOp), " "))
  }

  /** One clause per operand, each with tables of its own. */
  function Clauses(key: string -> string, c: Chain, t: int, op: Op): seq<Text>
    decreases c, 0
  {
    match c
    case End(o) => [ClauseOf(key, o, t, op)]
    case More(o, op', rest) => [ClauseOf(key, o, t, op)] + Clauses(key, rest, t + WidthOf(o), op')
  }

  /** The argument without a place. */
  function Extra(q: Query): seq<string> {
    if q.Range? && Unbounded(q.start, q.end) then [q.field + ".*"] else []
  }

  function ArgsOf(key: string -> string, o: Operand, t: int, op: Op): seq<string> {
    match o
    case Leaf(q, _) => Values(Clause(key, q, t, op)) + Extra(q)
    case Group(c) => Args(key, c, t, NotAnOp)
  }

  function Args(key: string -> string, c: Chain, t: int, op: Op): seq<string> {
    match c
    case End(o) => ArgsOf(key, o, t, op)
    case More(o, op', rest) => ArgsOf(key, o, t, op) + Args(key, rest, t + WidthOf(o), op')
  }

  /** The paths the statement looks at. */
  function LinkPaths(key: string -> string, q: Query): seq<string> {
    match q
    case Basic(field, term) =>
      var alt := if IsPath(field, term) then AltPath(key, field, term) else "";
      (if field != "" then [field] else []) + (if alt != "" then [alt] else [])
    case Grouped(field, _) => [field, field + ".*"]
    case Range(field, _, _, _, _) => [field, field + ".*"]
    case _ => []
  }

  function PathsOf(key: string -> string, o: Operand): seq<string> {
    match o
    case Leaf(q, _) => LinkPaths(key, q)
    case Group(c) => Paths(key, c)
  }

  function Paths(key: string -> string, c: Chain): seq<string> {
    match c
    case End(o) => PathsOf(key, o)
    case More(o, _, rest) => PathsOf(key, o) + Paths(key, rest)
  }

  /** The links of terms, groups of terms and ranges, wherever they are in a query. */
  function LeavesOf(o: Operand): set<Query> {
    match o
    case Leaf(q, _) => {q}
    case Group(c) => Leaves(c)
  }

  function Leaves(c: Chain): set<Query> {
    match c
    case End(o) => LeavesOf(o)
    case More(o, _, rest) => LeavesOf(o) + Leaves(rest)
  }

  /** A path a link asks for: its field, the path a term ends, or any path under the field of a group or a range. */
  predicate AsksFor(key: string -> string, q: Query, p: string) {
    match q
    case Basic(field, term) =>
      field != "" &&
      (p == field || (term.term != "*" && term.term != "" && p != "" && p == key(field + "." + term.term)))
    case Grouped(field, _) => p == field || p == field + ".*"
    case Range(field, _, _, _, _) => p == field || p == field + ".*"
    case _ => false
  }

  /** Exactly the paths some link asks for are looked at. */
  lemma {:induction false} PathsExactly(key: string -> string, c: Chain, p: string)
    ensures p in Paths(key, c) <==> exists q :: q in Leaves(c) && AsksFor(key, q, p)
  {
    hide AsksFor;
    var o := if c.End? then c.last else c.first;
    if o.Group? {
      PathsExactly(key, o.chain, p);
    } else {
      LinkPathsAre(key, o.query, p);
    }
    if c.More? {
      PathsExactly(key, c.rest, p);
    }
  }

  lemma LinkPathsAre(key: string -> string, q: Query, p: string)
    ensures p in LinkPaths(key, q) <==> AsksFor(key, q, p)
  {
  }

  // ---- What is compiled ----

  /** Clauses, arguments, paths and tables. */
  datatype Work = Work(clauses: seq<Text>, args: seq<string>, paths: seq<string>, tables: nat)

  function Plus(a: Work, b: Work): Work {
    Work(a.clauses + b.clauses, a.args + b.args, a.paths + b.paths, a.tables + b.tables)
  }

  function WorkOf(key: string -> string, o: Operand, t: int, op: Op): Work {
    Work([ClauseOf(key, o, t, op)], ArgsOf(key, o, t, op), PathsOf(key, o), WidthOf(o))
  }

  function ChainWork(key: string -> string, c: Chain, t: int, op: Op): Work {
    Work(Clauses(key, c, t, op), Args(key, c, t, op), Paths(key, c), Tables(c))
  }

  function Rest(key: string -> string, r: Option<Chain>, t: int, op: Op): Work {
    if r.None? then Work([], [], [], 0) else ChainWork(key, r.value, t, op)
  }

  lemma OperandFirst(key: string -> string, c: Chain, t: int, op: Op, last: Op)
    ensures ChainWork(key, c, t, op) ==
      Plus(WorkOf(key, First(c), t, op), Rest(key, Tail(c), t + WidthOf(First(c)), OpAfter(c, last)))
  {
    hide ClauseOf, ArgsOf, PathsOf, WidthOf;
  }

  lemma PlusAssoc(a: Work, b: Work, c: Work)
    ensures Plus(Plus(a, b), c) == Plus(a, Plus(b, c))
  {
  }

  lemma LeafWork(key: string -> string, q: Query, negated: bool, t: int, op: Op)
    ensures WorkOf(key, Leaf(q, negated), t, op) ==
      Work([Clause(key, q, t, op)], Values(Clause(key, q, t, op)) + Extra(q), LinkPaths(key, q), Width(q))
    ensures WidthOf(Leaf(q, negated)) == Width(q)
  {
    hide Clause, Values, Extra, LinkPaths, Width;
  }

  lemma NotIsNoWork(key: string -> string, c: Chain, t: int, op: Op)
    requires First(c).Leaf?
    ensures ChainWork(key, WithoutNot(c), t, op) == ChainWork(key, c, t, op)
  {
    hide ChainWork, Plus, Rest, Clauses, Args, Paths, Tables, Clause, Values;
    OperandFirst(key, c, t, op, NotAnOp);
    OperandFirst(key, WithoutNot(c), t, op, NotAnOp);
    LeafWork(key, First(c).query, First(c).negated, t, op);
    LeafWork(key, First(c).query, false, t, op);
    hide WorkOf;
  }

  // ---- The texts of the clauses ----

  lemma ClauseLaws(key: string -> string, q: Query, t: int, op: Op)
    ensures Inline(Clause(key, q, t, op))
    ensures forall a :: a in Uses(Clause(key, q, t, op)) ==> t <= a < t + Width(q) || (a == ITEM && NeedsItem(q))
    ensures NeedsItem(q) ==> ITEM in Uses(Clause(key, q, t, op))
  {
    hide Inline, Uses, Values, Erase, BasicClause, GroupedClause, RangeClause, BasicSlots, BasicValues, GroupedText,
      ValueSlots, PathSlots, TermValues, TermPaths, RangeSlots, RangeValues, Bounds;
    match q
    case Basic(field, term) => BasicLaws(key, field, term, t, op);
    case Grouped(field, terms) => GroupedLaws(key, field, terms, t, op);
    case Range(field, start, end, inclusive, negated) => RangeLaws(key, field, start, end, inclusive, t, op, negated);
    case _ => LitLaws("");
  }

  lemma {:induction false} ClausesInline(key: string -> string, c: Chain, t: int, op: Op)
    ensures InlineAll(Clauses(key, c, t, op)) && |Clauses(key, c, t, op)| > 0
  {
    hide Inline, Clause, Join, Joined, WidthOf;
    var o := First(c);
    if o.Group? {
      var inner := Clauses(key, o.chain, t, NotAnOp);
      ClausesInline(key, o.chain, t, NotAnOp);
      JoinLaws(inner, " ");
      JoinedLaws(op, Join(inner, " "));
    } else {
      ClauseLaws(key, o.query, t, op);
    }
    assert Inline(ClauseOf(key, o, t, op));
    if c.More? {
      ClausesInline(key, c.rest, t + WidthOf(o), c.op);
    }
  }

  // ---- What compiling any chain comes to ----

  function NoWork(): Work {
    Work([], [], [], 0)
  }

  /** The work of a subquery, its clauses in parentheses. */
  function Bracketed(op: Op, w: Work): Work {
    Work([Joined(op, Join(w.clauses, " "))], w.args, w.paths, w.tables)
  }

  datatype PgOutcome = PgPanics | PgFails | Made(work: Work)

  /** How compiling ends, where the chain has been cut by then, and how many tables are taken. */
  datatype PgTrail = PgTrail(outcome: PgOutcome, cuts: set<nat>, t: int)

  type LinkWork = (Query, int, Op) -> Work

  /** The work of one link, from a number of tables on and after an operator. */
  function WorkWith(key: string -> string): LinkWork {
    (q, t, op) => WorkOf(key, Leaf(q, false), t, op)
  }

  /** Compiles the links from p on, added to the work w.  The program panics at a marker nothing follows, and where one
      table is taken and there is no clause to take it from. */
  function CompileFrom(link: LinkWork, items: seq<LinkView>, cuts: set<nat>, p: nat, t: int, op: Op, w: Work): PgTrail
    requires p <= |items|
    decreases |items| - p, 1
  {
    if p == |items| then PgTrail(if t == 1 && w.clauses == [] then PgPanics else Made(w), cuts, t)
    else
      var next, q := NextOf(cuts, |items|, p), items[p].query;
      if q.Not? then CompileFrom(link, items, cuts, next, t, op, w)
      else if q.Sub? then
        if next == |items| then PgTrail(PgPanics, cuts, t)
        else if CloseOf(items, cuts, p).None? then PgTrail(PgFails, cuts, t)
        else
          var close := CloseOf(items, cuts, p).value;
          var sub := CompileFrom(link, items, cuts + {close - 1}, p + 1, t, NotAnOp, NoWork());
          CompileOn(link, items, sub, close, op, w)
      else
        CompileFrom(link, items, cuts, next, t + Width(q), items[p].op, Plus(w, link(q, t, op)))
  }

  /** Goes on behind the end marker of a subquery. */
  function CompileOn(link: LinkWork, items: seq<LinkView>, sub: PgTrail, close: nat, op: Op, w: Work): PgTrail
    requires close < |items|
    decreases |items| - close, 0
  {
    if !sub.outcome.Made? then sub
    else
      CompileFrom(link, items, sub.cuts, NextOf(sub.cuts, |items|, close), sub.t, items[close].op,
        Plus(w, Bracketed(op, sub.outcome.work)))
  }

  lemma CompileNil(link: LinkWork, items: seq<LinkView>, cuts: set<nat>, t: int, op: Op, w: Work)
    ensures CompileFrom(link, items, cuts, |items|, t, op, w) ==
      PgTrail(if t == 1 && w.clauses == [] then PgPanics else Made(w), cuts, t)
  {
  }

  lemma CompileNot(link: LinkWork, items: seq<LinkView>, cuts: set<nat>, p: nat, t: int, op: Op, w: Work)
    requires p < |items| && items[p].query.Not?
    ensures CompileFrom(link, items, cuts, p, t, op, w) ==
      CompileFrom(link, items, cuts, NextOf(cuts, |items|, p), t, op, w)
  {
    hide NextOf, CloseOf, Plus, Width;
  }

  lemma CompileLink(link: LinkWork, items: seq<LinkView>, cuts: set<nat>, p: nat, t: int, op: Op, w: Work)
    requires p < |items| && !items[p].query.Not? && !items[p].query.Sub?
    ensures CompileFrom(link, items, cuts, p, t, op, w) ==
      CompileFrom(link, items, cuts, NextOf(cuts, |items|, p), t + Width(items[p].query), items[p].op,
        Plus(w, link(items[p].query, t, op)))
  {
    hide NextOf, CloseOf, Plus, Width;
  }

  lemma CompileSub(link: LinkWork, items: seq<LinkView>, cuts: set<nat>, p: nat, t: int, op: Op, w: Work)
    requires p < |items| && items[p].query.Sub?
    ensures CompileFrom(link, items, cuts, p, t, op, w) ==
      if NextOf(cuts, |items|, p) == |items| then PgTrail(PgPanics, cuts, t)
      else match CloseOf(items, cuts, p)
        case None => PgTrail(PgFails, cuts, t)
        case Some(close) =>
          var sub := CompileFrom(link, items, cuts + {close - 1}, p + 1, t, NotAnOp, NoWork());
          CompileOn(link, items, sub, close, op, w)
  {
    hide NextOf, CloseOf, Plus, Width, CompileOn;
  }

  lemma CompilesOn(link: LinkWork, items: seq<LinkView>, sub: PgTrail, close: nat, op: Op, w: Work)
    requires close < |items|
    ensures CompileOn(link, items, sub, close, op, w) ==
      if !sub.outcome.Made? then sub
      else
        CompileFrom(link, items, sub.cuts, NextOf(sub.cuts, |items|, close), sub.t, items[close].op,
          Plus(w, Bracketed(op, sub.outcome.work)))
  {
    hide CompileFrom, NextOf, Plus, Bracketed;
  }

  // ---- The compiler ----

  /** The fields hold exactly this work, the clauses with their arguments taken out. */
  ghost predicate Collected(paths: seq<string>, arguments: seq<string>, queryStrs: seq<Text>, w: Work) {
    queryStrs == EraseAll(w.clauses) && arguments == w.args && paths == w.paths && InlineAll(w.clauses)
  }

  lemma NothingCollected()
    ensures Collected([], [], [], NoWork())
  {
  }

  lemma NoClauses(paths: seq<string>, arguments: seq<string>, queryStrs: seq<Text>, w: Work)
    requires Collected(paths, arguments, queryStrs, w)
    ensures queryStrs == [] <==> w.clauses == []
  {
  }

  lemma GroupCollected(op: Op, w: Work, sub: Work, p: seq<string>, a: seq<string>, q: seq<Text>, p': seq<string>,
      a': seq<string>, q': seq<Text>)
    requires Collected(p, a, q, w) && Collected(p', a', q', sub)
    ensures Collected(p + p', a + a', q + [Joined(op, Join(q', " "))], Plus(w, Bracketed(op, sub)))
  {
    hide Join, Joined, Erase, Inline;
    JoinLaws(sub.clauses, " ");
    JoinedLaws(op, Join(sub.clauses, " "));
    assert EraseAll(w.clauses + [Joined(op, Join(sub.clauses, " "))]) == q + [Joined(op, Join(q', " "))];
  }

  /** The link is the one it was; only a NOT may have another operator by now. */
  ghost predicate Tells(view: LinkView, item: LinkView) {
    view.query == item.query && (item.query.Not? || view.op == item.op)
  }

  /** What stands in every round: the links are what they were, and chained but for the cuts. */
  ghost predicate Legible(views: seq<LinkView>, nexts: seq<Link?>, links: seq<Link>, items: seq<LinkView>,
      cuts: set<nat>) {
    |views| == |links| == |items| && Chained(nexts, links, cuts) &&
    forall i :: 0 <= i < |items| ==> Tells(views[i], items[i])
  }

  lemma LegibleAt(views: seq<LinkView>, nexts: seq<Link?>, links: seq<Link>, items: seq<LinkView>, cuts: set<nat>,
      i: nat)
    requires Legible(views, nexts, links, items, cuts) && i < |links|
    ensures |views| == |nexts| == |links| == |items| && views[i].query == items[i].query
    ensures !items[i].query.Not? ==> views[i].op == items[i].op
    ensures nexts[i] == LinkOf(links, NextOf(cuts, |links|, i))
  {
    assert Tells(views[i], items[i]);
  }

  /** Looking for the end marker among the links as they are now. */
  lemma LegibleClose(views: seq<LinkView>, nexts: seq<Link?>, links: seq<Link>, items: seq<LinkView>, cuts: set<nat>,
      i: nat)
    requires Legible(views, nexts, links, items, cuts) && i < |links|
    ensures |views| == |items| == |links| && CloseOf(views, cuts, i) == CloseOf(items, cuts, i)
    ensures Chained(nexts, links, cuts)
  {
    forall k | 0 <= k < |items|
      ensures views[k].query == items[k].query
    {
      assert Tells(views[k], items[k]);
    }
    SameClose(views, items, i + 1, ChainEnd(cuts, |items|, i + 1), 1);
  }

  lemma LegibleCut(views: seq<LinkView>, nexts: seq<Link?>, nexts': seq<Link?>, links: seq<Link>, items: seq<LinkView>,
      cuts: set<nat>, cuts': set<nat>)
    requires Legible(views, nexts, links, items, cuts) && Chained(nexts', links, cuts')
    ensures Legible(views, nexts', links, items, cuts')
  {
  }

  lemma LegibleNot(views: seq<LinkView>, nexts: seq<Link?>, links: seq<Link>, items: seq<LinkView>, cuts: set<nat>,
      i: nat, l: LinkView)
    requires Legible(views, nexts, links, items, cuts) && i < |views| && l.query == Not == views[i].query
    ensures Legible(views[i := l], nexts, links, items, cuts)
  {
    forall k | 0 <= k < |items|
      ensures Tells(views[i := l][k], items[k])
    {
      assert Tells(views[k], items[k]);
    }
  }

  datatype Verdict = Succeeds | Errors | Crashes

  function VerdictOf(o: PgOutcome): Verdict {
    match o
    case PgPanics => Crashes
    case PgFails => Errors
    case Made(_) => Succeeds
  }

  lemma VerdictIs(o: PgOutcome)
    ensures VerdictOf(o).Succeeds? <==> o.Made?
  {
  }

  /** One round: compiling goes on at i', or it has ended. */
  ghost predicate Goes(x: PgTrail, link: LinkWork, items: seq<LinkView>, r: Verdict, cuts': set<nat>, i': nat,
      t': int, op': Op, w': Work)
  {
    i' <= |items| &&
    if r.Succeeds? then x == CompileFrom(link, items, cuts', i', t', op', w')
    else r == VerdictOf(x.outcome) && cuts' == x.cuts && t' == x.t
  }

  class PgQuery {
    const key: string -> string
    const idx: string
    var paths: seq<string>
    var queryStrs: seq<Text>
    var arguments: seq<string>
    var fullQuery: Text
    var allArgs: seq<string>

    constructor (key: string -> string, idx: string)
      ensures this.key == key && this.idx == idx && paths == [] && queryStrs == [] && arguments == []
    {
      this.key, this.idx, paths, queryStrs, arguments, fullQuery, allArgs := key, idx, [], [], [], Lit(""), [];
    }

    method AddLink(q: Query, t: int, op: Op, ghost w: Work) returns (t': int)
      requires !q.Sub? && !q.Not? && Collected(paths, arguments, queryStrs, w)
      modifies this
      ensures Collected(paths, arguments, queryStrs, Plus(w, WorkOf(key, Leaf(q, false), t, op))) && t' == t + Width(q)
    {
      hide BasicClause, GroupedClause, RangeClause, Values, Erase;
      LeafWork(key, q, false, t, op);
      hide WorkOf;
      var args, xtraPath, text;
      t' := t;
      if q.Basic? {
        if q.field != "" {
          paths := paths + [q.field];
        }
        args, xtraPath, text := BuildBasicQuery(key, q.field, q.term, t, op);
      } else if q.Grouped? {
        paths := paths + [q.field];
        args, xtraPath, text, t' := BuildGroupedQuery(key, q.field, q.terms, t, op);
      } else {
        paths := paths + [q.field];
        args, xtraPath, text := BuildRangeQuery(key, q.field, q.start, q.end, q.inclusive, t, op, q.negated);
      }
      if xtraPath != "" {
        paths := paths + [xtraPath];
      }
      arguments := arguments + args;
      queryStrs := queryStrs + [text];
      t' := t' + 1;
      assert args == Values(Clause(key, q, t, op)) + Extra(q);
      assert paths == old(paths) + LinkPaths(key, q);
      assert text == Erase(Clause(key, q, t, op));
      ClauseLaws(key, q, t, op);
      hide Clause, LinkPaths, Extra, Inline;
      assert EraseAll(w.clauses + [Clause(key, q, t, op)]) == EraseAll(w.clauses) + [text];
    }

    /** Compiles a subquery by itself, counting tables on, and puts its clauses in parentheses. */
    method AddSubQuery(top: Link, t: int, op: Op, ghost links: seq<Link>, ghost items: seq<LinkView>,
        ghost cuts: set<nat>, ghost p: nat, ghost w: Work) returns (r: Verdict, t': int, ghost x: PgTrail)
      requires Distinct(links) && p < |links| == |items| && top == links[p]
      requires Legible(Views(links), Nexts(links), links, items, cuts) && Collected(paths, arguments, queryStrs, w)
      modifies this, links
      ensures x == CompileFrom(WorkWith(key), items, cuts, p, t, NotAnOp, NoWork())
      ensures r == VerdictOf(x.outcome) && t' == x.t
      ensures Legible(Views(links), Nexts(links), links, items, x.cuts)
      ensures r.Succeeds? ==>
        x.outcome.Made? && Collected(paths, arguments, queryStrs, Plus(w, Bracketed(op, x.outcome.work)))
      decreases |links| - p, 2
    {
      hide *;
      var np := new PgQuery(key, idx);
      StartsAt(links, p);
      r, t', x := np.Execute(top, t, links, items, cuts, p);
      VerdictIs(x.outcome);
      if r.Succeeds? {
        GroupCollected(op, w, x.outcome.work, paths, arguments, queryStrs, np.paths, np.arguments, np.queryStrs);
        paths := paths + np.paths;
        arguments := arguments + np.arguments;
        queryStrs := queryStrs + [Joined(op, Join(np.queryStrs, " "))];
      }
    }

    /** A NOT is passed over; it takes on the operator before it. */
    method PassNot(p: Link, op: Op, ghost links: seq<Link>, ghost items: seq<LinkView>, ghost cuts: set<nat>,
        ghost i: nat) returns (p': Link?, op': Op)
      requires Distinct(links) && i < |links| == |items| && p == links[i] && p.query.Not?
      requires Legible(Views(links), Nexts(links), links, items, cuts)
      modifies links
      ensures Legible(Views(links), Nexts(links), links, items, cuts)
      ensures p' == LinkOf(links, NextOf(cuts, |links|, i)) && op' == op
    {
      hide Legible, NextOf;
      ghost var views, nexts := Views(links), Nexts(links);
      LegibleAt(views, nexts, links, items, cuts, i);
      LegibleNot(views, nexts, links, items, cuts, i, views[i].(op := op));
      p.op := op;
      assert Nexts(links) == nexts && Views(links) == views[i := views[i].(op := op)];
      op', p' := p.op, p.next;
    }

    /** A subquery is cut out of the chain and compiled. */
    method PassSubQuery(p: Link, t: int, op: Op, ghost links: seq<Link>, ghost items: seq<LinkView>,
        ghost cuts: set<nat>, ghost i: nat, ghost w: Work)
      returns (r: Verdict, p': Link?, t': int, op': Op, ghost cuts': set<nat>, ghost i': nat, ghost w': Work)
      requires Distinct(links) && i < |links| == |items| && p == links[i] && items[i].query.Sub?
      requires Legible(Views(links), Nexts(links), links, items, cuts) && Collected(paths, arguments, queryStrs, w)
      modifies this, links
      ensures Legible(Views(links), Nexts(links), links, items, cuts') && i < i'
      ensures
        Goes(CompileFrom(WorkWith(key), items, cuts, i, t, op, w), WorkWith(key), items, r, cuts', i', t', op', w')
      ensures r.Succeeds? ==> Collected(paths, arguments, queryStrs, w') && p' == LinkOf(links, i')
      decreases |links| - i, 0
    {
      hide CompileFrom, CompileOn, CloseOf, NextOf, Legible, Chained, Collected, Plus, Bracketed, Distinct, WorkWith,
        NoWork, LinkOf;
      p', t', op', cuts', i', w' := null, t, op, cuts, |links|, w;
      ghost var views, nexts := Views(links), Nexts(links);
      LegibleClose(views, nexts, links, items, cuts, i);
      CompileSub(WorkWith(key), items, cuts, i, t, op, w);
      var e := ExtractSubQuery(p, links, cuts, i);
      match e
      case NothingFollows =>
        r := Crashes;
        LegibleCut(views, nexts, Nexts(links), links, items, cuts, cuts);
      case NotClosed =>
        r := Errors;
        LegibleCut(views, nexts, Nexts(links), links, items, cuts, cuts);
      case Extracted(top, end) =>
        ghost var close := CloseOf(items, cuts, i).value;
        LegibleCut(views, nexts, Nexts(links), links, items, cuts, cuts + {close - 1});
        ghost var x;
        r, t', x := AddSubQuery(top, t, op, links, items, cuts + {close - 1}, i + 1, w);
        cuts' := x.cuts;
        CompilesOn(WorkWith(key), items, x, close, op, w);
        if r.Succeeds? {
          w', i' := Plus(w, Bracketed(op, x.outcome.work)), NextOf(cuts', |links|, close);
          LegibleAt(Views(links), Nexts(links), links, items, cuts', close);
          ClosesWithMarker(items, cuts, i);
          assert end == links[close] && Views(links)[close] == end.View() && Nexts(links)[close] == end.next;
          p', op' := end.next, end.op;
        }
    }

    /** Compiles the chain that starts at a link, whatever it is.  Tables are taken from t0 on. */
    method Execute(chain: Link?, t0: int, ghost links: seq<Link>, ghost items: seq<LinkView>, ghost cuts: set<nat>,
        ghost p: nat) returns (r: Verdict, t: int, ghost x: PgTrail)
      requires Distinct(links) && p <= |links| == |items| && chain == LinkOf(links, p)
      requires Legible(Views(links), Nexts(links), links, items, cuts)
      requires paths == [] && arguments == [] && queryStrs == []
      modifies this, links
      ensures x == CompileFrom(WorkWith(key), items, cuts, p, t0, NotAnOp, NoWork())
      ensures r == VerdictOf(x.outcome) && t == x.t
      ensures Legible(Views(links), Nexts(links), links, items, x.cuts)
      ensures r.Succeeds? ==>
        x.outcome.Made? && Collected(paths, arguments, queryStrs, x.outcome.work) &&
        fullQuery == Compiled(idx, paths, queryStrs, t) && allArgs == ["1", idx] + paths + arguments
      decreases |links| - p, 1
    {
      hide CompileFrom, NextOf, Legible, Collected, Plus, NoWork, WorkOf, Width, Distinct, Compiled;
      x := CompileFrom(WorkWith(key), items, cuts, p, t0, NotAnOp, NoWork());
      var q, curOp := chain, NotAnOp;
      t := t0;
      ghost var cuts', i, w := cuts, p, NoWork();
      NothingCollected();
      while q != null
        invariant p <= i <= |links| && q == LinkOf(links, i)
        invariant Legible(Views(links), Nexts(links), links, items, cuts')
        invariant Collected(paths, arguments, queryStrs, w)
        invariant x == CompileFrom(WorkWith(key), items, cuts', i, t, curOp, w)
        decreases |links| - i
      {
        LegibleAt(Views(links), Nexts(links), links, items, cuts', i);
        assert Views(links)[i] == q.View() && Nexts(links)[i] == q.next;
        if q.query.Not? {
          CompileNot(WorkWith(key), items, cuts', i, t, curOp, w);
          q, curOp := PassNot(q, curOp, links, items, cuts', i);
          i := NextOf(cuts', |links|, i);
        } else if q.query.Sub? {
          r, q, t, curOp, cuts', i, w := PassSubQuery(q, t, curOp, links, items, cuts', i, w);
          if !r.Succeeds? {
            return;
          }
        } else {
          CompileLink(WorkWith(key), items, cuts', i, t, curOp, w);
          WorkWithIs(key, q.query, t, curOp);
          ghost var more := WorkOf(key, Leaf(q.query, false), t, curOp);
          t := AddLink(q.query, t, curOp, w);
          w, i := Plus(w, more), NextOf(cuts', |links|, i);
          q, curOp := q.next, q.op;
        }
      }
      CompileNil(WorkWith(key), items, cuts', t, curOp, w);
      NoClauses(paths, arguments, queryStrs, w);
      if t == 1 && queryStrs == [] {
        r := Crashes;
      } else {
        r := Succeeds;
        fullQuery, allArgs := CraftFullQuery(idx, paths, arguments, queryStrs, t);
      }
    }
  }

  lemma StartsAt(links: seq<Link>, p: nat)
    ensures p < |links| ==> LinkOf(links, p) == links[p]
  {
  }

  /** What closes a subquery is an end marker. */
  lemma {:induction false} MatchedIsMarker(items: seq<LinkView>, i: nat, hi: nat, n: int)
    requires hi <= |items| && n > 0
    ensures MatchClose(items, i, hi, n).Some? ==> items[MatchClose(items, i, hi, n).value].query == Sub(false)
    decreases hi - i
  {
    if i < hi {
      var level := if items[i].query.Sub? then (if items[i].query.opens then n + 1 else n - 1) else n;
      if level != 0 {
        MatchedIsMarker(items, i + 1, hi, level);
      }
    }
  }

  lemma ClosesWithMarker(items: seq<LinkView>, cuts: set<nat>, p: nat)
    requires p < |items|
    ensures CloseOf(items, cuts, p).Some? ==> items[CloseOf(items, cuts, p).value].query == Sub(false)
  {
    MatchedIsMarker(items, p + 1, ChainEnd(cuts, |items|, p + 1), 1);
  }

  // ---- Chains that hold a query ----

  lemma GroupWork(key: string -> string, c: Chain, t: int, op: Op)
    ensures WorkOf(key, Group(c), t, op) == Bracketed(op, ChainWork(key, c, t, NotAnOp))
    ensures ChainWork(key, c, t, NotAnOp).tables == WidthOf(Group(c))
  {
    hide Args, Paths, Tables, Clauses, Join, Joined;
  }

  lemma OperandDone(key: string -> string, c: Chain, t: int, op: Op, last: Op, w: Work)
    ensures Plus(Plus(w, WorkOf(key, First(c), t, op)), Rest(key, Tail(c), t + WidthOf(First(c)), OpAfter(c, last))) ==
      Plus(w, Rest(key, Some(c), t, op))
    ensures Rest(key, Some(c), t, op).tables ==
      WidthOf(First(c)) + Rest(key, Tail(c), t + WidthOf(First(c)), OpAfter(c, last)).tables
    ensures Plus(w, WorkOf(key, First(c), t, op)).clauses != []
  {
    OperandFirst(key, c, t, op, last);
    PlusAssoc(w, WorkOf(key, First(c), t, op), Rest(key, Tail(c), t + WidthOf(First(c)), OpAfter(c, last)));
    hide WidthOf, ClauseOf, ArgsOf, PathsOf, ChainWork;
  }

  lemma NoRest(key: string -> string, t: int, op: Op, op': Op, w: Work)
    ensures Rest(key, None, t, op) == Rest(key, None, t, op') == NoWork() && Plus(w, NoWork()) == w
    ensures NoWork().tables == 0
  {
    hide ChainWork;
  }

  lemma WorkWithIs(key: string -> string, q: Query, t: int, op: Op)
    ensures WorkWith(key)(q, t, op) == WorkOf(key, Leaf(q, false), t, op)
  {
    hide WorkOf;
  }

  /** Compiling a chain that holds a query, or the rest of one, makes its work. */
  lemma {:induction false} Compiles(key: string -> string, items: seq<LinkView>, flat: seq<LinkView>, cuts: set<nat>,
      i: nat, hi: nat, r: Option<Chain>, last: Op, t: int, op: Op, w: Work)
    requires Alike(items, flat) && At(flat, i, hi, r, last) && Whole(cuts, |items|, i, hi)
    requires r.Some? || w.clauses != []
    ensures var x := CompileFrom(WorkWith(key), items, cuts, Onward(i, hi, |items|), t, op, w);
      x.outcome == Made(Plus(w, Rest(key, r, t, op))) && x.t == t + Rest(key, r, t, op).tables &&
      SameOutside(cuts, x.cuts, i, hi)
    decreases hi - i, 1
  {
    hide *;
    AlikeLength(items, flat);
    OutsideNothing(cuts, i, hi);
    AtNext(flat, i, hi, r, last);
    if r.None? {
      Ends(hi, |items|);
      CompileNil(WorkWith(key), items, cuts, t, op, w);
      NoRest(key, t, op, op, w);
    } else {
      var c := r.value;
      AtShape(flat, i, hi, c, last);
      WholeEnds(cuts, |items|, i, hi);
      AlikeLink(items, flat, i, hi);
      Starts(i, hi, |items|);
      if flat[i].query.Not? {
        AtNot(flat, i, hi, c, last);
        CompileNot(WorkWith(key), items, cuts, i, t, op, w);
        NotIsNoWork(key, c, t, op);
        RestIs(key, c, t, op);
        RestIs(key, WithoutNot(c), t, op);
        Compiles(key, items, flat, cuts, i + 1, hi, Some(WithoutNot(c)), last, t, op, w);
        OutsideStays(cuts, cuts, CompileFrom(WorkWith(key), items, cuts, i, t, op, w).cuts, i, i + 1, hi);
      } else if flat[i].query.Sub? {
        CompilesGroup(key, items, flat, cuts, i, hi, c, last, t, op, w);
      } else {
        CompilesLeaf(key, items, flat, cuts, i, hi, c, last, t, op, w);
      }
    }
  }

  lemma AtNext(items: seq<LinkView>, i: nat, hi: nat, r: Option<Chain>, last: Op)
    requires At(items, i, hi, r, last)
    ensures i <= hi <= |items| && (r.None? ==> i == hi)
  {
    hide FlatChain, Stands, ProperChain;
  }

  lemma Ends(hi: nat, n: nat)
    ensures Onward(hi, hi, n) == n
  {
  }

  lemma {:induction false} CompilesLeaf(key: string -> string, items: seq<LinkView>, flat: seq<LinkView>,
      cuts: set<nat>, i: nat, hi: nat, c: Chain, last: Op, t: int, op: Op, w: Work)
    requires Alike(items, flat) && At(flat, i, hi, Some(c), last) && Whole(cuts, |items|, i, hi) && i < hi <= |items|
    requires First(c).Leaf? && !First(c).negated
    ensures var x := CompileFrom(WorkWith(key), items, cuts, i, t, op, w);
      x.outcome == Made(Plus(w, Rest(key, Some(c), t, op))) && x.t == t + Rest(key, Some(c), t, op).tables &&
      SameOutside(cuts, x.cuts, i, hi)
    decreases hi - i, 0
  {
    hide *;
    WorkWithIs(key, items[i].query, t, op);
    AlikeLength(items, flat);
    AlikeLink(items, flat, i, hi);
    AtLeaf(flat, i, hi, c, last);
    WholeEnds(cuts, |items|, i, hi);
    CompileLink(WorkWith(key), items, cuts, i, t, op, w);
    var o, q := First(c), items[i].query;
    LeafWork(key, q, false, t, op);
    OperandDone(key, c, t, op, last, w);
    if items[i].op != flat[i].op {
      IdleIsLast(flat, i, hi, c, last);
      NoRest(key, t + Width(q), items[i].op, flat[i].op, Plus(w, WorkOf(key, o, t, op)));
    }
    Compiles(key, items, flat, cuts, i + 1, hi, Tail(c), last, t + Width(q), items[i].op,
      Plus(w, WorkOf(key, o, t, op)));
    OutsideNothing(cuts, i, hi);
    OutsideStays(cuts, cuts, CompileFrom(WorkWith(key), items, cuts, i, t, op, w).cuts, i, i + 1, hi);
  }

  lemma {:induction false} CompilesGroup(key: string -> string, items: seq<LinkView>, flat: seq<LinkView>,
      cuts: set<nat>, i: nat, hi: nat, c: Chain, last: Op, t: int, op: Op, w: Work)
    requires Alike(items, flat) && At(flat, i, hi, Some(c), last) && Whole(cuts, |items|, i, hi) && i < hi <= |items|
    requires First(c).Group?
    ensures var x := CompileFrom(WorkWith(key), items, cuts, i, t, op, w);
      x.outcome == Made(Plus(w, Rest(key, Some(c), t, op))) && x.t == t + Rest(key, Some(c), t, op).tables &&
      SameOutside(cuts, x.cuts, i, hi)
    decreases hi - i, 0
  {
    hide *;
    AlikeLength(items, flat);
    var inner, n := First(c).chain, |items|;
    var close := AtGroup(flat, i, hi, c, last);
    AlikeLink(items, flat, i, hi);
    AlikeLink(items, flat, close, hi);
    CutWhole(cuts, n, i, close, hi);
    Starts(i + 1, close, n);
    Compiles(key, items, flat, cuts + {close - 1}, i + 1, close, Some(inner), LastOp(inner), t, NotAnOp, NoWork());
    var sub := CompileFrom(WorkWith(key), items, cuts + {close - 1}, i + 1, t, NotAnOp, NoWork());
    RestIs(key, inner, t, NotAnOp);
    WholeCloses(items, cuts, i, hi);
    CompileSub(WorkWith(key), items, cuts, i, t, op, w);
    CompilesOn(WorkWith(key), items, sub, close, op, w);
    AfterSub(cuts, sub.cuts, n, i, close, hi);
    WholeEnds(sub.cuts, n, close, hi);
    GroupWork(key, inner, t, op);
    OperandDone(key, c, t, op, last, w);
    Compiles(key, items, flat, sub.cuts, close + 1, hi, Tail(c), last, sub.t, items[close].op,
      Plus(w, WorkOf(key, First(c), t, op)));
    OutsideStays(cuts, sub.cuts, CompileFrom(WorkWith(key), items, cuts, i, t, op, w).cuts, i, close + 1, hi);
  }

  lemma RestIs(key: string -> string, c: Chain, t: int, op: Op)
    ensures Rest(key, Some(c), t, op) == ChainWork(key, c, t, op)
    ensures Plus(NoWork(), ChainWork(key, c, t, op)) == ChainWork(key, c, t, op)
  {
    hide ChainWork;
  }

  // ---- The whole statement ----

  predicate Builtin(idx: string) {
    idx == "node" || idx == "client" || idx == "environment" || idx == "role"
  }

  /** The fixed wording between the arguments of the first part of the statement. */
  function Words(k: nat): Text {
    Lit(match k
        case 0 => "WITH found_items AS (SELECT item_name, path, value FROM goiardi.search_items si " +
          "WHERE si.organization_id = "
        case 1 => " AND si.search_collection_id = (SELECT id FROM goiardi.search_collections WHERE name = "
        case 2 => ") AND path OPERATOR(goiardi.?) ARRAY[ "
        case 3 => " ]::goiardi.lquery[]), items AS ("
        case 4 => ") "
        case 5 => "SELECT orig_name AS item_name FROM goiardi.data_bag_items JOIN goiardi.data_bags ON " +
          "goiardi.data_bag_items.data_bag_id = goiardi.data_bags.id WHERE goiardi.data_bags.organization_id = "
        case _ => " AND goiardi.data_bags.name = ")
  }

  function BuiltinWords(idx: string): Text {
    Lit("SELECT name AS item_name FROM goiardi." + idx + "s WHERE organization_id = ")
  }

  function Items(idx: string, org: Text, name: Text): Text {
    if Builtin(idx) then Cat(BuiltinWords(idx), org) else Join([Words(5), org, Words(6), name], "")
  }

  function WithParts(org: Text, name: Text, paths: Text, items: Text): seq<Text> {
    [Words(0), org, Words(1), name, Words(2), paths, Words(3), items, Words(4)]
  }

  function With(idx: string, org: Text, name: Text, paths: seq<Text>): Text {
    Join(WithParts(org, name, Join(paths, ", "), Items(idx, org, name)), "")
  }

  function JoinTable(k: int): Text {
    Cat(Cat(Lit("INNER JOIN found_items AS "), Declare(k)),
        Cat(Cat(Lit(" ON "), Cat(Alias(ITEM), Lit(".item_name = "))), Cat(Alias(k), Lit(".item_name"))))
  }

  function JoinTables(t: nat): seq<Text> {
    seq(t, k => JoinTable(k))
  }

  /** A single table is searched by itself; more are joined to the items. */
  function FromTables(t: int): Text {
    if t == 1 then Cat(Lit("SELECT COALESCE(ARRAY_AGG(DISTINCT item_name), '{}'::text[]) FROM found_items "),
      Declare(0))
    else
      Cat(Cat(Lit("SELECT COALESCE(ARRAY_AGG(i.item_name), '{}'::text[]) FROM items "), Declare(ITEM)),
          Cat(Lit(" "), Join(JoinTables(if t < 0 then 0 else t), " ")))
  }

  function Statement(with: Text, t: int, where: Text): Text {
    Cat(with, Cat(FromTables(t), Cat(Lit(" WHERE "), where)))
  }

  function PathParams(n: nat): seq<Text> {
    seq(n, i => Param(3 + i))
  }

  function Compiled(idx: string, paths: seq<string>, queryStrs: seq<Text>, t: int): Text {
    var where := if t == 1 && queryStrs != [] then queryStrs[0] else Join(queryStrs, " ");
    Number(Statement(With(idx, Param(1), Param(2), PathParams(|paths|)), t, where), 3 + |paths|)
  }

  method CraftFullQuery(idx: string, paths: seq<string>, arguments: seq<string>, queryStrs: seq<Text>, t: int)
    returns (fullQuery: Text, allArgs: seq<string>)
    requires t == 1 ==> queryStrs != []
    ensures fullQuery == Compiled(idx, paths, queryStrs, t) && allArgs == ["1", idx] + paths + arguments
  {
    hide With, Statement, FromTables, Number, JoinTable;
    allArgs := ["1", idx] + paths + arguments;
    var pcount, params := 3, [];
    for i := 0 to |paths|
      invariant pcount == 3 + i && params == PathParams(|paths|)[..i]
    {
      params := params + [Param(pcount)];
      pcount := pcount + 1;
    }
    assert params == PathParams(|paths|);
    var where := if t == 1 then queryStrs[0] else Join(queryStrs, " ");
    fullQuery := Number(Statement(With(idx, Param(1), Param(2), params), t, where), pcount);
  }

  // ---- Arguments and places ----

  function OpenRanges(c: Chain): nat {
    var o := First(c);
    (if o.Leaf? then |Extra(o.query)| else OpenRanges(o.chain)) + (if c.More? then OpenRanges(c.rest) else 0)
  }

  lemma LeafArgs(key: string -> string, q: Query, negated: bool, t: int, op: Op)
    ensures ArgsOf(key, Leaf(q, negated), t, op) == Values(ClauseOf(key, Leaf(q, negated), t, op)) + Extra(q)
  {
    hide Clause, Values, Extra;
  }

  lemma GroupIs(key: string -> string, c: Chain, t: int, op: Op)
    ensures ArgsOf(key, Group(c), t, op) == Args(key, c, t, NotAnOp)
    ensures ClauseOf(key, Group(c), t, op) == Joined(op, Join(Clauses(key, c, t, NotAnOp), " "))
  {
    hide Clauses, Args, Joined, Join;
  }

  lemma GroupArgs(key: string -> string, c: Chain, t: int, op: Op)
    ensures ArgsOf(key, Group(c), t, op) == Args(key, c, t, NotAnOp)
    ensures Values(ClauseOf(key, Group(c), t, op)) == ValuesAll(Clauses(key, c, t, NotAnOp))
  {
    hide *;
    GroupIs(key, c, t, op);
    ClausesInline(key, c, t, NotAnOp);
    JoinLaws(Clauses(key, c, t, NotAnOp), " ");
    JoinedLaws(op, Join(Clauses(key, c, t, NotAnOp), " "));
  }

  lemma SplitArgs(key: string -> string, c: Chain, t: int, op: Op)
    ensures var o := First(c); var rest := if c.More? then Clauses(key, c.rest, t + WidthOf(o), c.op) else [];
      ValuesAll(Clauses(key, c, t, op)) == Values(ClauseOf(key, o, t, op)) + ValuesAll(rest)
    ensures var o := First(c); var rest := if c.More? then Args(key, c.rest, t + WidthOf(o), c.op) else [];
      Args(key, c, t, op) == ArgsOf(key, o, t, op) + rest
  {
    hide ClauseOf, ArgsOf, WidthOf, Values;
    var o := First(c);
    var rest := if c.More? then Clauses(key, c.rest, t + WidthOf(o), c.op) else [];
    assert Clauses(key, c, t, op) == [ClauseOf(key, o, t, op)] + rest;
    assert ([ClauseOf(key, o, t, op)] + rest)[1..] == rest;
  }

  /** Each range without bounds brings one argument too many, and nothing else does. */
  lemma {:induction false} ArgsAndPlaces(key: string -> string, c: Chain, t: int, op: Op)
    ensures |Args(key, c, t, op)| == |ValuesAll(Clauses(key, c, t, op))| + OpenRanges(c)
    ensures OpenRanges(c) == 0 ==> Args(key, c, t, op) == ValuesAll(Clauses(key, c, t, op))
  {
    hide Clauses, Args, ArgsOf, ClauseOf, Values, ValuesAll, Extra, WidthOf;
    SplitArgs(key, c, t, op);
    var o := First(c);
    if o.Group? {
      GroupArgs(key, o.chain, t, op);
      ArgsAndPlaces(key, o.chain, t, NotAnOp);
    } else {
      LeafArgs(key, o.query, o.negated, t, op);
    }
    if c.More? {
      ArgsAndPlaces(key, c.rest, t + WidthOf(o), c.op);
    } else {
      assert ValuesAll([]) == [] by {
        NoValues();
      }
    }
  }

  lemma NoValues()
    ensures ValuesAll([]) == []
  {
  }

  /** The arguments match the places one for one and in order exactly when no range is without bounds. */
  lemma ArgumentsMatchExactly(key: string -> string, c: Chain, t: int, op: Op)
    ensures Args(key, c, t, op) == ValuesAll(Clauses(key, c, t, op)) <==> OpenRanges(c) == 0
  {
    ArgsAndPlaces(key, c, t, op);
  }

  /** a:[* TO *] AND b:1 */
  function OpenExample(): Chain {
    More(Leaf(Range("a", "*", "*", true, false), false), BinAnd, End(Leaf(Basic("b", QueryTerm("1", NotAnOp)), false)))
  }

  lemma OpenExampleParts(key: string -> string)
    ensures Values(Clause(key, Range("a", "*", "*", true, false), 0, NotAnOp)) == ["a"]
    ensures Values(Clause(key, Basic("b", QueryTerm("1", NotAnOp)), 1, BinAnd)) == ["b", "1", key("b.1")]
  {
    assert Bounds("*", "*") == ("*", "*");
    assert RangeValues(key, "a", "*", "*") == ["a"] by {
      hide Bounds, LimitValues, RangePath;
    }
    assert BasicValues(key, "b", QueryTerm("1", NotAnOp)) == ["b", "1", key("b.1")] by {
      hide EscapeArg;
      assert "b" + "." + "1" == "b.1";
      assert !Wild("1");
    }
    hide *;
    RangeLaws(key, "a", "*", "*", true, 0, NotAnOp, false);
    BasicLaws(key, "b", QueryTerm("1", NotAnOp), 1, BinAnd);
    ClauseIs(key, "b", QueryTerm("1", NotAnOp), 1, BinAnd, "a", "*", "*", true, false, 0, NotAnOp);
  }

  lemma ClauseIs(key: string -> string, field: string, term: QueryTerm, t: int, op: Op,
      field': string, start: string, end: string, inclusive: bool, negated: bool, t': int, op': Op)
    ensures Clause(key, Basic(field, term), t, op) == BasicClause(key, field, term, t, op)
    ensures Clause(key, Range(field', start, end, inclusive, negated), t', op') ==
      RangeClause(key, field', start, end, inclusive, t', op', negated)
  {
    hide BasicClause, RangeClause;
  }

  lemma OpenExampleExtra()
    ensures Extra(Range("a", "*", "*", true, false)) == ["a.*"] && Extra(Basic("b", QueryTerm("1", NotAnOp))) == []
    ensures Width(Range("a", "*", "*", true, false)) == 1
  {
    assert "a" + ".*" == "a.*";
  }

  /** There the place for the path b gets a.* instead. */
  lemma OpenRangeShifts(key: string -> string)
    ensures ValuesAll(Clauses(key, OpenExample(), 0, NotAnOp)) == ["a", "b", "1", key("b.1")]
    ensures Args(key, OpenExample(), 0, NotAnOp) == ["a", "a.*", "b", "1", key("b.1")]
  {
    hide Values, ValuesAll, Clause, Clauses, Extra, Width, Args;
    OpenExampleParts(key);
    OpenExampleExtra();
    var r, b := Range("a", "*", "*", true, false), Basic("b", QueryTerm("1", NotAnOp));
    LeafArgs(key, r, false, 0, NotAnOp);
    LeafArgs(key, b, false, 1, BinAnd);
    SplitArgs(key, OpenExample(), 0, NotAnOp);
    SplitArgs(key, End(Leaf(b, false)), 1, BinAnd);
    NoValues();
  }
}
