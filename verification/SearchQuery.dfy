/** From a query as it is written to its answer: the actions the grammar calls on it build the chain that
    the evaluation runs (search/search-parse.peg, search/parse.go, search/search.go). */
module SearchQuery {
  import opened Wrappers
  import opened SearchChain
  import opened SearchEval
  import opened SearchRun
  import opened SearchShape

  // ---- The actions of a query ----

  /** term, or +term. */
  function OneTerm(t: QueryTerm): seq<Action> {
    (if t.mod == UnaryReq then [Action.AddTermOp(UnaryReq)] else []) + [Action.AddTerm(t.term)]
  }

  function TermActions(terms: seq<QueryTerm>): seq<Action> {
    if terms == [] then [] else TermActions(terms[..|terms| - 1]) + OneTerm(terms[|terms| - 1])
  }

  /** A term of a group, by itself or required. */
  predicate SayableTerm(t: QueryTerm) {
    t.term != "" && (t.mod == NotAnOp || t.mod == UnaryReq)
  }

  function RangeActions(field: string, start: string, end: string, inclusive: bool): seq<Action> {
    [Action.StartRange(inclusive)] + [Action.AddField(field)] + ([AddRange(start)] + [AddRange(end)])
  }

  /** field:term, field:(term +term), field:[start TO end], NOT before a term or a range, or a group in parentheses. */
  function Spoken(o: Operand): seq<Action>
    decreases o, 1
  {
    match o
    case Leaf(Basic(field, term), negated) =>
      (if negated then [SetNotQuery(UnaryNot)] else []) + [StartBasic, Action.AddField(field),
        Action.AddTerm(term.term)]
    case Leaf(Grouped(field, terms), _) =>
      [StartGrouped, Action.AddField(field), StartSubQuery] + TermActions(terms) + [EndSubQuery, Action.SetCompleted]
    case Leaf(Range(field, start, end, inclusive, _), negated) =>
      (if negated then [SetNotQuery(UnaryNot)] else []) + RangeActions(field, start, end, inclusive)
    case Leaf(_, _) => []
    case Group(c) => [StartSubQuery] + SpokenChain(c) + [EndSubQuery]
  }

  function SpokenChain(c: Chain): seq<Action>
    decreases c, 0
  {
    match c
    case End(o) => Spoken(o)
    case More(o, op, rest) => Spoken(o) + [Action.AddOp(op)] + SpokenChain(rest)
  }

  /** The parser has a term or a bound where it makes one, and a NOT marks the term or the range after it. */
  predicate Sayable(o: Operand) {
    match o
    case Leaf(Basic(_, term), negated) => term.mod == (if negated then UnaryNot else NotAnOp)
    case Leaf(Grouped(_, terms), negated) =>
      !negated && forall i :: 0 <= i < |terms| ==> SayableTerm(terms[i])
    case Leaf(Range(_, start, end, _, marked), negated) => start != "" && end != "" && marked == negated
    case Leaf(_, _) => false
    case Group(c) => SayableChain(c)
  }

  predicate SayableChain(c: Chain) {
    match c
    case End(o) => Sayable(o)
    case More(o, op, rest) => Sayable(o) && IsBinary(op) && SayableChain(rest)
  }

  /** What a sequence of actions makes of a chain. */
  function From(v: seq<LinkView>, actions: seq<Action>): seq<LinkView>
    requires v == [] && actions != [] ==> !NeedsLatest(actions[0])
    decreases |actions|
  {
    if actions == [] then v else From(Effect(v, actions[0]), actions[1..])
  }

  lemma {:induction false} FromAppend(v: seq<LinkView>, a: seq<Action>, b: seq<Action>)
    requires a != [] && (v == [] ==> !NeedsLatest(a[0]))
    ensures From(v, a) != [] && From(v, a + b) == From(From(v, a), b)
    decreases |a|
  {
    hide Effect;
    assert (a + b)[1..] == a[1..] + b;
    if |a| > 1 {
      FromAppend(Effect(v, a[0]), a[1..], b);
    } else {
      assert a[1..] + b == b;
    }
  }

  lemma {:induction false} FromIsEffects(actions: seq<Action>)
    requires actions != [] && !NeedsLatest(actions[0])
    ensures From([], actions) == Effects(actions)
    decreases |actions|
  {
    hide Effect;
    var init, last := actions[..|actions| - 1], actions[|actions| - 1];
    if init == [] {
      assert Effects(init) == [] && actions == [last] && actions[1..] == [];
    } else {
      assert init[0] == actions[0] && actions == init + [last];
      FromIsEffects(init);
      FromAppend([], init, [last]);
      assert From(From([], init), [last]) == Effect(From([], init), last);
    }
  }

  lemma {:induction false} SpokenStarts(c: Chain)
    requires SayableChain(c)
    ensures SpokenChain(c) != [] && !NeedsLatest(SpokenChain(c)[0])
  {
    var o := if c.End? then c.last else c.first;
    assert Sayable(o);
    SpokenFirst(o);
  }

  // ---- The chain they build ----

  /** Nothing is left open, and no NOT is waiting for its term. */
  predicate Settled(v: seq<LinkView>) {
    v == [] || (!Incomplete(v[|v| - 1]) && !Negates(v[|v| - 1].op))
  }

  /** One action, and then the others. */
  lemma FromFirst(v: seq<LinkView>, a: Action, rest: seq<Action>)
    requires v == [] ==> !NeedsLatest(a)
    ensures From(v, [a] + rest) == From(Effect(v, a), rest)
    ensures From(v, [a]) == Effect(v, a)
  {
    hide Effect;
    assert ([a] + rest)[1..] == rest && [a][1..] == [];
  }

  lemma FieldAndTerm(v: seq<LinkView>, field: string, term: string)
    ensures var v1 := v + [LinkView(Basic("", QueryTerm("", NotAnOp)), BinOr, false)];
      Effect(Effect(v1, Action.AddField(field)), Action.AddTerm(term)) == v + [Termed(v, field, term)]
  {
    var v1 := v + [LinkView(Basic("", QueryTerm("", NotAnOp)), BinOr, false)];
    var v2 := v + [LinkView(Basic(field, QueryTerm("", NotAnOp)), BinOr, false)];
    assert Effect(v1, Action.AddField(field)) == v2;
    assert AfterStartBasic(v2) == v2;
    assert OpBefore(v2) == if v == [] then NotAnOp else v[|v| - 1].op;
  }

  /** The link of a term written after the links v. */
  function Termed(v: seq<LinkView>, field: string, term: string): LinkView {
    LinkView(WithTerm(Basic(field, QueryTerm("", NotAnOp)), term, if v == [] then NotAnOp else v[|v| - 1].op), BinOr,
      true)
  }

  lemma SaysTerm(v: seq<LinkView>, field: string, term: string)
    requires NeedsNew(v)
    ensures From(v, [StartBasic, Action.AddField(field), Action.AddTerm(term)]) == v + [Termed(v, field, term)]
  {
    var v1 := v + [LinkView(Basic("", QueryTerm("", NotAnOp)), BinOr, false)];
    assert Effect(v, StartBasic) == v1;
    hide Effect, From, Termed;
    var add, put := Action.AddField(field), Action.AddTerm(term);
    assert [StartBasic] + ([add] + [put]) == [StartBasic, add, put];
    FromFirst(v, StartBasic, [add] + [put]);
    FromFirst(v1, add, [put]);
    FromFirst(Effect(v1, add), put, []);
    FieldAndTerm(v, field, term);
  }

  lemma SaysBasic(v: seq<LinkView>, field: string, term: QueryTerm, negated: bool)
    requires Settled(v) && term.mod == (if negated then UnaryNot else NotAnOp)
    ensures var o := Leaf(Basic(field, term), negated); From(v, Spoken(o)) == v + Flat(o, BinOr)
  {
    var say := [StartBasic, Action.AddField(field), Action.AddTerm(term.term)];
    if negated {
      var w := v + [LinkView(Not, UnaryNot, false)];
      assert Effect(v, SetNotQuery(UnaryNot)) == w;
      hide Effect, From;
      FromFirst(v, SetNotQuery(UnaryNot), say);
      SaysTerm(w, field, term.term);
    } else {
      hide Effect, From;
      assert [] + say == say;
      SaysTerm(v, field, term.term);
    }
  }

  function Open(field: string, terms: seq<QueryTerm>): LinkView {
    LinkView(Grouped(field, terms), BinOr, false)
  }

  lemma AddsTerm(v: seq<LinkView>, field: string, terms: seq<QueryTerm>, term: string)
    requires terms != [] ==> terms[|terms| - 1].term != ""
    ensures Effect(v + [Open(field, terms)], Action.AddTerm(term)) ==
      v + [Open(field, terms + [QueryTerm(term, NotAnOp)])]
  {
    var w := v + [Open(field, terms)];
    assert AfterStartBasic(w) == w;
  }

  /** A plus sign opens a term, and the term fills it. */
  lemma AddsRequired(v: seq<LinkView>, field: string, terms: seq<QueryTerm>, term: string)
    ensures var w := Effect(v + [Open(field, terms)], Action.AddTermOp(UnaryReq));
      w == v + [Open(field, terms + [QueryTerm("", UnaryReq)])] &&
      Effect(w, Action.AddTerm(term)) == v + [Open(field, terms + [QueryTerm(term, UnaryReq)])]
  {
    var w := v + [Open(field, terms)];
    assert AfterStartBasic(w) == w;
    var more := terms + [QueryTerm("", UnaryReq)];
    var w' := v + [Open(field, more)];
    assert Effect(w, Action.AddTermOp(UnaryReq)) == w' && AfterStartBasic(w') == w';
    assert more[|terms| := more[|terms|].(term := term)] == terms + [QueryTerm(term, UnaryReq)];
  }

  lemma OneMoreTerm(v: seq<LinkView>, field: string, terms: seq<QueryTerm>, last: QueryTerm)
    requires (terms != [] ==> terms[|terms| - 1].term != "") && SayableTerm(last)
    ensures From(v + [Open(field, terms)], OneTerm(last)) == v + [Open(field, terms + [last])]
  {
    hide Effect, From;
    var w, add := v + [Open(field, terms)], Action.AddTerm(last.term);
    if last.mod == UnaryReq {
      AddsRequired(v, field, terms, last.term);
      FromFirst(w, Action.AddTermOp(UnaryReq), [add]);
      FromFirst(Effect(w, Action.AddTermOp(UnaryReq)), add, []);
    } else {
      assert OneTerm(last) == [add];
      AddsTerm(v, field, terms, last.term);
      FromFirst(w, add, []);
    }
  }

  lemma {:induction false} SaysTerms(v: seq<LinkView>, field: string, terms: seq<QueryTerm>)
    requires forall i :: 0 <= i < |terms| ==> SayableTerm(terms[i])
    ensures From(v + [Open(field, [])], TermActions(terms)) == v + [Open(field, terms)]
  {
    hide Effect, OneTerm;
    var start := v + [Open(field, [])];
    if terms != [] {
      hide From;
      var init, last := terms[..|terms| - 1], terms[|terms| - 1];
      SaysTerms(v, field, init);
      if init == [] {
        assert TermActions(terms) == OneTerm(last);
      } else {
        SomeTerm(init);
        FromAppend(start, TermActions(init), OneTerm(last));
      }
      assert init + [last] == terms;
      OneMoreTerm(v, field, init, last);
    }
  }

  lemma SomeTerm(terms: seq<QueryTerm>)
    requires terms != []
    ensures TermActions(terms) != []
  {
  }

  lemma OpensGrouped(v: seq<LinkView>, field: string)
    requires NeedsNew(v)
    ensures From(v, [StartGrouped, Action.AddField(field), StartSubQuery]) == v + [Open(field, [])]
  {
    var v1, w := v + [Open("", [])], v + [Open(field, [])];
    assert Effect(v, StartGrouped) == v1 && Effect(v1, Action.AddField(field)) == w && Effect(w, StartSubQuery) == w;
    hide Effect, From;
    assert [StartGrouped] + ([Action.AddField(field)] + [StartSubQuery]) ==
      [StartGrouped, Action.AddField(field), StartSubQuery];
    FromFirst(v, StartGrouped, [Action.AddField(field)] + [StartSubQuery]);
    FromFirst(v1, Action.AddField(field), [StartSubQuery]);
    FromFirst(w, StartSubQuery, []);
  }

  lemma ClosesGrouped(v: seq<LinkView>, field: string, terms: seq<QueryTerm>)
    ensures From(v + [Open(field, terms)], [EndSubQuery, Action.SetCompleted]) ==
      v + [LinkView(Grouped(field, terms), BinOr, true)]
  {
    var x := v + [Open(field, terms)];
    assert Effect(x, EndSubQuery) == x &&
      Effect(x, Action.SetCompleted) == v + [LinkView(Grouped(field, terms), BinOr, true)];
    hide Effect, From;
    assert [EndSubQuery] + [Action.SetCompleted] == [EndSubQuery, Action.SetCompleted];
    FromFirst(x, EndSubQuery, [Action.SetCompleted]);
    FromFirst(x, Action.SetCompleted, []);
  }

  lemma SaysGrouped(v: seq<LinkView>, field: string, terms: seq<QueryTerm>)
    requires Settled(v) && forall i :: 0 <= i < |terms| ==> SayableTerm(terms[i])
    ensures var o := Leaf(Grouped(field, terms), false); From(v, Spoken(o)) == v + Flat(o, BinOr)
  {
    hide Effect, From, TermActions;
    var start, end := [StartGrouped, Action.AddField(field), StartSubQuery], [EndSubQuery, Action.SetCompleted];
    OpensGrouped(v, field);
    SaysTerms(v, field, terms);
    ClosesGrouped(v, field, terms);
    FromAppend(v, start + TermActions(terms), end);
    FromAppend(v, start, TermActions(terms));
  }

  /** Parentheses put a marker before and after. */
  lemma SaysMarkers(v: seq<LinkView>)
    requires NeedsNew(v)
    ensures From(v, [StartSubQuery]) == v + [LinkView(Sub(true), NotAnOp, true)]
    ensures v != [] ==> From(v, [EndSubQuery]) == v + [LinkView(Sub(false), NotAnOp, true)]
  {
    FromFirst(v, StartSubQuery, []);
    if v != [] {
      FromFirst(v, EndSubQuery, []);
    }
  }

  /** The link of a range written after the links v: marked after a NOT, and with the operator of the link before. */
  function RangeLink(v: seq<LinkView>, field: string, start: string, end: string, inclusive: bool): LinkView {
    LinkView(Range(field, start, end, inclusive, v != [] && v[|v| - 1].op == UnaryNot),
      if v == [] then BinOr else OpBefore(v), start != "")
  }

  lemma RangeStarts(v: seq<LinkView>, field: string, inclusive: bool)
    ensures Effect(Effect(v, Action.StartRange(inclusive)), Action.AddField(field)) ==
      v + [RangeLink(v, field, "", "", inclusive)]
  {
  }

  /** The bounds of a range go into its link one after the other. */
  lemma BoundsGoIn(v: seq<LinkView>, field: string, start: string, end: string, inclusive: bool)
    requires start != "" && end != ""
    ensures Effect(Effect(v + [RangeLink(v, field, "", "", inclusive)], AddRange(start)), AddRange(end)) ==
      v + [RangeLink(v, field, start, end, inclusive)]
  {
    assert Effect(v + [RangeLink(v, field, "", "", inclusive)], AddRange(start)) ==
      v + [RangeLink(v, field, start, "", inclusive)];
  }

  lemma SaysRange(v: seq<LinkView>, field: string, start: string, end: string, inclusive: bool)
    requires start != "" && end != ""
    ensures From(v, RangeActions(field, start, end, inclusive)) == v + [RangeLink(v, field, start, end, inclusive)]
  {
    hide Effect, From, RangeLink;
    var open, add, from, to := Action.StartRange(inclusive), Action.AddField(field), AddRange(start), AddRange(end);
    RangeStarts(v, field, inclusive);
    FromTwo(v, open, add, [from] + [to]);
    BoundsGoIn(v, field, start, end, inclusive);
    FromTwo(v + [RangeLink(v, field, "", "", inclusive)], from, to, []);
    assert [from] + [to] + [] == [from] + [to];
  }

  lemma FromTwo(v: seq<LinkView>, a: Action, b: Action, rest: seq<Action>)
    requires v == [] ==> !NeedsLatest(a)
    ensures From(v, [a] + [b] + rest) == From(Effect(Effect(v, a), b), rest)
    ensures From(Effect(Effect(v, a), b), []) == Effect(Effect(v, a), b)
  {
    hide Effect;
    assert [a] + [b] + rest == [a] + ([b] + rest);
    FromFirst(v, a, [b] + rest);
    FromFirst(Effect(v, a), b, rest);
  }

  /** The links after v are those of the query, except for operators nothing is written after. */
  ghost predicate Builds(w: seq<LinkView>, v: seq<LinkView>, part: seq<LinkView>) {
    |w| == |v| + |part| && w[..|v|] == v && Alike(w[|v|..], part)
  }

  lemma BuildsAlike(v: seq<LinkView>, a: seq<LinkView>, part: seq<LinkView>)
    requires Alike(a, part)
    ensures Builds(v + a, v, part)
  {
    hide Alike;
    AlikeLength(a, part);
    assert (v + a)[|v|..] == a;
  }

  lemma BuildsExactly(v: seq<LinkView>, part: seq<LinkView>)
    ensures Builds(v + part, v, part)
  {
    assert Alike(part, part);
    BuildsAlike(v, part, part);
  }

  /** A NOT becomes a link of its own. */
  lemma SaysNot(v: seq<LinkView>)
    requires Settled(v)
    ensures Effect(v, SetNotQuery(UnaryNot)) == v + [LinkView(Not, UnaryNot, false)]
  {
  }

  /** A range becomes its link, with some operator, after a NOT if there is one. */
  lemma SaysRangeLeaf(v: seq<LinkView>, o: Operand) returns (op: Op)
    requires Settled(v) && Sayable(o) && o.Leaf? && o.query.Range?
    ensures From(v, Spoken(o)) == v + Flat(o, op)
  {
    hide Effect, From, RangeActions;
    var q := o.query;
    var say := RangeActions(q.field, q.start, q.end, q.inclusive);
    if o.negated {
      var w := v + [LinkView(Not, UnaryNot, false)];
      op := OpBefore(w);
      SaysNot(v);
      FromFirst(v, SetNotQuery(UnaryNot), say);
      SaysRange(w, q.field, q.start, q.end, q.inclusive);
    } else {
      op := if v == [] then BinOr else OpBefore(v);
      assert [] + say == say;
      SaysRange(v, q.field, q.start, q.end, q.inclusive);
    }
  }

  lemma RangesAlike(o: Operand, op: Op, op': Op)
    requires o.Leaf? && o.query.Range?
    ensures Alike(Flat(o, op), Flat(o, op'))
  {
  }

  lemma RangeBuilds(v: seq<LinkView>, o: Operand)
    requires Settled(v) && Sayable(o) && o.Leaf? && o.query.Range?
    ensures Builds(From(v, Spoken(o)), v, Flat(o, BinOr))
  {
    hide *;
    var op := SaysRangeLeaf(v, o);
    RangesAlike(o, op, BinOr);
    BuildsAlike(v, Flat(o, op), Flat(o, BinOr));
  }

  lemma SpokenFirst(o: Operand)
    requires Sayable(o)
    ensures Spoken(o) != [] && !NeedsLatest(Spoken(o)[0])
  {
    hide TermActions, SpokenChain;
  }

  lemma {:induction false} Says(v: seq<LinkView>, o: Operand)
    requires Settled(v) && Sayable(o)
    ensures Spoken(o) != [] && !NeedsLatest(Spoken(o)[0])
    ensures Builds(From(v, Spoken(o)), v, Flat(o, LastOp(End(o))))
    decreases o, 1
  {
    SpokenFirst(o);
    hide From, Effect, Flat, Builds, Settled, TermActions, RangeActions, SpokenChain, SayableChain;
    match o
    case Leaf(Basic(field, term), negated) =>
      SaysBasic(v, field, term, negated);
      BuildsExactly(v, Flat(o, BinOr));
    case Leaf(Grouped(field, terms), _) =>
      SaysGrouped(v, field, terms);
      BuildsExactly(v, Flat(o, BinOr));
    case Leaf(Range(_, _, _, _, _), _) => RangeBuilds(v, o);
    case Group(c) => SaysGroup(v, c);
  }

  lemma {:induction false} SaysGroup(v: seq<LinkView>, c: Chain)
    requires Settled(v) && SayableChain(c)
    ensures Builds(From(v, [StartSubQuery] + SpokenChain(c) + [EndSubQuery]), v, Flat(Group(c), NotAnOp))
    decreases c, 1
  {
    hide Flat, FlatChain, From, Effect, SpokenChain, SayableChain, Incomplete, Builds;
    var w := v + [LinkView(Sub(true), NotAnOp, true)];
    MarkerSettles(v);
    SaysMarkers(v);
    SaysChain(w, c);
    var x := From(w, SpokenChain(c));
    Closed(c, LastOp(c));
    LastBuilt(x, w, FlatChain(c, LastOp(c)));
    SaysMarkers(x);
    FromAppend(v, [StartSubQuery] + SpokenChain(c), [EndSubQuery]);
    FromAppend(v, [StartSubQuery], SpokenChain(c));
    FlatGroupIs(c, NotAnOp);
    GroupBuilds(v, x, FlatChain(c, LastOp(c)));
  }

  lemma LastBuilt(w: seq<LinkView>, v: seq<LinkView>, part: seq<LinkView>)
    requires Builds(w, v, part) && part != []
    ensures w != [] && Incomplete(w[|w| - 1]) == Incomplete(part[|part| - 1])
  {
    assert AlikeAt(w[|v|..], part, |part| - 1);
  }

  lemma GroupBuilds(v: seq<LinkView>, x: seq<LinkView>, inner: seq<LinkView>)
    requires Builds(x, v + [LinkView(Sub(true), NotAnOp, true)], inner)
    ensures Builds(x + [LinkView(Sub(false), NotAnOp, true)], v,
      [LinkView(Sub(true), NotAnOp, true)] + inner + [LinkView(Sub(false), NotAnOp, true)])
  {
    var open, close := LinkView(Sub(true), NotAnOp, true), LinkView(Sub(false), NotAnOp, true);
    var made := x[|v| + 1..];
    var w, part := x + [close], [open] + inner + [close];
    assert w[..|v|] == (v + [open])[..|v|] == v;
    assert w[|v|..] == [open] + made + [close];
    forall i | 0 <= i < |part|
      ensures AlikeAt([open] + made + [close], part, i)
    {
      if 1 <= i <= |inner| {
        assert AlikeAt(made, inner, i - 1);
      }
    }
  }

  lemma MarkerSettles(v: seq<LinkView>)
    ensures Settled(v + [LinkView(Sub(true), NotAnOp, true)])
  {
  }

  /** The last link of an operand or a chain is complete, and has the operator written after it. */
  lemma {:induction false} Closed(c: Chain, op: Op)
    requires SayableChain(c)
    ensures var l := FlatChain(c, op); !Incomplete(l[|l| - 1]) && l[|l| - 1].op == op
  {
    match c
    case End(o) => assert Sayable(o);
    case More(_, _, rest) => Closed(rest, op);
  }

  /** An operator goes onto the last link of what it is written after. */
  lemma OpGoesOn(w: seq<LinkView>, v: seq<LinkView>, o: Operand, op: Op)
    requires Sayable(o) && Builds(w, v, Flat(o, LastOp(End(o))))
    ensures var x := From(w, [Action.AddOp(op)]);
      Builds(x, v, Flat(o, op)) && x[|x| - 1].op == op && !Incomplete(x[|x| - 1])
  {
    hide FlatChain;
    var was, now := Flat(o, LastOp(End(o))), Flat(o, op);
    ClosedOperand(o, LastOp(End(o)));
    LastBuilt(w, v, was);
    FromFirst(w, Action.AddOp(op), []);
    var x := From(w, [Action.AddOp(op)]);
    assert x == w[|w| - 1 := w[|w| - 1].(op := op)] && x[..|v|] == w[..|v|];
    assert now == was[|was| - 1 := was[|was| - 1].(op := op)];
    hide Flat;
    forall i | 0 <= i < |now|
      ensures AlikeAt(x[|v|..], now, i)
    {
      assert AlikeAt(w[|v|..], was, i);
    }
  }

  lemma ClosedOperand(o: Operand, op: Op)
    requires Sayable(o)
    ensures var l := Flat(o, op); !Incomplete(l[|l| - 1]) && l[|l| - 1].op == op
  {
    Closed(End(o), op);
  }

  /** What is built after an operator is built behind what was built before it. */
  lemma BuildsBehind(x: seq<LinkView>, w: seq<LinkView>, v: seq<LinkView>, a: seq<LinkView>, b: seq<LinkView>)
    requires Builds(w, v, a) && Builds(x, w, b) && a != [] && w[|w| - 1].op == a[|a| - 1].op
    ensures Builds(x, v, a + b)
  {
    assert x[..|v|] == x[..|w|][..|v|];
    forall i | 0 <= i < |a + b|
      ensures AlikeAt(x[|v|..], a + b, i)
    {
      assert x[|v|..][i] == x[|v| + i];
      if i < |a| {
        assert AlikeAt(w[|v|..], a, i) && w[|v|..][i] == w[|v| + i] == x[|v| + i];
      } else {
        assert AlikeAt(x[|w|..], b, i - |a|) && x[|w|..][i - |a|] == x[|v| + i];
      }
    }
  }

  lemma FlatMore(c: Chain)
    requires c.More?
    ensures FlatChain(c, LastOp(c)) == Flat(c.first, c.op) + FlatChain(c.rest, LastOp(c.rest))
  {
    hide Flat;
  }

  lemma {:induction false} SaysChain(v: seq<LinkView>, c: Chain)
    requires Settled(v) && SayableChain(c)
    ensures SpokenChain(c) != [] && !NeedsLatest(SpokenChain(c)[0])
    ensures Builds(From(v, SpokenChain(c)), v, FlatChain(c, LastOp(c)))
    decreases c, 0
  {
    SpokenStarts(c);
    match c
    case End(o) => Says(v, o);
    case More(o, op, rest) =>
      hide Flat, FlatChain, From, Effect, Spoken, Sayable, Incomplete, Builds;
      Says(v, o);
      OpGoesOn(From(v, Spoken(o)), v, o, op);
      var w := From(From(v, Spoken(o)), [Action.AddOp(op)]);
      ClosedOperand(o, op);
      SaysChain(w, rest);
      FromAppend(v, Spoken(o) + [Action.AddOp(op)], SpokenChain(rest));
      FromAppend(v, Spoken(o), [Action.AddOp(op)]);
      FlatMore(c);
      BuildsBehind(From(w, SpokenChain(rest)), w, v, Flat(o, op), FlatChain(rest, LastOp(rest)));
  }

  /** The actions of a query build its links; only a range nothing is written after has another operator. */
  lemma ParsesAsWritten(c: Chain)
    requires SayableChain(c)
    ensures SpokenChain(c) != [] && !NeedsLatest(SpokenChain(c)[0])
    ensures Alike(Effects(SpokenChain(c)), FlatChain(c, LastOp(c)))
    ensures var links := FlatChain(c, LastOp(c));
      (forall i :: 0 <= i < |links| ==> !links[i].query.Range?) ==> Effects(SpokenChain(c)) == links
  {
    hide FlatChain, From, Effects, SpokenChain, SayableChain, AlikeAt;
    SaysChain([], c);
    FromIsEffects(SpokenChain(c));
    var built, links := Effects(SpokenChain(c)), FlatChain(c, LastOp(c));
    assert built[0..] == built;
    if forall i :: 0 <= i < |links| ==> !links[i].query.Range? {
      AlikeIsEqual(built, links);
    }
  }

  // ---- The answer ----

  lemma WholeQuery(c: Chain)
    requires SayableChain(c)
    ensures At(FlatChain(c, LastOp(c)), 0, |FlatChain(c, LastOp(c))|, Some(c), LastOp(c))
  {
    SayableIsProper(c);
    hide FlatChain, ProperChain;
    var items := FlatChain(c, LastOp(c));
    assert items[0..0 + |items|] == items;
  }

  lemma {:induction false} SayableIsProper(c: Chain)
    requires SayableChain(c)
    ensures ProperChain(c)
  {
    var o := First(c);
    if o.Group? {
      SayableIsProper(o.chain);
    }
    if c.More? {
      SayableIsProper(c.rest);
    }
  }

  /** Parses a query and evaluates it.  Neither an error nor a panic comes of it. */
  method Answer(ix: Index, c: Chain) returns (r: Outcome)
    requires SayableChain(c)
    ensures Run(ix, c).Some? && r == Found(Run(ix, c).value)
    ensures PlainChain(c) && Fine(c, NotAnOp) ==> r.docs.Keys == Value(ix, c, {}, BinOr)
  {
    hide Effects, SpokenChain, FlatChain, Execute, Evaluate, Alike, At;
    ParsesAsWritten(c);
    var token := BuildChain(SpokenChain(c));
    ghost var links, items := token.links, Views(token.links);
    assert forall i :: 0 <= i < |links| ==> links[i] in token.links;
    StandsWhenLinked(links);
    ghost var flat := FlatChain(c, LastOp(c));
    WholeQuery(c);
    AlikeLength(items, flat);
    Executes(ix, items, flat, 0, |flat|, Some(c), LastOp(c), map[], NotAnOp);
    EvaluatesInPlace(ix, items, {}, 0, |items|, map[], NotAnOp);
    ghost var cuts;
    r, cuts := RunChain(ix, token.QueryChain, map[], NotAnOp, token.links, items, {}, 0);
    if PlainChain(c) && Fine(c, NotAnOp) {
      SearchIsSetAlgebra(ix, c);
    }
  }

  lemma StandsWhenLinked(links: seq<Link>)
    requires Linked(links)
    ensures Standing(links, Views(links), {})
  {
    forall i | 0 <= i < |links|
      ensures Nexts(links)[i] == LinkOf(links, NextOf({}, |links|, i)) && Precedes(Prevs(links), links, i)
    {
      assert InPlace(links, i);
    }
  }
}
