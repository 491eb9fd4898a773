/** The chain of queries the parser's actions build (search/parse.go): a doubly linked list that grows
    at `Latest`. */
module SearchChain {
  import opened Lists

  datatype Op = NotAnOp | UnaryNot | UnaryReq | UnaryPro | BinAnd | BinOr | Boost | Fuzzy

  datatype QueryTerm = QueryTerm(term: string, mod: Op)

  /** The five kinds of link. */
  datatype Query =
    | Basic(field: string, term: QueryTerm)
    | Grouped(field: string, terms: seq<QueryTerm>)
    | Range(field: string, start: string, end: string, inclusive: bool, negated: bool)
    | Sub(opens: bool)   // the start or the end of a subquery
    | Not

  predicate Negates(op: Op) {
    op == UnaryNot || op == UnaryPro
  }

  function WithField(q: Query, s: string): Query {
    match q
    case Basic(_, term) => Basic(s, term)
    case Grouped(_, terms) => Grouped(s, terms)
    case Range(_, start, end, inclusive, negated) => Range(s, start, end, inclusive, negated)
    case _ => q
  }

  /** A term for a basic query takes on the negation of the link before it; for a grouped query it fills the
      term its operator opened; for a range query it is the start and then the end. */
  function WithTerm(q: Query, s: string, prevOp: Op): Query {
    match q
    case Basic(_, term) => q.(term := QueryTerm(s, if Negates(prevOp) then prevOp else term.mod))
    case Grouped(_, terms) =>
      var last := |terms| - 1;
      if |terms| > 0 && terms[last].term == "" then q.(terms := terms[last := terms[last].(term := s)])
      else q.(terms := terms + [QueryTerm(s, NotAnOp)])
    case Range(_, start, _, _, _) => if start == "" then q.(start := s) else q.(end := s)
    case _ => q
  }

  function WithTermOp(q: Query, o: Op): Query {
    match q
    case Basic(_, term) => q.(term := term.(mod := o))
    case Grouped(_, terms) => q.(terms := terms + [QueryTerm("", o)])
    case _ => q
  }

  /** What a link holds besides its neighbours. */
  datatype LinkView = LinkView(query: Query, op: Op, complete: bool)

  predicate Incomplete(v: LinkView) {
    if v.query.Range? then v.query.start == "" || v.query.end == ""
    else !v.query.Not? && !v.complete
  }

  class Link {
    var query: Query
    var op: Op
    var complete: bool
    var next: Link?
    var prev: Link?

    constructor (query: Query, op: Op, complete: bool)
      ensures this.query == query && this.op == op && this.complete == complete && next == null && prev == null
    {
      this.query, this.op, this.complete, next, prev := query, op, complete, null, null;
    }

    function View(): LinkView
      reads this
    {
      LinkView(query, op, complete)
    }

    predicate IsIncomplete()
      reads this
      ensures IsIncomplete() == Incomplete(View())
    {
      match query
      case Range(_, start, end, _, _) => start == "" || end == ""
      case Not => false
      case _ => !complete
    }

    method AddField(s: string)
      modifies this`query
      ensures query == WithField(old(query), s)
    {
      match query
      case Basic(_, term) => query := Basic(s, term);
      case Grouped(_, terms) => query := Grouped(s, terms);
      case Range(_, start, end, inclusive, negated) => query := Range(s, start, end, inclusive, negated);
      case _ =>
    }

    method AddTerm(s: string)
      modifies this`query, this`complete
      ensures query == WithTerm(old(query), s, if prev != null then prev.op else NotAnOp)
      ensures complete == (old(complete) || query.Basic? || query.Range?)
    {
      match query
      case Basic(_, term) =>
        query := query.(term := term.(term := s));
        if prev != null && Negates(prev.op) {
          AddTermOp(prev.op);
        }
        SetCompleted();
      case Grouped(_, terms) =>
        if |terms| == 0 || terms[|terms| - 1].term != "" {
          query := query.(terms := terms + [QueryTerm(s, NotAnOp)]);
        } else {
          query := query.(terms := terms[|terms| - 1 := terms[|terms| - 1].(term := s)]);
        }
      case Range(_, start, _, _, _) =>
        if start == "" {
          query := query.(start := s);
        } else {
          query := query.(end := s);
        }
        SetCompleted();
      case _ =>
    }

    method AddTermOp(o: Op)
      modifies this`query
      ensures query == WithTermOp(old(query), o)
    {
      match query
      case Basic(_, term) => query := query.(term := term.(mod := o));
      case Grouped(_, terms) => query := query.(terms := terms + [QueryTerm("", o)]);
      case _ =>
    }

    method SetCompleted()
      modifies this`complete
      ensures complete == (old(complete) || !query.Not?)
    {
      if !query.Not? {
        complete := true;
      }
    }
  }

  /** The link at position i points to its neighbours. */
  ghost predicate InPlace(links: seq<Link>, i: int)
    requires 0 <= i < |links|
    reads links
  {
    links[i].next == (if i + 1 < |links| then links[i + 1] else null) &&
    links[i].prev == (if i == 0 then null else links[i - 1])
  }

  /** The links of the chain, in order: `next` and `prev` are each other's inverse along them. */
  ghost predicate Linked(links: seq<Link>)
    reads links
  {
    Distinct(links) && forall i :: 0 <= i < |links| ==> InPlace(links, i)
  }

  /** The actions the grammar calls. */
  datatype Action =
    | AddOp(op: Op) | AddField(s: string) | AddTerm(s: string) | AddTermOp(op: Op) | AddRange(s: string)
    | StartBasic | StartRange(inclusive: bool) | StartGrouped | SetCompleted
    | StartSubQuery | EndSubQuery | SetNotQuery(op: Op)

  /** Actions that work on the latest link, and so need one. */
  predicate NeedsLatest(a: Action) {
    a.AddOp? || a.AddField? || a.AddRange? || a.SetCompleted? || a.EndSubQuery?
  }

  // ---- What an action does to the contents of the chain ----

  predicate NeedsNew(v: seq<LinkView>) {
    v == [] || !Incomplete(v[|v| - 1])
  }

  function OpBefore(v: seq<LinkView>): Op {
    if |v| >= 2 then v[|v| - 2].op else NotAnOp
  }

  function SetLast(v: seq<LinkView>, l: LinkView): seq<LinkView>
    requires v != []
  {
    v[|v| - 1 := l]
  }

  function AfterStartBasic(v: seq<LinkView>): (r: seq<LinkView>)
    ensures r != []
  {
    if NeedsNew(v) then v + [LinkView(Basic("", QueryTerm("", NotAnOp)), BinOr, false)] else v
  }

  function AfterAddTerm(v: seq<LinkView>, s: string): seq<LinkView>
    requires v != []
  {
    var l := v[|v| - 1];
    SetLast(v, LinkView(WithTerm(l.query, s, OpBefore(v)), l.op, l.complete || l.query.Basic? || l.query.Range?))
  }

  function AfterAddTermOp(v: seq<LinkView>, o: Op): seq<LinkView>
    requires v != []
  {
    SetLast(v, v[|v| - 1].(query := WithTermOp(v[|v| - 1].query, o)))
  }

  function Effect(v: seq<LinkView>, a: Action): (r: seq<LinkView>)
    requires v == [] ==> !NeedsLatest(a)
    ensures r != []
  {
    match a
    case AddOp(op) => SetLast(v, v[|v| - 1].(op := op))
    case AddField(s) => SetLast(v, v[|v| - 1].(query := WithField(v[|v| - 1].query, s)))
    case AddTerm(s) => AfterAddTerm(AfterStartBasic(v), s)
    case AddTermOp(op) => AfterAddTermOp(AfterStartBasic(v), op)
    case AddRange(s) => AfterAddTerm(v, s)
    case StartBasic => AfterStartBasic(v)
    case StartRange(inclusive) =>
      var negated := v != [] && v[|v| - 1].op == UnaryNot;
      v + [LinkView(Range("", "", "", inclusive, negated), if v == [] then BinOr else OpBefore(v), false)]
    case StartGrouped => if NeedsNew(v) then v + [LinkView(Grouped("", []), BinOr, false)] else v
    case SetCompleted => SetLast(v, v[|v| - 1].(complete := v[|v| - 1].complete || !v[|v| - 1].query.Not?))
    case StartSubQuery => if NeedsNew(v) then v + [LinkView(Sub(true), NotAnOp, true)] else v
    case EndSubQuery => if NeedsNew(v) then v + [LinkView(Sub(false), NotAnOp, true)] else v
    case SetNotQuery(op) => v + [LinkView(Not, op, false)]
  }

  function Effects(actions: seq<Action>): (v: seq<LinkView>)
    requires actions != [] ==> !NeedsLatest(actions[0])
    ensures actions != [] ==> v != []
  {
    if actions == [] then [] else
      var init := actions[..|actions| - 1];
      assert init != [] ==> init[0] == actions[0];
      Effect(Effects(init), actions[|actions| - 1])
  }

  ghost function Views(links: seq<Link>): (v: seq<LinkView>)
    reads links
    ensures |v| == |links| && forall i :: 0 <= i < |links| ==> v[i] == links[i].View()
  {
    seq(|links|, i requires 0 <= i < |links| reads links => links[i].View())
  }

  twostate predicate SameNeighbours(l: Link)
    reads l
  {
    l.next == old(l.next) && l.prev == old(l.prev)
  }

  twostate predicate SameView(l: Link)
    reads l
  {
    l.View() == old(l.View())
  }

  class Token {
    var QueryChain: Link?
    var Latest: Link?
    ghost var links: seq<Link>

    constructor ()
      ensures Valid() && links == []
    {
      QueryChain, Latest, links := null, null, [];
    }

    /** The chain starts at `QueryChain`, ends at `Latest`, and runs through all links both ways. */
    ghost predicate Valid()
      reads this, links
    {
      Linked(links) &&
      QueryChain == (if links == [] then null else links[0]) &&
      Latest == (if links == [] then null else links[|links| - 1])
    }

    ghost function Contents(): (v: seq<LinkView>)
      reads this, links
    {
      Views(links)
    }

    /** Appends a new link: the common part of the Start actions. */
    method Append(link: Link)
      requires Valid() && link !in links && link.next == null && link.prev == null
      modifies this, link, Latest
      ensures Valid() && links == old(links) + [link]
      ensures Contents() == old(Contents()) + [old(link.View())]
    {
      ghost var was := links;
      if Latest != null {
        Latest.next := link;
        link.prev := Latest;
      }
      if QueryChain == null {
        QueryChain := link;
      }
      Latest := link;
      links := links + [link];
      forall i | 0 <= i < |links|
        ensures InPlace(links, i)
      {
        if i < |was| {
          assert old(InPlace(was, i));
          assert links[i] == was[i] && links[i] != link;
        }
      }
      assert forall i :: 0 <= i < |was| ==> was[i] in was;
      DistinctAppend(was, [link]);
      hide InPlace, Distinct;
      assert forall i :: 0 <= i < |was| ==> was[i].View() == old(was[i].View());
    }

    lemma LatestPrev()
      requires Valid() && Latest != null
      ensures (Latest.prev != null) == (|links| >= 2) && Latest.prev != Latest
      ensures Latest.prev != null ==> Latest.prev.op == OpBefore(Contents())
    {
      assert InPlace(links, |links| - 1);
    }

    /** A change to what the last link holds leaves the chain in place. */
    twostate lemma OnlyLastChanged()
      requires old(Valid()) && old(Latest) != null && Latest == old(Latest) && QueryChain == old(QueryChain) &&
        links == old(links)
      requires forall i :: 0 <= i < |links| ==> SameNeighbours(links[i])
      requires forall i :: 0 <= i < |links| - 1 ==> SameView(links[i])
      ensures Valid() && Contents() == SetLast(old(Contents()), Latest.View())
    {
      hide Distinct;
      forall i | 0 <= i < |links|
        ensures InPlace(links, i)
      {
        assert old(InPlace(links, i));
        assert SameNeighbours(links[i]);
      }
      hide InPlace, SameNeighbours;
      forall i | 0 <= i < |links| - 1
        ensures links[i].View() == old(links[i].View())
      {
        assert SameView(links[i]);
      }
    }

    method AddOp(o: Op)
      requires Valid() && Latest != null
      modifies Latest`op
      ensures Valid() && links == old(links) && Contents() == Effect(old(Contents()), Action.AddOp(o))
    {
      hide InPlace;
      Latest.op := o;
      OnlyLastChanged();
    }

    method AddField(s: string)
      requires Valid() && Latest != null
      modifies Latest`query
      ensures Valid() && links == old(links) && Contents() == Effect(old(Contents()), Action.AddField(s))
    {
      hide InPlace;
      Latest.AddField(s);
      OnlyLastChanged();
    }

    /** Puts a term into the latest link; `AddRange` does no more than this. */
    method TermToLatest(s: string)
      requires Valid() && Latest != null
      modifies Latest`query, Latest`complete
      ensures Valid() && links == old(links) && Contents() == AfterAddTerm(old(Contents()), s)
    {
      hide InPlace;
      LatestPrev();
      Latest.AddTerm(s);
      OnlyLastChanged();
    }

    method TermOpToLatest(o: Op)
      requires Valid() && Latest != null
      modifies Latest`query
      ensures Valid() && links == old(links) && Contents() == AfterAddTermOp(old(Contents()), o)
    {
      hide InPlace;
      Latest.AddTermOp(o);
      OnlyLastChanged();
    }

    method SetCompleted()
      requires Valid() && Latest != null
      modifies Latest`complete
      ensures Valid() && links == old(links) && Contents() == Effect(old(Contents()), Action.SetCompleted)
    {
      hide InPlace;
      Latest.SetCompleted();
      OnlyLastChanged();
    }

    predicate LatestComplete()
      reads this, Latest
    {
      Latest == null || !Latest.IsIncomplete()
    }

    method StartBasic()
      requires Valid()
      modifies this, Latest
      ensures Valid() && Contents() == AfterStartBasic(old(Contents())) && Latest != null
      ensures Latest == old(Latest) || fresh(Latest)
      ensures forall l :: l in links ==> l in old(links) || fresh(l)
    {
      hide InPlace, Distinct;
      if LatestComplete() {
        var un := new Link(Basic("", QueryTerm("", NotAnOp)), BinOr, false);
        Append(un);
      }
    }

    method AddTerm(s: string)
      requires Valid()
      modifies this, Latest
      ensures Valid() && Contents() == Effect(old(Contents()), Action.AddTerm(s))
      ensures forall l :: l in links ==> l in old(links) || fresh(l)
    {
      hide InPlace, Distinct;
      StartBasic();
      TermToLatest(s);
    }

    method AddTermOp(o: Op)
      requires Valid()
      modifies this, Latest
      ensures Valid() && Contents() == Effect(old(Contents()), Action.AddTermOp(o))
      ensures forall l :: l in links ==> l in old(links) || fresh(l)
    {
      hide InPlace, Distinct;
      StartBasic();
      TermOpToLatest(o);
    }

    method StartRange(inclusive: bool)
      requires Valid()
      modifies this, Latest
      ensures Valid() && Contents() == Effect(old(Contents()), Action.StartRange(inclusive))
      ensures forall l :: l in links ==> l in old(links) || fresh(l)
    {
      hide Distinct, InPlace;
      var negated, op := false, BinOr;
      if Latest != null {
        LatestPrev();
        negated := Latest.op == UnaryNot;
        op := if Latest.prev != null then Latest.prev.op else NotAnOp;
      }
      var rn := new Link(Range("", "", "", inclusive, negated), op, false);
      Append(rn);
    }

    method StartGrouped()
      requires Valid()
      modifies this, Latest
      ensures Valid() && Contents() == Effect(old(Contents()), Action.StartGrouped)
      ensures forall l :: l in links ==> l in old(links) || fresh(l)
    {
      hide InPlace, Distinct;
      if LatestComplete() {
        var gn := new Link(Grouped("", []), BinOr, false);
        Append(gn);
      }
    }

    method StartSubQuery()
      requires Valid()
      modifies this, Latest
      ensures Valid() && Contents() == Effect(old(Contents()), Action.StartSubQuery)
      ensures forall l :: l in links ==> l in old(links) || fresh(l)
    {
      hide InPlace, Distinct;
      if LatestComplete() {
        var sq := new Link(Sub(true), NotAnOp, true);
        Append(sq);
      }
    }

    /** Leaves `QueryChain` alone, so a chain must have been started. */
    method EndSubQuery()
      requires Valid() && Latest != null
      modifies this, Latest
      ensures Valid() && Contents() == Effect(old(Contents()), Action.EndSubQuery)
      ensures forall l :: l in links ==> l in old(links) || fresh(l)
    {
      hide InPlace, Distinct;
      if LatestComplete() {
        var sq := new Link(Sub(false), NotAnOp, true);
        Append(sq);
      }
    }

    method SetNotQuery(o: Op)
      requires Valid()
      modifies this, Latest
      ensures Valid() && Contents() == Effect(old(Contents()), Action.SetNotQuery(o))
      ensures forall l :: l in links ==> l in old(links) || fresh(l)
    {
      hide InPlace, Distinct;
      var nq := new Link(Not, o, false);
      Append(nq);
    }

    method Perform(a: Action)
      requires Valid() && (Latest == null ==> !NeedsLatest(a))
      modifies this, Latest
      ensures Valid() && Contents() == Effect(old(Contents()), a)
      ensures forall l :: l in links ==> l in old(links) || fresh(l)
    {
      hide InPlace, Distinct, Linked;
      match a
      case AddOp(o) => AddOp(o);
      case AddField(s) => AddField(s);
      case AddTerm(s) => AddTerm(s);
      case AddTermOp(o) => AddTermOp(o);
      case AddRange(s) => TermToLatest(s);
      case StartBasic => StartBasic();
      case StartRange(inclusive) => StartRange(inclusive);
      case StartGrouped => StartGrouped();
      case SetCompleted => SetCompleted();
      case StartSubQuery => StartSubQuery();
      case EndSubQuery => EndSubQuery();
      case SetNotQuery(o) => SetNotQuery(o);
    }
  }

  /** Any sequence of actions that does not begin with one that needs a link builds a well-formed chain, with the
      contents the actions describe. */
  method BuildChain(actions: seq<Action>) returns (token: Token)
    requires actions != [] ==> !NeedsLatest(actions[0])
    ensures fresh(token) && (forall l :: l in token.links ==> fresh(l))
    ensures token.Valid() && token.Contents() == Effects(actions)
  {
    hide InPlace, Distinct, Effect, Effects;
    token := new Token();
    NoEffects();
    for i := 0 to |actions|
      invariant fresh(token) && (forall l :: l in token.links ==> fresh(l)) && token.Valid()
      invariant token.Contents() == Effects(actions[..i])
    {
      EffectsStep(actions, i);
      assert token.Latest != null ==> token.Latest in token.links;
      token.Perform(actions[i]);
    }
    assert actions[..|actions|] == actions;
  }

  lemma NoEffects()
    ensures Effects([]) == []
  {
  }

  lemma EffectsStep(actions: seq<Action>, i: nat)
    requires i < |actions| && !NeedsLatest(actions[0])
    ensures Effects(actions[..i]) == [] ==> !NeedsLatest(actions[i])
    ensures Effects(actions[..i + 1]) == Effect(Effects(actions[..i]), actions[i])
  {
    hide Effect;
    assert actions[..i + 1][..i] == actions[..i];
  }
}
