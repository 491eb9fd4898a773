/** Evaluating a query chain against the in-memory index (search/search.go, search/parse.go and
    indexer/file_index.go). */
module SearchEval {
  import opened Wrappers
  import opened SearchChain

  datatype Doc = Doc(id: nat)

  type Docs = map<string, Doc>

  /** An index collection, and what its documents match: a field and a value, any text, a range. */
  datatype Index = Index(
    docs: Docs,
    examine: (Doc, string) -> bool,
    text: (Doc, string) -> bool,
    range: (Doc, Query) -> bool)

  // ---- One link ----

  function Select(docs: Docs, p: Doc -> bool, notop: bool): Docs {
    map k | k in docs && p(docs[k]) != notop :: docs[k]
  }

  /** One goroutine per document reports; the answers come in any order. */
  method SearchCollection(docs: Docs, p: Doc -> bool, notop: bool) returns (results: Docs)
    ensures results == Select(docs, p, notop)
  {
    results := map[];
    var todo := docs.Keys;
    while todo != {}
      invariant todo <= docs.Keys
      invariant results == map k | k in docs.Keys - todo && p(docs[k]) != notop :: docs[k]
    {
      var k :| k in todo;
      todo := todo - {k};
      var m := p(docs[k]);
      if (m && !notop) || (!m && notop) {
        results := results[k := docs[k]];
      }
    }
  }

  function SearchTerm(field: string, term: string): string {
    field + ":" + term
  }

  function Matches(ix: Index, term: string): Doc -> bool {
    d => ix.examine(d, term)
  }

  /** `Search` and `SearchResults` of the index: the whole collection, or results gathered before. */
  function Search(ix: Index, term: string, notop: bool, within: Option<Docs>): Docs {
    if term == "*:*" then
      if within.None? then ix.docs else if notop then map[] else within.value
    else
      Select(if within.None? then ix.docs else within.value, Matches(ix, term), notop)
  }

  /** mergeResults: the union of the results before the first required term. */
  function Merge(ix: Index, field: string, terms: seq<QueryTerm>, within: Option<Docs>): Docs {
    if terms == [] || terms[0].mod == UnaryReq then map[]
    else
      var first := Search(ix, SearchTerm(field, terms[0].term), Negates(terms[0].mod), within);
      var rest := Merge(ix, field, terms[1..], within);
      first + rest
  }

  /** `SearchIndex` and `SearchResults` of a link; a basic query is negated by the operator of the link before it. */
  function Lookup(ix: Index, q: Query, prevOp: Op, within: Option<Docs>): Docs {
    match q
    case Basic(field, term) =>
      if field == "" && within.None? then Select(ix.docs, d => ix.text(d, term.term), Negates(prevOp))
      else Search(ix, SearchTerm(field, term.term), Negates(prevOp), within)
    case Grouped(field, terms) => Merge(ix, field, terms, within)
    case Range(_, _, _, _, _) => Select(if within.None? then ix.docs else within.value, d => ix.range(d, q), false)
    case _ => map[]
  }

  /** A required term ends its group: it and the terms after it find nothing. */
  lemma {:induction false} RequiredEndsGroup(ix: Index, field: string, terms: seq<QueryTerm>, k: nat,
      within: Option<Docs>)
    requires k < |terms| && terms[k].mod == UnaryReq
    ensures Merge(ix, field, terms, within) == Merge(ix, field, terms[..k], within)
  {
    hide Search;
    if k > 0 && terms[0].mod != UnaryReq {
      RequiredEndsGroup(ix, field, terms[1..], k - 1, within);
      assert terms[..k][1..] == terms[1..][..k - 1];
    }
  }

  /** A term without a field asks for text in the whole index, and for a field without a name in results. */
  lemma WithoutField(ix: Index, term: QueryTerm, prevOp: Op, docs: Docs, k: string)
    ensures k in Lookup(ix, Basic("", term), prevOp, None) <==>
      k in ix.docs && ix.text(ix.docs[k], term.term) != (prevOp == UnaryNot || prevOp == UnaryPro)
    ensures k in Lookup(ix, Basic("", term), prevOp, Some(docs)) <==>
      k in docs && ix.examine(docs[k], ":" + term.term) != (prevOp == UnaryNot || prevOp == UnaryPro)
  {
    assert "" + ":" + term.term == ":" + term.term;
    assert (":" + term.term)[0] != "*:*"[0];
  }

  /** Whether a document answers a link, taken by itself. */
  predicate Answers(ix: Index, q: Query, negated: bool, d: Doc) {
    match q
    case Basic(field, term) =>
      if field + ":" + term.term == "*:*" then true else ix.examine(d, field + ":" + term.term) != negated
    case Grouped(field, terms) =>
      exists i :: 0 <= i < |terms| &&
        (field + ":" + terms[i].term == "*:*" ||
          ix.examine(d, field + ":" + terms[i].term) != Negates(terms[i].mod))
    case Range(_, _, _, _, _) => ix.range(d, q)
    case _ => false
  }

  predicate IsAll(field: string, t: QueryTerm) {
    field + ":" + t.term == "*:*"
  }

  /** The links set algebra is promised for: a field, no negated *:*, no NOT before a group of terms, no required
      term. */
  predicate Plain(q: Query, negated: bool) {
    match q
    case Basic(field, term) => field != "" && !(negated && IsAll(field, term))
    case Grouped(field, terms) => !negated && forall i :: 0 <= i < |terms| ==>
      terms[i].mod != UnaryReq && !(Negates(terms[i].mod) && IsAll(field, terms[i]))
    case Range(_, _, _, _, _) => true
    case _ => false
  }

  lemma {:induction false} MergeAnswers(ix: Index, field: string, terms: seq<QueryTerm>, within: Option<Docs>,
      k: string)
    requires Plain(Grouped(field, terms), false)
    requires within.Some? ==>
      within.value.Keys <= ix.docs.Keys && forall j :: j in within.value ==> within.value[j] == ix.docs[j]
    ensures var r := Merge(ix, field, terms, within);
      (k in r ==> k in ix.docs && r[k] == ix.docs[k]) &&
      (k in r <==>
        k in ix.docs && (within.Some? ==> k in within.value) &&
        Answers(ix, Grouped(field, terms), false, ix.docs[k]))
  {
    if terms != [] {
      MergeAnswers(ix, field, terms[1..], within, k);
      if k in ix.docs && Answers(ix, Grouped(field, terms[1..]), false, ix.docs[k]) {
        var i :| 0 <= i < |terms[1..]| &&
          (SearchTerm(field, terms[1..][i].term) == "*:*" ||
           ix.examine(ix.docs[k], SearchTerm(field, terms[1..][i].term)) != Negates(terms[1..][i].mod));
        assert terms[1..][i] == terms[i + 1];
      }
      if k in ix.docs && Answers(ix, Grouped(field, terms), false, ix.docs[k]) {
        var i :| 0 <= i < |terms| &&
          (SearchTerm(field, terms[i].term) == "*:*" ||
           ix.examine(ix.docs[k], SearchTerm(field, terms[i].term)) != Negates(terms[i].mod));
        assert i > 0 ==> terms[i] == terms[1..][i - 1];
      }
    }
  }

  /** Results only ever hold documents of the index. */
  ghost predicate FromIndex(ix: Index, docs: Docs) {
    forall k :: k in docs ==> k in ix.docs && docs[k] == ix.docs[k]
  }

  /** Searching within results is intersecting with a full search. */
  lemma WithinIsIntersection(ix: Index, q: Query, prevOp: Op, docs: Docs, k: string)
    requires FromIndex(ix, docs) && Plain(q, Negates(prevOp))
    ensures k in Lookup(ix, q, prevOp, Some(docs)) <==> k in docs && k in Lookup(ix, q, prevOp, None)
    ensures k in Lookup(ix, q, prevOp, None) <==> k in ix.docs && Answers(ix, q, Negates(prevOp), ix.docs[k])
    ensures FromIndex(ix, Lookup(ix, q, prevOp, Some(docs))) && FromIndex(ix, Lookup(ix, q, prevOp, None))
  {
    if q.Grouped? {
      forall j
        ensures j in Lookup(ix, q, prevOp, Some(docs)) ==>
          j in ix.docs && Lookup(ix, q, prevOp, Some(docs))[j] == ix.docs[j]
        ensures j in Lookup(ix, q, prevOp, None) ==> j in ix.docs && Lookup(ix, q, prevOp, None)[j] == ix.docs[j]
      {
        MergeAnswers(ix, q.field, q.terms, Some(docs), j);
        MergeAnswers(ix, q.field, q.terms, None, j);
      }
      MergeAnswers(ix, q.field, q.terms, Some(docs), k);
      MergeAnswers(ix, q.field, q.terms, None, k);
    }
  }

  ghost predicate Agrees(ix: Index, term: string, notop: bool, docs: Docs) {
    forall k :: k in Search(ix, term, notop, Some(docs)) <==> k in docs && k in Search(ix, term, notop, None)
  }

  /** The two ways of searching agree on every index exactly unless the term is a negated *:*, which alone finds
      everything and within results nothing. */
  lemma AgreesUnlessNegatedAll(term: string, notop: bool)
    ensures (forall ix, docs :: FromIndex(ix, docs) ==> Agrees(ix, term, notop, docs)) <==> !(notop && term == "*:*")
  {
    if notop && term == "*:*" {
      var docs: Docs := map["a" := Doc(0)];
      var ix := Index(docs, (d, t) => true, (d, t) => true, (d, q) => true);
      assert FromIndex(ix, docs);
      assert "a" in docs && "a" in Search(ix, term, notop, None) && "a" !in Search(ix, term, notop, Some(docs));
      assert !Agrees(ix, term, notop, docs);
    }
  }

  // ---- The chain ----

  /** The end marker that closes a subquery, n levels up from position i. */
  function MatchClose(items: seq<LinkView>, i: nat, hi: nat, n: int): (r: Option<nat>)
    requires hi <= |items|
    ensures r.Some? ==> i <= r.value < hi
    decreases hi - i
  {
    if i >= hi then None
    else
      var level := if items[i].query.Sub? then (if items[i].query.opens then n + 1 else n - 1) else n;
      if level == 0 then Some(i) else MatchClose(items, i + 1, hi, level)
  }

  /** What the running results become. */
  function Combine(docs: Docs, r: Docs, op: Op): Docs {
    if |docs| == 0 || op == BinAnd then r else if op == BinOr then docs + r else docs
  }

  function PrevOp(items: seq<LinkView>, i: nat): Op
    requires i < |items|
  {
    if i == 0 then NotAnOp else items[i - 1].op
  }

  /** Evaluates the links lo up to hi, from the results so far and the operator that joins the first of them;
      nothing when a subquery is not closed, or empty. */
  function Execute(ix: Index, items: seq<LinkView>, lo: nat, hi: nat, docs: Docs, op: Op): Option<Docs>
    requires hi <= |items|
    decreases hi - lo
  {
    if lo >= hi then Some(docs)
    else if items[lo].query.Not? then Execute(ix, items, lo + 1, hi, docs, op)
    else if items[lo].query.Sub? then
      var close := MatchClose(items, lo + 1, hi, 1);
      if close.None? || close.value == lo + 1 then None
      else
        var r := Execute(ix, items, lo + 1, close.value, if op == BinAnd then docs else map[], op);
        if r.None? then None
        else Execute(ix, items, close.value + 1, hi, Combine(docs, r.value, op), items[close.value].op)
    else
      var r := Lookup(ix, items[lo].query, PrevOp(items, lo), if op == BinAnd then Some(docs) else None);
      Execute(ix, items, lo + 1, hi, Combine(docs, r, op), items[lo].op)
  }

  // ---- Queries as written ----

  datatype Operand = Leaf(query: Query, negated: bool) | Group(chain: Chain)

  datatype Chain = End(last: Operand) | More(first: Operand, op: Op, rest: Chain)

  predicate IsBinary(op: Op) {
    op == BinAnd || op == BinOr
  }

  predicate PlainOperand(o: Operand) {
    match o
    case Leaf(q, negated) => Plain(q, negated)
    case Group(c) => PlainChain(c)
  }

  predicate PlainChain(c: Chain) {
    match c
    case End(o) => PlainOperand(o)
    case More(o, op, rest) => PlainOperand(o) && IsBinary(op) && PlainChain(rest)
  }

  /** Operands are terms, groups of terms and ranges, or chains of them. */
  predicate ProperOperand(o: Operand) {
    match o
    case Leaf(q, _) => !q.Sub? && !q.Not?
    case Group(c) => ProperChain(c)
  }

  predicate ProperChain(c: Chain) {
    match c
    case End(o) => ProperOperand(o)
    case More(o, _, rest) => ProperOperand(o) && ProperChain(rest)
  }

  lemma {:induction false} PlainIsProper(c: Chain)
    requires PlainChain(c)
    ensures ProperChain(c)
  {
    var o := if c.End? then c.last else c.first;
    if o.Group? {
      PlainIsProper(o.chain);
    }
    if c.More? {
      PlainIsProper(c.rest);
    }
  }

  /** The operator of an operand nothing is written after: links of terms start with OR, end markers with none. */
  function LastOp(c: Chain): (op: Op)
    ensures !Negates(op)
  {
    match c
    case End(o) => if o.Group? then NotAnOp else BinOr
    case More(_, _, rest) => LastOp(rest)
  }

  /** The links an operand becomes; `op` is the operator written after it. */
  function Flat(o: Operand, op: Op): (r: seq<LinkView>)
    ensures |r| > 0 && !Negates(r[|r| - 1].op) == !Negates(op)
    decreases o, 1
  {
    match o
    case Leaf(q, negated) => (if negated then [LinkView(Not, UnaryNot, false)] else []) + [LinkView(q, op, true)]
    case Group(c) => [LinkView(Sub(true), NotAnOp, true)] + FlatChain(c, LastOp(c)) + [LinkView(Sub(false), op, true)]
  }

  function FlatChain(c: Chain, op: Op): (r: seq<LinkView>)
    ensures |r| > 0 && !Negates(r[|r| - 1].op) == !Negates(op)
    decreases c, 0
  {
    match c
    case End(o) => Flat(o, op)
    case More(o, op', rest) => Flat(o, op') + FlatChain(rest, op)
  }

  type Truth = Operand -> bool

  /** What the code makes of a document's answers: a group after AND starts from the results so far. */
  function CodeOperand(o: Operand, t: Truth, acc: bool, op: Op): bool {
    match o
    case Leaf(_, _) => if op == BinAnd then acc && t(o) else acc || t(o)
    case Group(c) => if op == BinAnd then Code(c, t, acc, BinAnd) else acc || Code(c, t, false, op)
  }

  function Code(c: Chain, t: Truth, acc: bool, op: Op): bool {
    match c
    case End(o) => CodeOperand(o, t, acc, op)
    case More(o, op', rest) => Code(rest, t, CodeOperand(o, t, acc, op), op')
  }

  /** Set algebra, left to right: a group is evaluated by itself. */
  function MeansOperand(o: Operand, t: Truth): bool {
    match o
    case Leaf(_, _) => t(o)
    case Group(c) => Means(c, t, false, BinOr)
  }

  function Means(c: Chain, t: Truth, acc: bool, op: Op): bool {
    match c
    case End(o) => if op == BinAnd then acc && MeansOperand(o, t) else acc || MeansOperand(o, t)
    case More(o, op', rest) =>
      Means(rest, t, if op == BinAnd then acc && MeansOperand(o, t) else acc || MeansOperand(o, t), op')
  }

  /** Only ANDs, in groups too. */
  predicate AllAnd(c: Chain) {
    match c
    case End(o) => o.Group? ==> AllAnd(o.chain)
    case More(o, op, rest) => (o.Group? ==> AllAnd(o.chain)) && op == BinAnd && AllAnd(rest)
  }

  /** Every group after an AND holds only ANDs. */
  predicate FineOperand(o: Operand, op: Op) {
    o.Group? ==> if op == BinAnd then AllAnd(o.chain) else Fine(o.chain, op)
  }

  predicate Fine(c: Chain, op: Op) {
    match c
    case End(o) => FineOperand(o, op)
    case More(o, op', rest) => FineOperand(o, op) && Fine(rest, op')
  }

  lemma {:induction false} AllAndIsConjunction(c: Chain, t: Truth, acc: bool)
    requires AllAnd(c)
    ensures Code(c, t, acc, BinAnd) == (acc && Code(c, t, true, BinAnd))
    ensures Means(c, t, acc, BinAnd) == (acc && Means(c, t, true, BinAnd))
    ensures Code(c, t, acc, BinAnd) == Means(c, t, acc, BinAnd)
    ensures Means(c, t, true, BinAnd) == Means(c, t, false, BinOr)
  {
    var o := if c.End? then c.last else c.first;
    if o.Group? {
      AllAndIsConjunction(o.chain, t, acc);
      AllAndIsConjunction(o.chain, t, true);
    }
    if c.More? {
      AllAndIsConjunction(c.rest, t, CodeOperand(o, t, acc, BinAnd));
      AllAndIsConjunction(c.rest, t, CodeOperand(o, t, true, BinAnd));
    }
  }

  /** Where every group after an AND holds only ANDs, the code computes set algebra. */
  lemma {:induction false} FineIsAlgebra(c: Chain, t: Truth, acc: bool, op: Op)
    requires Fine(c, op)
    ensures Code(c, t, acc, op) == Means(c, t, acc, op)
  {
    var o := if c.End? then c.last else c.first;
    if o.Group? {
      if op == BinAnd {
        AllAndIsConjunction(o.chain, t, acc);
      } else {
        FineIsAlgebra(o.chain, t, false, op);
        StartsAlike(o.chain, t, op);
      }
    }
    if c.More? {
      FineIsAlgebra(c.rest, t, CodeOperand(o, t, acc, op), c.op);
    }
  }

  lemma StartsAlike(c: Chain, t: Truth, op: Op)
    requires op != BinAnd
    ensures Means(c, t, false, op) == Means(c, t, false, BinOr)
  {
  }

  // Elsewhere it does not: answers for which the code keeps a document that set algebra leaves out.

  ghost function OperandLeaves(o: Operand): set<Operand> {
    if o.Leaf? then {o} else Leaves(o.chain)
  }

  ghost function Leaves(c: Chain): set<Operand> {
    match c
    case End(o) => OperandLeaves(o)
    case More(o, _, rest) => OperandLeaves(o) + Leaves(rest)
  }

  /** No leaf occurs twice. */
  ghost predicate Apart(c: Chain) {
    match c
    case End(o) => o.Group? ==> Apart(o.chain)
    case More(o, _, rest) => (o.Group? ==> Apart(o.chain)) && OperandLeaves(o) !! Leaves(rest) && Apart(rest)
  }

  ghost predicate AllAnswer(t: Truth, leaves: set<Operand>, answer: bool) {
    forall l :: l in leaves ==> t(l) == answer
  }

  lemma {:induction false} AllTrue(c: Chain, t: Truth, acc: bool, op: Op)
    requires AllAnswer(t, Leaves(c), true)
    ensures acc || op != BinAnd || !AllAnd(c) ==> Code(c, t, acc, op)
  {
    var o := if c.End? then c.last else c.first;
    assert OperandLeaves(o) <= Leaves(c) && (c.More? ==> Leaves(c.rest) <= Leaves(c));
    assert AllAnswer(t, OperandLeaves(o), true);
    if o.Group? {
      AllTrue(o.chain, t, acc, BinAnd);
      AllTrue(o.chain, t, false, op);
    }
    if c.More? {
      AllTrue(c.rest, t, CodeOperand(o, t, acc, op), c.op);
    }
  }

  lemma {:induction false} AllFalse(c: Chain, t: Truth, op: Op)
    requires AllAnswer(t, Leaves(c), false)
    ensures !Code(c, t, false, op) && !Means(c, t, false, op)
  {
    var o := if c.End? then c.last else c.first;
    assert OperandLeaves(o) <= Leaves(c) && (c.More? ==> Leaves(c.rest) <= Leaves(c));
    assert AllAnswer(t, OperandLeaves(o), false);
    if o.Group? {
      AllFalse(o.chain, t, op);
      AllFalse(o.chain, t, BinAnd);
      AllFalse(o.chain, t, BinOr);
    }
    if c.More? {
      AllFalse(c.rest, t, c.op);
    }
  }

  /** The leaves that answer, so that a document the code has and set algebra has not stays that way. */
  ghost function Keep(c: Chain, op: Op): (r: set<Operand>)
    ensures r <= Leaves(c)
  {
    match c
    case End(o) => if op == BinAnd then OperandLeaves(o) else {}
    case More(o, op', rest) => (if op == BinAnd then OperandLeaves(o) else {}) + Keep(rest, op')
  }

  lemma {:induction false} Kept(c: Chain, t: Truth, op: Op)
    requires Apart(c) && forall l :: l in Leaves(c) ==> t(l) == (l in Keep(c, op))
    ensures Code(c, t, true, op) && !Means(c, t, false, op)
  {
    var o := if c.End? then c.last else c.first;
    assert AllAnswer(t, OperandLeaves(o), op == BinAnd);
    if o.Group? {
      if op == BinAnd {
        AllTrue(o.chain, t, true, BinAnd);
      } else {
        AllFalse(o.chain, t, BinOr);
      }
    }
    if c.More? {
      Kept(c.rest, t, c.op);
    }
  }

  /** The leaves that answer, so that the code has the document and set algebra has not. */
  ghost function Spoil(c: Chain, op: Op): (r: set<Operand>)
    ensures r <= Leaves(c)
  {
    match c
    case End(o) => SpoilOperand(o, op)
    case More(o, op', rest) =>
      if FineOperand(o, op) then Spoil(rest, op') else SpoilOperand(o, op) + Keep(rest, op')
  }

  ghost function SpoilOperand(o: Operand, op: Op): (r: set<Operand>)
    ensures r <= OperandLeaves(o)
  {
    if o.Leaf? then {} else if op == BinAnd then Leaves(o.chain) else Spoil(o.chain, op)
  }

  lemma {:induction false} Spoiled(c: Chain, t: Truth, op: Op)
    requires Apart(c) && !Fine(c, op) && forall l :: l in Leaves(c) ==> t(l) == (l in Spoil(c, op))
    ensures Code(c, t, false, op) && !Means(c, t, false, op)
  {
    var o := if c.End? then c.last else c.first;
    if !FineOperand(o, op) {
      assert forall l :: l in OperandLeaves(o) ==> t(l) == (l in SpoilOperand(o, op));
      if op == BinAnd {
        AllTrue(o.chain, t, false, BinAnd);
      } else {
        Spoiled(o.chain, t, op);
        StartsAlike(o.chain, t, op);
      }
      if c.More? {
        Kept(c.rest, t, c.op);
      }
    } else {
      assert AllAnswer(t, OperandLeaves(o), false);
      if o.Group? {
        AllFalse(o.chain, t, op);
        AllFalse(o.chain, t, BinOr);
      }
      Spoiled(c.rest, t, c.op);
    }
  }

  /** The code computes set algebra for all answers exactly when every group after an AND holds only ANDs. */
  lemma AlgebraExactlyWhenFine(c: Chain, op: Op)
    requires Apart(c)
    ensures (forall t: Truth :: Code(c, t, false, op) == Means(c, t, false, op)) <==> Fine(c, op)
  {
    if Fine(c, op) {
      forall t: Truth
        ensures Code(c, t, false, op) == Means(c, t, false, op)
      {
        FineIsAlgebra(c, t, false, op);
      }
    } else {
      var spoil := Spoil(c, op);
      var t: Truth := o => o in spoil;
      Spoiled(c, t, op);
    }
  }

  // ---- The evaluation of a chain follows the code's reading of it, document by document ----

  /** The answers of one document. */
  function AnswersOf(ix: Index, d: Doc): Truth {
    (o: Operand) => o.Leaf? && Answers(ix, o.query, o.negated, d)
  }

  ghost predicate Stands(items: seq<LinkView>, lo: nat, part: seq<LinkView>) {
    lo + |part| <= |items| && items[lo..lo + |part|] == part
  }

  lemma StandsSplit(items: seq<LinkView>, lo: nat, a: seq<LinkView>, b: seq<LinkView>)
    requires Stands(items, lo, a + b)
    ensures Stands(items, lo, a) && Stands(items, lo + |a|, b)
  {
    assert (a + b)[..|a|] == a && (a + b)[|a|..] == b;
    assert items[lo..lo + |a|] == items[lo..lo + |a + b|][..|a|];
    assert items[lo + |a|..lo + |a| + |b|] == items[lo..lo + |a + b|][|a|..];
  }

  lemma StandsAt(items: seq<LinkView>, lo: nat, part: seq<LinkView>, i: nat)
    requires Stands(items, lo, part) && i < |part|
    ensures items[lo + i] == part[i]
  {
    assert items[lo..lo + |part|][i] == part[i];
  }

  lemma StandsGroup(items: seq<LinkView>, lo: nat, c: Chain, op: Op)
    requires Stands(items, lo, Flat(Group(c), op))
    ensures |Flat(Group(c), op)| == |FlatChain(c, LastOp(c))| + 2
    ensures items[lo] == LinkView(Sub(true), NotAnOp, true) && Stands(items, lo + 1, FlatChain(c, LastOp(c)))
    ensures items[lo + 1 + |FlatChain(c, LastOp(c))|] == LinkView(Sub(false), op, true)
  {
    hide FlatChain, Flat, LastOp, Stands;
    FlatGroupIs(c, op);
    StandsBetween(items, lo, LinkView(Sub(true), NotAnOp, true), FlatChain(c, LastOp(c)),
      LinkView(Sub(false), op, true));
  }

  lemma FlatGroupIs(c: Chain, op: Op)
    ensures Flat(Group(c), op) ==
      [LinkView(Sub(true), NotAnOp, true)] + FlatChain(c, LastOp(c)) + [LinkView(Sub(false), op, true)]
  {
    hide FlatChain, LastOp;
  }

  lemma StandsBetween(items: seq<LinkView>, lo: nat, open: LinkView, inner: seq<LinkView>, close: LinkView)
    requires Stands(items, lo, [open] + inner + [close])
    ensures lo + |inner| + 2 <= |items| && items[lo] == open && Stands(items, lo + 1, inner) &&
      items[lo + 1 + |inner|] == close
  {
    StandsSplit(items, lo, [open] + inner, [close]);
    StandsSplit(items, lo, [open], inner);
    StandsAt(items, lo, [open], 0);
    StandsAt(items, lo + 1 + |inner|, [close], 0);
  }

  lemma StandsLeaf(items: seq<LinkView>, lo: nat, q: Query, negated: bool, op: Op)
    requires Stands(items, lo, Flat(Leaf(q, negated), op))
    ensures |Flat(Leaf(q, negated), op)| == if negated then 2 else 1
    ensures negated ==> items[lo] == LinkView(Not, UnaryNot, false)
    ensures items[if negated then lo + 1 else lo] == LinkView(q, op, true)
  {
    StandsAt(items, lo, Flat(Leaf(q, negated), op), 0);
    if negated {
      StandsAt(items, lo, Flat(Leaf(q, negated), op), 1);
    }
  }

  lemma StandsMore(items: seq<LinkView>, lo: nat, c: Chain, op: Op)
    requires c.More? && Stands(items, lo, FlatChain(c, op))
    ensures |FlatChain(c, op)| == |Flat(c.first, c.op)| + |FlatChain(c.rest, op)|
    ensures Stands(items, lo, Flat(c.first, c.op)) && Stands(items, lo + |Flat(c.first, c.op)|, FlatChain(c.rest, op))
    ensures Negates(items[lo + |Flat(c.first, c.op)| - 1].op) == Negates(c.op)
  {
    hide Flat;
    var first := Flat(c.first, c.op);
    assert FlatChain(c, op) == first + FlatChain(c.rest, op);
    hide FlatChain, Stands;
    StandsSplit(items, lo, first, FlatChain(c.rest, op));
    StandsLast(items, lo, c.first, c.op);
  }

  lemma StandsLast(items: seq<LinkView>, lo: nat, o: Operand, op: Op)
    requires Stands(items, lo, Flat(o, op))
    ensures Negates(items[lo + |Flat(o, op)| - 1].op) == Negates(op)
  {
    hide Flat;
    StandsAt(items, lo, Flat(o, op), |Flat(o, op)| - 1);
  }

  lemma MatchStep(items: seq<LinkView>, i: nat, hi: nat, n: int)
    requires i < hi <= |items| && n > 0
    ensures !items[i].query.Sub? ==> MatchClose(items, i, hi, n) == MatchClose(items, i + 1, hi, n)
    ensures items[i].query == Sub(true) ==> MatchClose(items, i, hi, n) == MatchClose(items, i + 1, hi, n + 1)
    ensures items[i].query == Sub(false) ==>
      MatchClose(items, i, hi, n) == if n == 1 then Some(i) else MatchClose(items, i + 1, hi, n - 1)
  {
  }

  /** Looking for the end marker passes over a whole operand, or a whole chain. */
  lemma {:induction false} PassOperand(items: seq<LinkView>, lo: nat, hi: nat, n: int, o: Operand, op: Op)
    requires n > 0 && ProperOperand(o) && Stands(items, lo, Flat(o, op)) && lo + |Flat(o, op)| <= hi <= |items|
    ensures MatchClose(items, lo, hi, n) == MatchClose(items, lo + |Flat(o, op)|, hi, n)
    decreases o, 1
  {
    hide MatchClose, Flat, FlatChain, Stands;
    match o
    case Leaf(q, negated) =>
      StandsLeaf(items, lo, q, negated, op);
      MatchStep(items, lo, hi, n);
      if negated {
        MatchStep(items, lo + 1, hi, n);
      }
    case Group(c) =>
      StandsGroup(items, lo, c, op);
      MatchStep(items, lo, hi, n);
      PassChain(items, lo + 1, hi, n + 1, c, LastOp(c));
      MatchStep(items, lo + 1 + |FlatChain(c, LastOp(c))|, hi, n + 1);
  }

  lemma {:induction false} PassChain(items: seq<LinkView>, lo: nat, hi: nat, n: int, c: Chain, op: Op)
    requires n > 0 && ProperChain(c) && Stands(items, lo, FlatChain(c, op)) && lo + |FlatChain(c, op)| <= hi <= |items|
    ensures MatchClose(items, lo, hi, n) == MatchClose(items, lo + |FlatChain(c, op)|, hi, n)
    decreases c, 0
  {
    hide MatchClose, Flat, Stands;
    match c
    case End(o) => PassOperand(items, lo, hi, n, o, op);
    case More(o, op', rest) =>
      StandsMore(items, lo, c, op);
      hide FlatChain;
      PassOperand(items, lo, hi, n, o, op');
      PassChain(items, lo + |Flat(o, op')|, hi, n, rest, op);
  }

  /** The subquery opened at lo is closed right after the group it stands for. */
  lemma ClosesItsGroup(items: seq<LinkView>, lo: nat, hi: nat, c: Chain, op: Op)
    requires ProperChain(c) && Stands(items, lo, Flat(Group(c), op)) && lo + |Flat(Group(c), op)| <= hi <= |items|
    ensures MatchClose(items, lo + 1, hi, 1) == Some(lo + 1 + |FlatChain(c, LastOp(c))|)
  {
    hide MatchClose, Flat, FlatChain, Stands, ProperChain;
    StandsGroup(items, lo, c, op);
    PassChain(items, lo + 1, hi, 1, c, LastOp(c));
    MatchStep(items, lo + 1 + |FlatChain(c, LastOp(c))|, hi, 1);
  }

  /** The results after an operand: what the code reads out of each document's answers. */
  ghost predicate AfterOperand(ix: Index, o: Operand, docs: Docs, op: Op, docs': Docs) {
    FromIndex(ix, docs') &&
    forall k :: k in ix.docs ==> (k in docs' <==> CodeOperand(o, AnswersOf(ix, ix.docs[k]), k in docs, op))
  }

  ghost predicate AfterChain(ix: Index, c: Chain, docs: Docs, op: Op, docs': Docs) {
    FromIndex(ix, docs') &&
    forall k :: k in ix.docs ==> (k in docs' <==> Code(c, AnswersOf(ix, ix.docs[k]), k in docs, op))
  }

  /** What may hold when the evaluation reaches an operand: only at the very start is there no operator, and
      no result. */
  ghost predicate Ready(ix: Index, docs: Docs, op: Op) {
    FromIndex(ix, docs) && (op == BinAnd || op == BinOr || (op == NotAnOp && docs == map[]))
  }

  lemma CombineReads(ix: Index, docs: Docs, r: Docs, op: Op, k: string)
    requires Ready(ix, docs, op) && FromIndex(ix, r)
    ensures FromIndex(ix, Combine(docs, r, op))
    ensures k in Combine(docs, r, op) <==> if op == BinAnd then k in r else k in docs || k in r
  {
  }

  lemma LookupReads(ix: Index, q: Query, prevOp: Op, docs: Docs, op: Op, o: Operand)
    requires Ready(ix, docs, op) && o == Leaf(q, Negates(prevOp)) && Plain(q, Negates(prevOp))
    ensures var r := Lookup(ix, q, prevOp, if op == BinAnd then Some(docs) else None);
      FromIndex(ix, r) && AfterOperand(ix, o, docs, op, Combine(docs, r, op))
  {
    var r := Lookup(ix, q, prevOp, if op == BinAnd then Some(docs) else None);
    WithinIsIntersection(ix, q, prevOp, docs, "");
    hide Lookup, Plain, Answers, Combine;
    forall k | k in ix.docs
      ensures k in Combine(docs, r, op) <==> CodeOperand(o, AnswersOf(ix, ix.docs[k]), k in docs, op)
    {
      WithinIsIntersection(ix, q, prevOp, docs, k);
      CombineReads(ix, docs, r, op, k);
    }
    CombineReads(ix, docs, r, op, "");
  }

  /** One round of the evaluation, by the kind of link. */
  lemma ExecStep(ix: Index, items: seq<LinkView>, lo: nat, hi: nat, docs: Docs, op: Op)
    requires lo < hi <= |items|
    ensures items[lo].query.Not? ==> Execute(ix, items, lo, hi, docs, op) == Execute(ix, items, lo + 1, hi, docs, op)
    ensures !items[lo].query.Not? && !items[lo].query.Sub? ==>
      var r := Lookup(ix, items[lo].query, PrevOp(items, lo), if op == BinAnd then Some(docs) else None);
      Execute(ix, items, lo, hi, docs, op) == Execute(ix, items, lo + 1, hi, Combine(docs, r, op), items[lo].op)
  {
    hide Lookup, Combine, MatchClose;
  }

  lemma ExecGroupStep(ix: Index, items: seq<LinkView>, lo: nat, hi: nat, docs: Docs, op: Op, close: nat, r: Docs)
    requires lo < hi <= |items| && items[lo].query == Sub(true) && MatchClose(items, lo + 1, hi, 1) == Some(close)
    requires lo + 1 < close
    requires Execute(ix, items, lo + 1, close, if op == BinAnd then docs else map[], op) == Some(r)
    ensures Execute(ix, items, lo, hi, docs, op) ==
      Execute(ix, items, close + 1, hi, Combine(docs, r, op), items[close].op)
  {
    hide Lookup, Combine, MatchClose;
  }

  lemma {:induction false} ExecOperand(ix: Index, items: seq<LinkView>, lo: nat, hi: nat, o: Operand, op': Op,
      docs: Docs, op: Op)
    returns (docs': Docs)
    requires PlainOperand(o) && Stands(items, lo, Flat(o, op')) && lo + |Flat(o, op')| <= hi <= |items|
    requires Ready(ix, docs, op) && !Negates(PrevOp(items, lo))
    ensures AfterOperand(ix, o, docs, op, docs')
    ensures Execute(ix, items, lo, hi, docs, op) == Execute(ix, items, lo + |Flat(o, op')|, hi, docs', op')
    decreases o, 1
  {
    hide Execute, Flat, FlatChain, Stands, AfterOperand, AfterChain, Lookup, Combine, MatchClose;
    match o
    case Leaf(q, negated) =>
      var at := if negated then lo + 1 else lo;
      StandsLeaf(items, lo, q, negated, op');
      ExecStep(ix, items, lo, hi, docs, op);
      ExecStep(ix, items, at, hi, docs, op);
      LookupReads(ix, q, PrevOp(items, at), docs, op, o);
      docs' := Combine(docs, Lookup(ix, q, PrevOp(items, at), if op == BinAnd then Some(docs) else None), op);
    case Group(c) =>
      StandsGroup(items, lo, c, op');
      PlainIsProper(c);
      ClosesItsGroup(items, lo, hi, c, op');
      var close := lo + 1 + |FlatChain(c, LastOp(c))|;
      var r := ExecChain(ix, items, lo + 1, close, c, LastOp(c), if op == BinAnd then docs else map[], op);
      ExecGroupStep(ix, items, lo, hi, docs, op, close, r);
      docs' := Combine(docs, r, op);
      GroupReads(ix, c, docs, op, r);
  }

  lemma GroupReads(ix: Index, c: Chain, docs: Docs, op: Op, r: Docs)
    requires Ready(ix, docs, op) && AfterChain(ix, c, if op == BinAnd then docs else map[], op, r)
    ensures AfterOperand(ix, Group(c), docs, op, Combine(docs, r, op))
  {
    hide Code, Combine;
    forall k | k in ix.docs
      ensures k in Combine(docs, r, op) <==> CodeOperand(Group(c), AnswersOf(ix, ix.docs[k]), k in docs, op)
    {
      CombineReads(ix, docs, r, op, k);
    }
    CombineReads(ix, docs, r, op, "");
  }

  lemma {:induction false} ExecChain(ix: Index, items: seq<LinkView>, lo: nat, hi: nat, c: Chain, last: Op, docs: Docs,
      op: Op)
    returns (docs': Docs)
    requires PlainChain(c) && Stands(items, lo, FlatChain(c, last)) && lo + |FlatChain(c, last)| == hi <= |items|
    requires Ready(ix, docs, op) && !Negates(PrevOp(items, lo))
    ensures AfterChain(ix, c, docs, op, docs')
    ensures Execute(ix, items, lo, hi, docs, op) == Some(docs')
    decreases c, 0
  {
    hide Execute, Flat, Stands, AfterOperand, AfterChain;
    match c
    case End(o) =>
      docs' := ExecOperand(ix, items, lo, hi, o, last, docs, op);
      EndReads(ix, c, docs, op, docs');
      ExecEnd(ix, items, hi, docs', last);
    case More(o, op', rest) =>
      StandsMore(items, lo, c, last);
      hide FlatChain;
      var mid := ExecOperand(ix, items, lo, hi, o, op', docs, op);
      AfterIsFromIndex(ix, o, docs, op, mid);
      docs' := ExecChain(ix, items, lo + |Flat(o, op')|, hi, rest, last, mid, op');
      ChainReads(ix, c, docs, op, mid, docs');
  }

  lemma ExecEnd(ix: Index, items: seq<LinkView>, hi: nat, docs: Docs, op: Op)
    requires hi <= |items|
    ensures Execute(ix, items, hi, hi, docs, op) == Some(docs)
  {
  }

  lemma AfterIsFromIndex(ix: Index, o: Operand, docs: Docs, op: Op, docs': Docs)
    requires AfterOperand(ix, o, docs, op, docs')
    ensures FromIndex(ix, docs')
  {
  }

  lemma EndReads(ix: Index, c: Chain, docs: Docs, op: Op, docs': Docs)
    requires c.End? && AfterOperand(ix, c.last, docs, op, docs')
    ensures AfterChain(ix, c, docs, op, docs')
  {
  }

  lemma ChainReads(ix: Index, c: Chain, docs: Docs, op: Op, mid: Docs, docs': Docs)
    requires c.More? && AfterOperand(ix, c.first, docs, op, mid) && AfterChain(ix, c.rest, mid, c.op, docs')
    ensures AfterChain(ix, c, docs, op, docs')
  {
  }

  // ---- What a search promises ----

  function Run(ix: Index, c: Chain): Option<Docs> {
    Execute(ix, FlatChain(c, LastOp(c)), 0, |FlatChain(c, LastOp(c))|, map[], NotAnOp)
  }

  /** The documents of the index that answer an operand, or a chain read left to right with union and intersection. */
  ghost function ValueOf(ix: Index, o: Operand): set<string> {
    match o
    case Leaf(q, negated) => set k | k in ix.docs && Answers(ix, q, negated, ix.docs[k])
    case Group(c) => Value(ix, c, {}, BinOr)
  }

  ghost function Value(ix: Index, c: Chain, acc: set<string>, op: Op): set<string> {
    match c
    case End(o) => if op == BinAnd then acc * ValueOf(ix, o) else acc + ValueOf(ix, o)
    case More(o, op', rest) => Value(ix, rest, if op == BinAnd then acc * ValueOf(ix, o) else acc + ValueOf(ix, o), op')
  }

  lemma {:induction false} ValueIsMeaning(ix: Index, c: Chain, acc: set<string>, op: Op, k: string)
    requires k in ix.docs
    ensures k in Value(ix, c, acc, op) <==> Means(c, AnswersOf(ix, ix.docs[k]), k in acc, op)
  {
    hide Answers;
    var o := if c.End? then c.last else c.first;
    if o.Group? {
      ValueIsMeaning(ix, o.chain, {}, BinOr, k);
    }
    if c.More? {
      ValueIsMeaning(ix, c.rest, if op == BinAnd then acc * ValueOf(ix, o) else acc + ValueOf(ix, o), c.op, k);
    }
  }

  lemma {:induction false} ValueInside(ix: Index, c: Chain, acc: set<string>, op: Op)
    requires acc <= ix.docs.Keys
    ensures Value(ix, c, acc, op) <= ix.docs.Keys
  {
    hide Answers;
    var o := if c.End? then c.last else c.first;
    if o.Group? {
      ValueInside(ix, o.chain, {}, BinOr);
    }
    if c.More? {
      ValueInside(ix, c.rest, if op == BinAnd then acc * ValueOf(ix, o) else acc + ValueOf(ix, o), c.op);
    }
  }

  lemma RunReads(ix: Index, c: Chain) returns (docs: Docs)
    requires PlainChain(c)
    ensures Run(ix, c) == Some(docs) && AfterChain(ix, c, map[], NotAnOp, docs)
  {
    hide Execute, FlatChain, PlainChain, AfterChain;
    var items := FlatChain(c, LastOp(c));
    assert items[0..0 + |items|] == items;
    docs := ExecChain(ix, items, 0, |items|, c, LastOp(c), map[], NotAnOp);
  }

  ghost predicate Correct(ix: Index, c: Chain) {
    Run(ix, c).Some? && Run(ix, c).value.Keys == Value(ix, c, {}, BinOr)
  }

  /** Where groups after AND hold only ANDs, a search returns exactly the documents set algebra gives. */
  lemma SearchIsSetAlgebra(ix: Index, c: Chain)
    requires PlainChain(c) && Fine(c, NotAnOp)
    ensures Correct(ix, c)
  {
    var docs := RunReads(ix, c);
    hide Run, Code, Means, PlainChain, Fine;
    ValueInside(ix, c, {}, BinOr);
    forall k | k in ix.docs
      ensures k in docs <==> k in Value(ix, c, {}, BinOr)
    {
      var t := AnswersOf(ix, ix.docs[k]);
      FineIsAlgebra(c, t, false, NotAnOp);
      StartsAlike(c, t, NotAnOp);
      ValueIsMeaning(ix, c, {}, BinOr, k);
    }
  }

  function TermOf(l: Operand): string
    requires l.Leaf? && l.query.Basic?
  {
    SearchTerm(l.query.field, l.query.term.term)
  }

  /** Field terms that documents can match independently of each other. */
  ghost predicate Independent(c: Chain) {
    Apart(c) &&
    (forall l :: l in Leaves(c) ==> l.Leaf? && l.query.Basic? && TermOf(l) != "*:*") &&
    (forall l, m :: l in Leaves(c) && m in Leaves(c) && TermOf(l) == TermOf(m) ==> l == m)
  }

  /** An index of one document, which matches exactly the given terms. */
  function OneDocument(terms: set<string>): Index {
    Index(map["x" := Doc(0)], (d, t) => t in terms, (d, t) => false, (d, q) => false)
  }

  /** Any answers to independent terms are those of some document. */
  lemma AnswersExist(c: Chain, answers: set<Operand>) returns (ix: Index)
    requires Independent(c)
    ensures ix.docs == map["x" := Doc(0)]
    ensures forall l :: l in Leaves(c) ==> AnswersOf(ix, Doc(0))(l) == (l in answers)
  {
    var leaves := Leaves(c);
    var terms := set l | l in leaves && (l in answers) != l.negated :: TermOf(l);
    ix := OneDocument(terms);
    forall l | l in leaves
      ensures AnswersOf(ix, Doc(0))(l) == (l in answers)
    {
      if TermOf(l) in terms {
        var m :| m in leaves && (m in answers) != m.negated && TermOf(m) == TermOf(l);
      }
    }
  }

  /** A search returns what set algebra gives on every index exactly when every group after an AND holds only ANDs. */
  lemma GroupingHoldsExactly(c: Chain)
    requires PlainChain(c) && Independent(c)
    ensures (forall ix :: Correct(ix, c)) <==> Fine(c, NotAnOp)
  {
    hide Run, Independent, PlainChain, Leaves, Fine, Value;
    if Fine(c, NotAnOp) {
      forall ix
        ensures Correct(ix, c)
      {
        SearchIsSetAlgebra(ix, c);
      }
    } else {
      var ix := AnswersExist(c, Spoil(c, NotAnOp));
      var t := AnswersOf(ix, Doc(0));
      assert Apart(c) by {
        IndependentApart(c);
      }
      Spoiled(c, t, NotAnOp);
      StartsAlike(c, t, NotAnOp);
      var docs := RunReads(ix, c);
      ValueIsMeaning(ix, c, {}, BinOr, "x");
      assert ix.docs["x"] == Doc(0);
      assert !Correct(ix, c);
    }
  }

  lemma IndependentApart(c: Chain)
    requires Independent(c)
    ensures Apart(c)
  {
  }

  function FieldTerm(field: string, term: string): Operand {
    Leaf(Basic(field, QueryTerm(term, NotAnOp)), false)
  }

  /** a:1 AND (b:2 OR c:3) */
  function Example(): Chain {
    More(FieldTerm("a", "1"), BinAnd, End(Group(More(FieldTerm("b", "2"), BinOr, End(FieldTerm("c", "3"))))))
  }

  lemma ExampleReadings(t: Truth)
    requires !t(FieldTerm("a", "1")) && !t(FieldTerm("b", "2")) && t(FieldTerm("c", "3"))
    ensures Code(Example(), t, false, NotAnOp) && !Means(Example(), t, false, BinOr)
  {
    var group := More(FieldTerm("b", "2"), BinOr, End(FieldTerm("c", "3")));
    assert Code(group, t, false, BinAnd);
    assert !CodeOperand(FieldTerm("a", "1"), t, false, NotAnOp);
    assert !Means(End(Group(group)), t, false, BinAnd);
  }

  lemma ExampleAnswers(ix: Index)
    requires ix == OneDocument({"c:3"})
    ensures var t := AnswersOf(ix, Doc(0)); !t(FieldTerm("a", "1")) && !t(FieldTerm("b", "2")) && t(FieldTerm("c", "3"))
    ensures PlainChain(Example())
  {
    assert SearchTerm("a", "1") == "a:1" && SearchTerm("b", "2") == "b:2" && SearchTerm("c", "3") == "c:3";
    assert PlainOperand(FieldTerm("a", "1")) && PlainOperand(FieldTerm("b", "2")) && PlainOperand(FieldTerm("c", "3"));
    assert PlainChain(More(FieldTerm("b", "2"), BinOr, End(FieldTerm("c", "3"))));
  }

  /** On a document that matches c:3 only, the code returns it and set algebra does not. */
  lemma GroupAfterAndGoesWrong(ix: Index)
    requires ix == OneDocument({"c:3"})
    ensures Run(ix, Example()).Some? && "x" in Run(ix, Example()).value && "x" !in Value(ix, Example(), {}, BinOr)
  {
    hide Run, Code, Means, Value, PlainChain, Answers;
    ExampleAnswers(ix);
    var docs := RunReads(ix, Example());
    ValueIsMeaning(ix, Example(), {}, BinOr, "x");
    ExampleReadings(AnswersOf(ix, Doc(0)));
    assert ix.docs["x"] == Doc(0);
  }
}
