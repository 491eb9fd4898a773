/** Taking the links of a query operand by operand (search/search.go, search/parse.go). */
module SearchShape {
  import opened Wrappers
  import opened SearchChain
  import opened SearchEval

  function First(c: Chain): Operand {
    if c.End? then c.last else c.first
  }

  function Tail(c: Chain): Option<Chain> {
    if c.End? then None else Some(c.rest)
  }

  function OpAfter(c: Chain, last: Op): Op {
    if c.End? then last else c.op
  }

  function WithoutNot(c: Chain): Chain
    requires First(c).Leaf?
  {
    if c.End? then End(Leaf(c.last.query, false)) else More(Leaf(c.first.query, false), c.op, c.rest)
  }

  /** From link i on, exactly what is left of the query stands in the chain. */
  ghost predicate At(items: seq<LinkView>, i: nat, hi: nat, r: Option<Chain>, last: Op) {
    if r.None? then i == hi <= |items|
    else
      ProperChain(r.value) && Stands(items, i, FlatChain(r.value, last)) &&
      i + |FlatChain(r.value, last)| == hi <= |items|
  }

  lemma AtOperand(items: seq<LinkView>, i: nat, hi: nat, c: Chain, last: Op)
    requires At(items, i, hi, Some(c), last)
    ensures var n := |Flat(First(c), OpAfter(c, last))|;
      ProperOperand(First(c)) && Stands(items, i, Flat(First(c), OpAfter(c, last))) && i + n <= hi &&
      At(items, i + n, hi, Tail(c), last)
  {
    hide Flat;
    if c.More? {
      StandsMore(items, i, c, last);
    }
  }

  lemma AtNot(items: seq<LinkView>, i: nat, hi: nat, c: Chain, last: Op)
    requires At(items, i, hi, Some(c), last) && First(c).Leaf? && First(c).negated
    ensures i < hi && items[i].query == Not && At(items, i + 1, hi, Some(WithoutNot(c)), last)
  {
    hide FlatChain, Stands;
    var rest := FlatChain(WithoutNot(c), last);
    ProperWithoutNot(c);
    FlatWithoutNot(c, last);
    hide ProperChain;
    StandsSplit(items, i, [LinkView(Not, UnaryNot, false)], rest);
    StandsAt(items, i, [LinkView(Not, UnaryNot, false)], 0);
  }

  lemma ProperWithoutNot(c: Chain)
    requires ProperChain(c) && First(c).Leaf?
    ensures ProperChain(WithoutNot(c))
  {
    var o := First(c);
    assert ProperOperand(o) && ProperOperand(Leaf(o.query, false));
  }

  lemma FlatWithoutNot(c: Chain, last: Op)
    requires First(c).Leaf? && First(c).negated
    ensures FlatChain(c, last) == [LinkView(Not, UnaryNot, false)] + FlatChain(WithoutNot(c), last)
  {
    FlatNot(First(c).query, OpAfter(c, last));
    hide Flat;
    if c.More? {
      var rest := FlatChain(c.rest, last);
      assert FlatChain(c, last) == Flat(First(c), c.op) + rest;
      assert FlatChain(WithoutNot(c), last) == Flat(Leaf(First(c).query, false), c.op) + rest;
    }
  }

  lemma FlatNot(q: Query, op: Op)
    ensures Flat(Leaf(q, true), op) == [LinkView(Not, UnaryNot, false)] + Flat(Leaf(q, false), op)
  {
  }

  lemma AtLeaf(items: seq<LinkView>, i: nat, hi: nat, c: Chain, last: Op)
    requires At(items, i, hi, Some(c), last) && First(c).Leaf? && !First(c).negated
    ensures i < hi && items[i].query == First(c).query && items[i].op == OpAfter(c, last) &&
      At(items, i + 1, hi, Tail(c), last)
    ensures !items[i].query.Not? && !items[i].query.Sub?
  {
    AtOperand(items, i, hi, c, last);
    hide At;
    StandsLeaf(items, i, First(c).query, false, OpAfter(c, last));
  }

  lemma AtGroup(items: seq<LinkView>, i: nat, hi: nat, c: Chain, last: Op) returns (close: nat)
    requires At(items, i, hi, Some(c), last) && First(c).Group?
    ensures i < hi && items[i].query == Sub(true) && MatchClose(items, i + 1, hi, 1) == Some(close)
    ensures i + 1 < close < hi && items[close].op == OpAfter(c, last) && items[close].query == Sub(false)
    ensures At(items, i + 1, close, Some(First(c).chain), LastOp(First(c).chain)) &&
      At(items, close + 1, hi, Tail(c), last)
  {
    AtOperand(items, i, hi, c, last);
    var inner := First(c).chain;
    StandsGroup(items, i, inner, OpAfter(c, last));
    ClosesItsGroup(items, i, hi, inner, OpAfter(c, last));
    close := i + 1 + |FlatChain(inner, LastOp(inner))|;
  }

  /** The first link tells what the first operand is; it is no end marker. */
  lemma AtShape(items: seq<LinkView>, i: nat, hi: nat, c: Chain, last: Op)
    requires At(items, i, hi, Some(c), last)
    ensures i < hi <= |items| && items[i].query != Sub(false)
    ensures items[i].query.Not? <==> First(c).Leaf? && First(c).negated
    ensures items[i].query.Sub? <==> First(c).Group?
  {
    assert hi <= |items|;
    hide At;
    if First(c).Group? {
      var close := AtGroup(items, i, hi, c, last);
    } else if First(c).negated {
      AtNot(items, i, hi, c, last);
    } else {
      AtLeaf(items, i, hi, c, last);
    }
  }

  // ---- Operators nothing is written after ----

  /** The link is the last of its chain. */
  predicate Idle(items: seq<LinkView>, i: nat) {
    i + 1 >= |items| || items[i + 1].query == Sub(false)
  }

  predicate AlikeAt(a: seq<LinkView>, b: seq<LinkView>, i: nat)
    requires i < |a| == |b|
  {
    a[i].query == b[i].query && a[i].complete == b[i].complete &&
    (a[i].op == b[i].op || (b[i].query.Range? && Idle(b, i)))
  }

  /** The same links, except for the operators of ranges that are the last of their chains: a range starts with the
      operator of the link two before it. */
  ghost predicate Alike(a: seq<LinkView>, b: seq<LinkView>) {
    |a| == |b| && forall i :: 0 <= i < |a| ==> AlikeAt(a, b, i)
  }

  /** Without ranges nothing differs. */
  lemma AlikeIsEqual(a: seq<LinkView>, b: seq<LinkView>)
    requires Alike(a, b) && forall i :: 0 <= i < |b| ==> !b[i].query.Range?
    ensures a == b
  {
    forall i | 0 <= i < |a|
      ensures a[i] == b[i]
    {
      assert AlikeAt(a, b, i);
    }
  }

  /** Looking for the end marker depends on what the links looked at are only. */
  lemma {:induction false} SameClose(a: seq<LinkView>, b: seq<LinkView>, i: nat, hi: nat, n: int)
    requires hi <= |a| && hi <= |b| && forall k :: i <= k < hi ==> a[k].query == b[k].query
    ensures MatchClose(a, i, hi, n) == MatchClose(b, i, hi, n)
    decreases hi - i
  {
    if i < hi {
      var level := if a[i].query.Sub? then (if a[i].query.opens then n + 1 else n - 1) else n;
      SameClose(a, b, i + 1, hi, level);
    }
  }

  lemma AlikeLink(a: seq<LinkView>, b: seq<LinkView>, i: nat, hi: nat)
    requires Alike(a, b) && i < hi <= |a|
    ensures |a| == |b| && a[i].query == b[i].query && (a[i].op == b[i].op || (b[i].query.Range? && Idle(b, i)))
    ensures MatchClose(a, i + 1, hi, 1) == MatchClose(b, i + 1, hi, 1)
  {
    assert AlikeAt(a, b, i);
    forall k | 0 <= k < |a|
      ensures a[k].query == b[k].query
    {
      assert AlikeAt(a, b, k);
    }
    SameClose(a, b, i + 1, hi, 1);
  }

  /** An operator that differs is followed by nothing. */
  lemma IdleIsLast(items: seq<LinkView>, i: nat, hi: nat, c: Chain, last: Op)
    requires At(items, i, hi, Some(c), last) && First(c).Leaf? && !First(c).negated && Idle(items, i)
    ensures Tail(c).None? && i + 1 == hi
  {
    AtLeaf(items, i, hi, c, last);
    if Tail(c).Some? {
      AtShape(items, i + 1, hi, Tail(c).value, last);
    }
  }

  /** The operator before a link that is looked up. */
  lemma AlikeBefore(a: seq<LinkView>, b: seq<LinkView>, i: nat)
    requires Alike(a, b) && i < |a| && !b[i].query.Sub?
    ensures PrevOp(a, i) == PrevOp(b, i)
  {
    if i > 0 {
      assert AlikeAt(a, b, i - 1);
    }
  }

  /** The evaluation of a query goes through, whatever the operators that nothing is written after. */
  lemma {:induction false} Executes(ix: Index, a: seq<LinkView>, b: seq<LinkView>, i: nat, hi: nat, r: Option<Chain>,
      last: Op, docs: Docs, op: Op)
    requires Alike(a, b) && At(b, i, hi, r, last)
    ensures hi <= |a| && Execute(ix, b, i, hi, docs, op).Some?
    ensures Execute(ix, a, i, hi, docs, op) == Execute(ix, b, i, hi, docs, op)
    decreases hi - i
  {
    hide Execute, Lookup, Combine, MatchClose, Alike, Idle;
    if r.None? {
      AlikeLength(a, b);
      ExecEnd(ix, a, hi, docs, op);
      ExecEnd(ix, b, hi, docs, op);
    } else {
      AlikeLength(a, b);
      var c := r.value;
      AtShape(b, i, hi, c, last);
      AlikeLink(a, b, i, hi);
      hide At;
      ExecStep(ix, a, i, hi, docs, op);
      ExecStep(ix, b, i, hi, docs, op);
      if b[i].query.Not? {
        AtNot(b, i, hi, c, last);
        Executes(ix, a, b, i + 1, hi, Some(WithoutNot(c)), last, docs, op);
      } else if b[i].query.Sub? {
        ExecutesGroup(ix, a, b, i, hi, c, last, docs, op);
      } else {
        AtLeaf(b, i, hi, c, last);
        AlikeBefore(a, b, i);
        var found := Lookup(ix, b[i].query, PrevOp(b, i), if op == BinAnd then Some(docs) else None);
        if a[i].op != b[i].op {
          IdleIsLast(b, i, hi, c, last);
          ExecEnd(ix, a, hi, Combine(docs, found, op), a[i].op);
          ExecEnd(ix, b, hi, Combine(docs, found, op), b[i].op);
        } else {
          Executes(ix, a, b, i + 1, hi, Tail(c), last, Combine(docs, found, op), b[i].op);
        }
      }
    }
  }

  lemma AlikeLength(a: seq<LinkView>, b: seq<LinkView>)
    requires Alike(a, b)
    ensures |a| == |b|
  {
  }

  lemma {:induction false} ExecutesGroup(ix: Index, a: seq<LinkView>, b: seq<LinkView>, i: nat, hi: nat, c: Chain,
      last: Op, docs: Docs, op: Op)
    requires Alike(a, b) && At(b, i, hi, Some(c), last) && First(c).Group? && i < hi <= |a|
    ensures hi <= |b| && Execute(ix, b, i, hi, docs, op).Some?
    ensures Execute(ix, a, i, hi, docs, op) == Execute(ix, b, i, hi, docs, op)
    decreases hi - i, 0
  {
    hide Execute, Combine, MatchClose, Alike, Idle;
    AlikeLength(a, b);
    var close := AtGroup(b, i, hi, c, last);
    AlikeLink(a, b, i, hi);
    AlikeLink(a, b, close, hi);
    hide At;
    var inner := First(c).chain;
    var start := if op == BinAnd then docs else map[];
    Executes(ix, a, b, i + 1, close, Some(inner), LastOp(inner), start, op);
    var found := Execute(ix, b, i + 1, close, start, op).value;
    ExecGroupStep(ix, a, i, hi, docs, op, close, found);
    ExecGroupStep(ix, b, i, hi, docs, op, close, found);
    Executes(ix, a, b, close + 1, hi, Tail(c), last, Combine(docs, found, op), b[close].op);
  }
}
