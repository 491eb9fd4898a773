/** What the compiled statement and its arguments come to: the placeholders stand for the right arguments,
    and the tables it mentions are declared (search/postgres_search.go). */
module PgStatement {
  import opened Wrappers
  import opened Lists
  import opened SearchChain
  import opened SearchEval
  import opened SearchRun
  import opened SearchShape
  import SearchQuery
  import opened SqlReading
  import opened PgMeaning
  import PgReading
  import opened Sql
  import opened PgClauses
  import opened PgSearch

  // ---- Filling in the placeholders ----

  function PathValues(paths: seq<string>): seq<Text> {
    seq(|paths|, i requires 0 <= i < |paths| => Value(paths[i]))
  }

  /** The statement with every argument written in its place. */
  function Reference(key: string -> string, idx: string, c: Chain): Text {
    Statement(With(idx, Value("1"), Value(idx), PathValues(Paths(key, c))), Tables(c),
      Join(Clauses(key, c, 0, NotAnOp), " "))
  }

  ghost predicate Given(args: seq<string>, idx: string, paths: seq<string>) {
    |args| >= 2 + |paths| && args[0] == "1" && args[1] == idx &&
      forall i :: 0 <= i < |paths| ==> args[2 + i] == paths[i]
  }

  lemma ParamsFilled(args: seq<string>, idx: string, paths: seq<string>)
    requires Given(args, idx, paths)
    ensures Fill(Param(1), args) == Value("1") && Fill(Param(2), args) == Value(idx) &&
      Slots(Param(1)) == Slots(Param(2)) == 0
    ensures Fill(Join(PathParams(|paths|), ", "), args) == Join(PathValues(paths), ", ")
  {
    JoinFill(PathParams(|paths|), ", ", args);
    assert FillAll(PathParams(|paths|), args) == PathValues(paths);
  }

  lemma WordsFixed(k: nat, idx: string, args: seq<string>)
    ensures Fill(Words(k), args) == Words(k) && Slots(Words(k)) == 0
    ensures Fill(BuiltinWords(idx), args) == BuiltinWords(idx) && Slots(BuiltinWords(idx)) == 0
  {
  }

  lemma ItemsFilled(idx: string, args: seq<string>, paths: seq<string>)
    requires Given(args, idx, paths)
    ensures Fill(Items(idx, Param(1), Param(2)), args) == Items(idx, Value("1"), Value(idx))
    ensures Slots(Items(idx, Param(1), Param(2))) == 0
  {
    hide Join, Given, Words, BuiltinWords, Builtin;
    ParamsFilled(args, idx, paths);
    WordsFixed(5, idx, args);
    WordsFixed(6, idx, args);
    if !Builtin(idx) {
      FourFilled(Words(5), Param(1), Words(6), Param(2), args);
    }
  }

  lemma FourFilled(a: Text, b: Text, c: Text, d: Text, args: seq<string>)
    requires Slots(a) == Slots(b) == Slots(c) == Slots(d) == 0
    ensures Fill(Join([a, b, c, d], ""), args) ==
      Join([Fill(a, args), Fill(b, args), Fill(c, args), Fill(d, args)], "")
    ensures Slots(Join([a, b, c, d], "")) == 0
  {
    hide Fill, Slots, Join;
    var xs := [a, b, c, d];
    JoinFill(xs, "", args);
    assert FillAll(xs, args) == [Fill(a, args), Fill(b, args), Fill(c, args), Fill(d, args)];
    JoinSlots(xs, "");
  }

  lemma PartsFilled(org: Text, name: Text, paths: Text, items: Text, args: seq<string>)
    requires Slots(org) == Slots(name) == Slots(paths) == Slots(items) == 0
    ensures FillAll(WithParts(org, name, paths, items), args) ==
      WithParts(Fill(org, args), Fill(name, args), Fill(paths, args), Fill(items, args))
    ensures NoSlots(WithParts(org, name, paths, items))
  {
    hide Fill, Slots, Words;
    forall k: nat
      ensures Fill(Words(k), args) == Words(k) && Slots(Words(k)) == 0
    {
      WordsFixed(k, "", args);
    }
  }

  lemma PathParamsSlots(n: nat)
    ensures Slots(Join(PathParams(n), ", ")) == 0
  {
    JoinSlots(PathParams(n), ", ");
  }

  lemma WithFilled(idx: string, args: seq<string>, paths: seq<string>)
    requires Given(args, idx, paths)
    ensures Fill(With(idx, Param(1), Param(2), PathParams(|paths|)), args) ==
      With(idx, Value("1"), Value(idx), PathValues(paths))
    ensures Slots(With(idx, Param(1), Param(2), PathParams(|paths|))) == 0
  {
    hide Join, Given, Items, PathParams, PathValues, Words, Fill, Slots, WithParts, FillAll;
    ParamsFilled(args, idx, paths);
    ItemsFilled(idx, args, paths);
    PathParamsSlots(|paths|);
    var list, items := Join(PathParams(|paths|), ", "), Items(idx, Param(1), Param(2));
    PartsFilled(Param(1), Param(2), list, items, args);
    JoinFill(WithParts(Param(1), Param(2), list, items), "", args);
    JoinSlots(WithParts(Param(1), Param(2), list, items), "");
  }

  lemma FromFixed(t: int)
    ensures Fixed(FromTables(t))
  {
    if t == 1 {
      FixedPieces(Lit("SELECT COALESCE(ARRAY_AGG(DISTINCT item_name), '{}'::text[]) FROM found_items "), Declare(0));
    } else {
      var joins := Join(JoinTables(if t < 0 then 0 else t), " ");
      var items := Cat(Lit("SELECT COALESCE(ARRAY_AGG(i.item_name), '{}'::text[]) FROM items "), Declare(ITEM));
      JoinsFixed(if t < 0 then 0 else t);
      FixedPieces(Lit("SELECT COALESCE(ARRAY_AGG(i.item_name), '{}'::text[]) FROM items "), Declare(ITEM));
      FixedPieces(Lit(" "), joins);
      hide Fixed, Join, JoinTables;
      FixedCat(items, Cat(Lit(" "), joins));
    }
  }

  lemma JoinsFixed(t: nat)
    ensures Fixed(Join(JoinTables(t), " "))
  {
    hide JoinTable, Join, Fixed;
    var joins := JoinTables(t);
    forall i | 0 <= i < |joins|
      ensures Fixed(joins[i])
    {
      JoinTableFixed(i);
    }
    JoinFixed(joins, " ");
  }

  lemma JoinTableFixed(k: int)
    ensures Fixed(JoinTable(k))
  {
    FixedPieces(Lit("INNER JOIN found_items AS "), Declare(k));
    FixedPieces(Alias(ITEM), Lit(".item_name = "));
    FixedPieces(Alias(k), Lit(".item_name"));
    FixedPieces(Lit(" ON "), Cat(Alias(ITEM), Lit(".item_name = ")));
    hide Fixed;
    FixedCat(Cat(Lit(" ON "), Cat(Alias(ITEM), Lit(".item_name = "))), Cat(Alias(k), Lit(".item_name")));
    FixedCat(Cat(Lit("INNER JOIN found_items AS "), Declare(k)),
      Cat(Cat(Lit(" ON "), Cat(Alias(ITEM), Lit(".item_name = "))), Cat(Alias(k), Lit(".item_name"))));
  }

  lemma FixedCat(x: Text, y: Text)
    ensures Fixed(Cat(x, y)) == (Fixed(x) && Fixed(y))
  {
  }

  /** A piece of wording or a table name, and then more. */
  lemma FixedPieces(x: Text, y: Text)
    requires (x.Lit? || x.Alias? || x.Declare?) && (y.Lit? || y.Alias? || y.Declare? || Fixed(y))
    ensures Fixed(Cat(x, y))
  {
    FixedCat(x, y);
  }

  lemma StatementNumbered(with: Text, t: int, where: Text, k: int)
    requires Slots(with) == 0
    ensures Number(Statement(with, t, where), k) == Statement(with, t, Number(where, k))
  {
    hide FromTables;
    FromFixed(t);
    FixedKept(FromTables(t), []);
    NumberKeeps(with, k);
    NumberKeeps(FromTables(t), k);
    var tail := Cat(Lit(" WHERE "), where);
    assert Number(tail, k) == Cat(Lit(" WHERE "), Number(where, k));
    assert Number(Cat(FromTables(t), tail), k) == Cat(FromTables(t), Number(tail, k));
  }

  lemma StatementFilled(with: Text, t: int, where: Text, args: seq<string>)
    ensures Fill(Statement(with, t, where), args) == Statement(Fill(with, args), t, Fill(where, args))
  {
    hide FromTables;
    FromFixed(t);
    FixedKept(FromTables(t), args);
    var tail := Cat(Lit(" WHERE "), where);
    assert Fill(tail, args) == Cat(Lit(" WHERE "), Fill(where, args));
    assert Fill(Cat(FromTables(t), tail), args) == Cat(FromTables(t), Fill(tail, args));
  }

  /** A query takes a table at least, and one that takes a single table has a single clause. */
  lemma {:induction false} OneTable(key: string -> string, c: Chain, t: int, op: Op)
    requires ProperChain(c)
    ensures Tables(c) >= 1 && (Tables(c) == 1 ==> |Clauses(key, c, t, op)| == 1)
  {
    hide ClauseOf;
    var o := First(c);
    if o.Group? {
      OneTable(key, o.chain, t, NotAnOp);
    }
    if c.More? {
      OneTable(key, c.rest, t + WidthOf(o), c.op);
    }
  }

  function Where(key: string -> string, c: Chain): Text {
    Join(Clauses(key, c, 0, NotAnOp), " ")
  }

  /** So nothing is lost when only the first clause is taken. */
  lemma WhereIs(key: string -> string, c: Chain)
    requires ProperChain(c)
    ensures var qs := EraseAll(Clauses(key, c, 0, NotAnOp));
      (if Tables(c) == 1 && qs != [] then qs[0] else Join(qs, " ")) == Erase(Where(key, c))
    ensures Inline(Where(key, c)) && Values(Where(key, c)) == ValuesAll(Clauses(key, c, 0, NotAnOp))
  {
    hide Clauses, Erase, Inline, Values, ValuesAll, Tables, ProperChain;
    OneTable(key, c, 0, NotAnOp);
    ClausesInline(key, c, 0, NotAnOp);
    JoinLaws(Clauses(key, c, 0, NotAnOp), " ");
  }

  function NumberedWhere(key: string -> string, c: Chain): Text {
    Number(Erase(Where(key, c)), 3 + |Paths(key, c)|)
  }

  /** The statement the compiler leaves for a query. */
  function FullQuery(key: string -> string, idx: string, c: Chain): Text {
    Compiled(idx, Paths(key, c), EraseAll(Clauses(key, c, 0, NotAnOp)), Tables(c))
  }

  function AllArgs(key: string -> string, idx: string, c: Chain): seq<string> {
    ["1", idx] + Paths(key, c) + Args(key, c, 0, NotAnOp)
  }

  lemma FullQueryIs(key: string -> string, idx: string, c: Chain)
    requires ProperChain(c)
    ensures var n := |Paths(key, c)|;
      FullQuery(key, idx, c) ==
        Statement(With(idx, Param(1), Param(2), PathParams(n)), Tables(c), NumberedWhere(key, c))
  {
    hide Clauses, Paths, Tables, Erase, Join, With, Statement, Number, Where, ProperChain, EraseAll, PathParams;
    WhereIs(key, c);
    var paths := Paths(key, c);
    WithFilled(idx, ["1", idx] + paths, paths);
    StatementNumbered(With(idx, Param(1), Param(2), PathParams(|paths|)), Tables(c), Erase(Where(key, c)), 3 + |paths|);
  }

  lemma AllArgsGiven(key: string -> string, idx: string, c: Chain)
    ensures Given(AllArgs(key, idx, c), idx, Paths(key, c))
    ensures ArgsAt(AllArgs(key, idx, c), 3 + |Paths(key, c)|, Args(key, c, 0, NotAnOp))
  {
    hide Paths, Args;
  }

  /** Putting each argument where its placeholder is gives the statement with every argument in its own place. */
  lemma PlaceholdersBindTheirArguments(key: string -> string, idx: string, c: Chain)
    requires ProperChain(c) && OpenRanges(c) == 0
    ensures Fill(FullQuery(key, idx, c), AllArgs(key, idx, c)) == Reference(key, idx, c)
  {
    hide *;
    var args, paths := AllArgs(key, idx, c), Paths(key, c);
    FullQueryIs(key, idx, c);
    AllArgsGiven(key, idx, c);
    WithFilled(idx, args, paths);
    StatementFilled(With(idx, Param(1), Param(2), PathParams(|paths|)), Tables(c), NumberedWhere(key, c), args);
    NumberedWhereIs(key, c);
    WhereIs(key, c);
    ArgumentsMatchExactly(key, c, 0, NotAnOp);
    FillsBack(Where(key, c), 3 + |paths|, args);
    ReferenceIs(key, idx, c);
  }

  lemma NumberedWhereIs(key: string -> string, c: Chain)
    ensures NumberedWhere(key, c) == Number(Erase(Where(key, c)), 3 + |Paths(key, c)|)
  {
  }

  lemma ReferenceIs(key: string -> string, idx: string, c: Chain)
    ensures Reference(key, idx, c) ==
      Statement(With(idx, Value("1"), Value(idx), PathValues(Paths(key, c))), Tables(c), Where(key, c))
  {
  }

  /** The paths have $3 on, and the places after them the numbers that follow, each once and up to the last argument. */
  lemma NumbersAreConsecutive(key: string -> string, idx: string, c: Chain)
    requires ProperChain(c) && OpenRanges(c) == 0
    ensures var n := |Paths(key, c)|;
      Params(Join(PathParams(n), ", ")) == From(3, n) &&
        Params(NumberedWhere(key, c)) == From(3 + n, |Args(key, c, 0, NotAnOp)|) &&
      |AllArgs(key, idx, c)| == 2 + n + |Args(key, c, 0, NotAnOp)|
  {
    hide *;
    var n := |Paths(key, c)|;
    PathNumbers(n);
    ArgCount(key, idx, c);
    FullQueryIs(key, idx, c);
    WhereIs(key, c);
    ArgumentsMatchExactly(key, c, 0, NotAnOp);
    ErasedSlots(Where(key, c));
    Numbered(Erase(Where(key, c)), 3 + n);
    NumberedWhereIs(key, c);
  }

  lemma ArgCount(key: string -> string, idx: string, c: Chain)
    ensures |AllArgs(key, idx, c)| == 2 + |Paths(key, c)| + |Args(key, c, 0, NotAnOp)|
  {
    hide Paths, Args;
  }

  function ParamsFrom(k: int, n: nat): seq<Text> {
    seq(n, i => Param(k + i))
  }

  lemma {:induction false} ParamNumbers(k: int, n: nat)
    ensures Params(Join(ParamsFrom(k, n), ", ")) == From(k, n)
    decreases n
  {
    var xs := ParamsFrom(k, n);
    if n > 1 {
      hide Params;
      assert xs[1..] == ParamsFrom(k + 1, n - 1) && xs[0] == Param(k);
      ParamNumbers(k + 1, n - 1);
      FirstParam(k, Join(xs[1..], ", "), ", ");
      assert [k] + From(k + 1, n - 1) == From(k, n);
    } else if n == 1 {
      assert Params(Param(k)) == From(k, 1);
    }
  }

  lemma FirstParam(k: int, rest: Text, sep: string)
    ensures Params(Cat(Param(k), Cat(Lit(sep), rest))) == [k] + Params(rest)
  {
    assert Params(Cat(Lit(sep), rest)) == [] + Params(rest);
  }

  lemma PathNumbers(n: nat)
    ensures Params(Join(PathParams(n), ", ")) == From(3, n)
  {
    hide Join, Params;
    assert PathParams(n) == ParamsFrom(3, n);
    ParamNumbers(3, n);
  }

  // ---- Tables ----

  /** A negated term is somewhere in the query. */
  predicate Negated(c: Chain) {
    var o := First(c);
    (if o.Leaf? then NeedsItem(o.query) else Negated(o.chain)) || (c.More? && Negated(c.rest))
  }

  lemma UsesOfGroup(key: string -> string, c: Chain, t: int, op: Op)
    ensures Uses(ClauseOf(key, Group(c), t, op)) == UsesAll(Clauses(key, c, t, NotAnOp))
  {
    hide *;
    GroupIs(key, c, t, op);
    ClausesInline(key, c, t, NotAnOp);
    JoinLaws(Clauses(key, c, t, NotAnOp), " ");
    JoinUses(Clauses(key, c, t, NotAnOp), " ");
    JoinedLaws(op, Join(Clauses(key, c, t, NotAnOp), " "));
  }

  lemma UsesOfLeaf(key: string -> string, q: Query, negated: bool, t: int, op: Op)
    ensures var uses := Uses(ClauseOf(key, Leaf(q, negated), t, op));
      (forall a :: a in uses ==> t <= a < t + Width(q) || a == ITEM) && (t >= 0 ==> (ITEM in uses <==> NeedsItem(q)))
    ensures WidthOf(Leaf(q, negated)) == Width(q)
  {
    hide Clause, Uses, NeedsItem;
    ClauseLaws(key, q, t, op);
  }

  lemma SplitUses(key: string -> string, c: Chain, t: int, op: Op)
    ensures UsesAll(Clauses(key, c, t, op)) ==
      Uses(ClauseOf(key, First(c), t, op)) +
      (if c.More? then UsesAll(Clauses(key, c.rest, t + WidthOf(First(c)), c.op)) else {})
  {
    hide ClauseOf, WidthOf, Uses;
    UsesFirst(Clauses(key, c, t, op));
    if c.More? {
      assert Clauses(key, c, t, op)[1..] == Clauses(key, c.rest, t + WidthOf(c.first), c.op);
    } else {
      assert Clauses(key, c, t, op)[1..] == [] && UsesAll([]) == {};
    }
  }

  /** A query mentions its own tables only, and the items exactly when it has a negated term. */
  lemma {:induction false} UsesItsTables(key: string -> string, c: Chain, t: int, op: Op)
    requires t >= 0
    ensures forall a :: a in UsesAll(Clauses(key, c, t, op)) ==> t <= a < t + Tables(c) || a == ITEM
    ensures ITEM in UsesAll(Clauses(key, c, t, op)) <==> Negated(c)
  {
    hide Clauses, ClauseOf, Uses, UsesAll, Width, NeedsItem;
    SplitUses(key, c, t, op);
    var o := First(c);
    if o.Group? {
      UsesOfGroup(key, o.chain, t, op);
      UsesItsTables(key, o.chain, t, NotAnOp);
    } else {
      UsesOfLeaf(key, o.query, o.negated, t, op);
    }
    if c.More? {
      UsesItsTables(key, c.rest, t + WidthOf(o), c.op);
    }
  }

  lemma TableNames(k: int)
    ensures Declares(JoinTable(k)) == {k} && Uses(JoinTable(k)) == {ITEM, k}
  {
    var a := Cat(Lit("INNER JOIN found_items AS "), Declare(k));
    var b, d := Cat(Alias(ITEM), Lit(".item_name = ")), Cat(Alias(k), Lit(".item_name"));
    assert Declares(a) == {k} && Uses(a) == {} && Declares(b) == {} && Uses(b) == {ITEM} && Declares(d) == {} &&
      Uses(d) == {k};
    var e := Cat(Lit(" ON "), b);
    assert Declares(e) == {} && Uses(e) == {ITEM};
    assert Declares(Cat(e, d)) == {} && Uses(Cat(e, d)) == {ITEM, k};
  }

  lemma JoinNames(t: nat, a: int)
    ensures a in Declares(Join(JoinTables(t), " ")) <==> 0 <= a < t
    ensures a in Uses(Join(JoinTables(t), " ")) ==> 0 <= a < t || a == ITEM
  {
    hide Join, Uses, Declares, JoinTable;
    var joins := JoinTables(t);
    forall k | 0 <= k < t
      ensures Declares(joins[k]) == {k} && Uses(joins[k]) == {ITEM, k}
    {
      TableNames(k);
    }
    hide JoinTables;
    JoinDeclares(joins, " ", a);
    JoinUses(joins, " ");
    assert 0 <= a < t ==> a in Declares(joins[a]);
  }

  /** The tables 0 up to t are declared, and the items unless there is but one table. */
  lemma DeclaredTables(t: int, a: int)
    requires t >= 1
    ensures a in Declares(FromTables(t)) <==> 0 <= a < t || (a == ITEM && t != 1)
    ensures a in Uses(FromTables(t)) ==> a in Declares(FromTables(t))
  {
    if t > 1 {
      hide *;
      JoinNames(t, a);
      FromNames(t);
    }
  }

  lemma FromNames(t: int)
    requires t > 1
    ensures Declares(FromTables(t)) == {ITEM} + Declares(Join(JoinTables(t), " "))
    ensures Uses(FromTables(t)) == Uses(Join(JoinTables(t), " "))
  {
    hide JoinTables, Join;
    var joins := JoinTables(t);
    var a := Cat(Lit("SELECT COALESCE(ARRAY_AGG(i.item_name), '{}'::text[]) FROM items "), Declare(ITEM));
    var b := Cat(Lit(" "), Join(joins, " "));
    assert Declares(a) == {ITEM} && Uses(a) == {} && Declares(b) == Declares(Join(joins, " ")) &&
      Uses(b) == Uses(Join(joins, " "));
  }

  lemma TailNames(t: int, where: Text)
    ensures var tail := Cat(FromTables(t), Cat(Lit(" WHERE "), where));
      Uses(tail) == Uses(FromTables(t)) + Uses(where) && Declares(tail) == Declares(FromTables(t)) + Declares(where)
  {
    hide FromTables;
    assert Uses(Cat(Lit(" WHERE "), where)) == Uses(where);
    assert Declares(Cat(Lit(" WHERE "), where)) == Declares(where);
  }

  /** What comes after the WITH part, where the tables are declared and used. */
  function Body(key: string -> string, c: Chain): Text {
    Cat(FromTables(Tables(c)), Cat(Lit(" WHERE "), NumberedWhere(key, c)))
  }

  /** Every table mentioned is declared, unless a lone term is negated: its clause speaks of the items, which are not
      there. */
  lemma TablesDeclaredExactly(key: string -> string, c: Chain)
    requires ProperChain(c)
    ensures Uses(Body(key, c)) <= Declares(Body(key, c)) <==> !(Tables(c) == 1 && Negated(c))
  {
    hide Uses, Declares, Clauses, Tables, Negated, ProperChain, Number, Erase, FromTables, Where, NumberedWhere;
    OneTable(key, c, 0, NotAnOp);
    UsesItsTables(key, c, 0, NotAnOp);
    WhereNames(key, c);
    TailNames(Tables(c), NumberedWhere(key, c));
    var used := UsesAll(Clauses(key, c, 0, NotAnOp));
    hide UsesAll;
    var body := Body(key, c);
    hide Body;
    forall a
      ensures a in Declares(body) <==> 0 <= a < Tables(c) || (a == ITEM && Tables(c) != 1)
      ensures a in Uses(body) ==> a in used || a in Declares(body)
    {
      DeclaredTables(Tables(c), a);
    }
    if Tables(c) == 1 && Negated(c) {
      assert ITEM in Uses(body) && ITEM !in Declares(body);
    }
  }

  /** NOT a:1 */
  function LoneNegation(): Chain {
    End(Leaf(Basic("a", QueryTerm("1", UnaryNot)), true))
  }

  lemma LoneNegationIs()
    ensures ProperChain(LoneNegation()) && Tables(LoneNegation()) == 1 && Negated(LoneNegation())
  {
  }

  /** Its statement mentions i, and declares f0 only. */
  lemma LoneNegationFails(key: string -> string)
    ensures ITEM in Uses(Body(key, LoneNegation())) && ITEM !in Declares(Body(key, LoneNegation()))
  {
    hide *;
    LoneNegationIs();
    ItemsMissing(key, LoneNegation());
  }

  lemma BodyIs(key: string -> string, c: Chain)
    ensures Body(key, c) == Cat(FromTables(Tables(c)), Cat(Lit(" WHERE "), NumberedWhere(key, c)))
  {
  }

  lemma ItemsMissing(key: string -> string, c: Chain)
    requires ProperChain(c) && Tables(c) == 1 && Negated(c)
    ensures ITEM in Uses(Body(key, c)) && ITEM !in Declares(Body(key, c))
  {
    assert ITEM == -1;
    hide *;
    BodyIs(key, c);
    UsesItsTables(key, c, 0, NotAnOp);
    WhereNames(key, c);
    TailNames(1, NumberedWhere(key, c));
    DeclaredTables(1, ITEM);
  }

  lemma WhereNames(key: string -> string, c: Chain)
    requires ProperChain(c)
    ensures Uses(NumberedWhere(key, c)) == UsesAll(Clauses(key, c, 0, NotAnOp)) && Declares(NumberedWhere(key, c)) == {}
  {
    hide *;
    NumberedWhereIs(key, c);
    WhereIs(key, c);
    ErasedSlots(Where(key, c));
    Numbered(Erase(Where(key, c)), 3 + |Paths(key, c)|);
    JoinUses(Clauses(key, c, 0, NotAnOp), " ");
    WhereJoins(key, c);
  }

  lemma WhereJoins(key: string -> string, c: Chain)
    ensures Where(key, c) == Join(Clauses(key, c, 0, NotAnOp), " ")
  {
  }

  // ---- From a query to its statement ----

  lemma WholeChain(links: seq<Link>, chain: Link?, c: Chain, last: Op)
    requires ProperChain(c) && Linked(links) && Alike(Views(links), FlatChain(c, last))
    requires chain == if links == [] then null else links[0]
    ensures Legible(Views(links), Nexts(links), links, Views(links), {}) && Distinct(links) && chain == LinkOf(links, 0)
    ensures At(FlatChain(c, last), 0, |links|, Some(c), last) && Whole({}, |links|, 0, |links|) && |links| > 0
    ensures Onward(0, |links|, |links|) == 0
  {
    hide FlatChain, AlikeAt;
    var items := FlatChain(c, last);
    assert items[0..0 + |items|] == items;
    forall i | 0 <= i < |links|
      ensures Nexts(links)[i] == LinkOf(links, NextOf({}, |links|, i))
    {
      assert InPlace(links, i);
    }
  }

  lemma Delivered(key: string -> string, idx: string, c: Chain, paths: seq<string>, arguments: seq<string>,
      queryStrs: seq<Text>)
    requires Collected(paths, arguments, queryStrs, ChainWork(key, c, 0, NotAnOp))
    ensures ChainWork(key, c, 0, NotAnOp).tables == Tables(c)
    ensures Compiled(idx, paths, queryStrs, Tables(c)) == FullQuery(key, idx, c)
    ensures ["1", idx] + paths + arguments == AllArgs(key, idx, c)
  {
    hide Paths, Args, Clauses, Tables, Compiled, EraseAll, InlineAll;
  }

  /** The condition of a statement. */
  function Condition(x: Text): Option<Text> {
    match x
    case Cat(_, Cat(_, Cat(Lit(" WHERE "), where))) => Some(where)
    case _ => None
  }

  /** The truth of a statement's condition, when there is one and it can be read. */
  function Asks(db: Db, x: Text): Option<bool> {
    if Condition(x).None? then None else Read(db, Condition(x).value)
  }

  /** What a statement asks of the rows is what its query does. */
  lemma AsksWhatTheQuerySays(db: Db, key: string -> string, idx: string, c: Chain)
    requires ProperChain(c)
    ensures Asks(db, Reference(key, idx, c)) ==
      if Readable(c) then Some(ChainMeans(db, key, c, 0, true)) else None
  {
    hide With, FromTables, Clauses, Join, Read, Tables;
    PgReading.MeansWhatItSays(db, key, c);
  }

  /** Compiles a chain that holds a query; the statement and its arguments together say what the query says. */
  method Compile(key: string -> string, idx: string, chain: Link?, ghost links: seq<Link>, ghost c: Chain,
      ghost last: Op) returns (r: Verdict, sql: Text, args: seq<string>)
    requires ProperChain(c) && Linked(links) && Alike(Views(links), FlatChain(c, last))
    requires chain == if links == [] then null else links[0]
    modifies links
    ensures r.Succeeds? && sql == FullQuery(key, idx, c) && args == AllArgs(key, idx, c)
    ensures OpenRanges(c) == 0 ==> Fill(sql, args) == Reference(key, idx, c)
    ensures OpenRanges(c) == 0 ==> forall db: Db ::
      Asks(db, Fill(sql, args)) == if Readable(c) then Some(ChainMeans(db, key, c, 0, true)) else None
  {
    hide *;
    WholeChain(links, chain, c, last);
    ghost var items := Views(links);
    Compiles(key, items, FlatChain(c, last), {}, 0, |links|, Some(c), last, 0, NotAnOp, NoWork());
    RestIs(key, c, 0, NotAnOp);
    var pg := new PgQuery(key, idx);
    var t;
    ghost var x;
    r, t, x := pg.Execute(chain, 0, links, items, {}, 0);
    VerdictIs(x.outcome);
    Delivered(key, idx, c, pg.paths, pg.arguments, pg.queryStrs);
    sql, args := pg.fullQuery, pg.allArgs;
    if OpenRanges(c) == 0 {
      PlaceholdersBindTheirArguments(key, idx, c);
      forall db: Db
        ensures Asks(db, Reference(key, idx, c)) ==
          if Readable(c) then Some(ChainMeans(db, key, c, 0, true)) else None
      {
        AsksWhatTheQuerySays(db, key, idx, c);
      }
    }
  }

  /** Parses a query and compiles it. */
  method CompileQuery(key: string -> string, idx: string, c: Chain) returns (r: Verdict, sql: Text, args: seq<string>)
    requires SearchQuery.SayableChain(c)
    ensures r.Succeeds? && sql == FullQuery(key, idx, c) && args == AllArgs(key, idx, c)
    ensures OpenRanges(c) == 0 ==> Fill(sql, args) == Reference(key, idx, c)
    ensures OpenRanges(c) == 0 ==> forall db: Db ::
      Asks(db, Fill(sql, args)) == if Readable(c) then Some(ChainMeans(db, key, c, 0, true)) else None
  {
    hide Effects, SearchQuery.SpokenChain, FlatChain, Alike, FullQuery, AllArgs, OpenRanges, Fill, Reference, InPlace,
      Asks, Readable, ChainMeans;
    SearchQuery.ParsesAsWritten(c);
    SearchQuery.SayableIsProper(c);
    var token := BuildChain(SearchQuery.SpokenChain(c));
    assert forall i :: 0 <= i < |token.links| ==> token.links[i] in token.links;
    r, sql, args := Compile(key, idx, token.QueryChain, token.links, c, LastOp(c));
  }
}
