/** The SQL clause of each kind of link, with its arguments written out in place, and the builders that
    produce the clause and its arguments apart (search/postgres_search.go). */
module PgClauses {
  import opened SearchChain
  import opened Sql
  import Strings

  const ITEM := -1   // the alias i of the items table

  function Path(): string {
    ".path OPERATOR(goiardi.~) "
  }

  /** A lone field is looked up with the plain operator. */
  function PlainPath(): string {
    ".path ~ "
  }

  // ---- Pieces of clauses ----

  /** f<t>.what x */
  function Cmp(t: int, what: string, x: Text): Text {
    Cat(Alias(t), Cat(Lit(what), x))
  }

  function Wrap(before: string, x: Text, after: string): Text {
    Cat(Lit(before), Cat(x, Lit(after)))
  }

  function Both(x: Text, join: string, y: Text): Text {
    Cat(x, Cat(Lit(join), y))
  }

  lemma LitLaws(s: string)
    ensures Inline(Lit(s)) && Erase(Lit(s)) == Lit(s) && Values(Lit(s)) == [] && Uses(Lit(s)) == {}
  {
  }

  lemma CatLaws(x: Text, y: Text)
    ensures Inline(Cat(x, y)) == (Inline(x) && Inline(y)) && Erase(Cat(x, y)) == Cat(Erase(x), Erase(y))
    ensures Values(Cat(x, y)) == Values(x) + Values(y) && Uses(Cat(x, y)) == Uses(x) + Uses(y)
  {
  }

  lemma CmpLaws(t: int, what: string, v: string)
    ensures Inline(Cmp(t, what, Value(v))) && Erase(Cmp(t, what, Value(v))) == Cmp(t, what, Slot)
    ensures Values(Cmp(t, what, Value(v))) == [v] && Uses(Cmp(t, what, Value(v))) == {t}
  {
    assert Inline(Value(v)) && Erase(Value(v)) == Slot && Values(Value(v)) == [v] && Uses(Value(v)) == {};
    assert Inline(Alias(t)) && Erase(Alias(t)) == Alias(t) && Values(Alias(t)) == [] && Uses(Alias(t)) == {t};
    hide Inline, Erase, Values, Uses;
    LitLaws(what);
    CatLaws(Lit(what), Value(v));
    CatLaws(Alias(t), Cat(Lit(what), Value(v)));
    assert [] + ([] + [v]) == [v];
  }

  lemma WrapLaws(before: string, x: Text, after: string)
    requires Inline(x)
    ensures Inline(Wrap(before, x, after)) && Erase(Wrap(before, x, after)) == Wrap(before, Erase(x), after)
    ensures Values(Wrap(before, x, after)) == Values(x) && Uses(Wrap(before, x, after)) == Uses(x)
  {
    hide Inline, Erase, Values, Uses;
    LitLaws(before);
    LitLaws(after);
    CatLaws(x, Lit(after));
    CatLaws(Lit(before), Cat(x, Lit(after)));
    assert [] + (Values(x) + []) == Values(x);
  }

  lemma BothLaws(x: Text, join: string, y: Text)
    requires Inline(x) && Inline(y)
    ensures Inline(Both(x, join, y)) && Erase(Both(x, join, y)) == Both(Erase(x), join, Erase(y))
    ensures Values(Both(x, join, y)) == Values(x) + Values(y) && Uses(Both(x, join, y)) == Uses(x) + Uses(y)
  {
    hide Inline, Erase, Values, Uses;
    LitLaws(join);
    CatLaws(Lit(join), y);
    CatLaws(x, Cat(Lit(join), y));
    assert [] + Values(y) == Values(y);
  }

  // ---- Operators and terms ----

  function BinOp(op: Op): string {
    if op == NotAnOp then "" else if op == BinAnd then " AND " else " OR "
  }

  function Replaced(s: string, c: char, new': string): string {
    if s == "" then "" else (if s[0] == c then new' else [s[0]]) + Replaced(s[1..], c, new')
  }

  function EscapeArg(s: string): string {
    Replaced(Replaced(Replaced(Replaced(s, '%', "\\%"), '_', "\\_"), '*', "%"), '?', "_")
  }

  predicate Wild(s: string) {
    '*' in s || '?' in s
  }

  function MatchOp(term: QueryTerm): string {
    if Wild(term.term) then (if Negates(term.mod) then "NOT LIKE" else "LIKE")
    else (if Negates(term.mod) then "<>" else "=")
  }

  function MatchTerm(term: QueryTerm): string {
    if Wild(term.term) then EscapeArg(term.term) else term.term
  }

  function ValueIs(term: QueryTerm): string {
    ".value " + MatchOp(term) + " "
  }

  // ---- Clauses with their arguments in place ----

  function ByValue(t: int, term: QueryTerm, x: Text, y: Text): Text {
    Wrap("(", Both(Cmp(t, Path(), x), " AND ", Cmp(t, ValueIs(term), y)), ")")
  }

  function ByPath(t: int, x: Text): Text {
    Wrap("(", Cmp(t, Path(), x), ")")
  }

  /** Words, with a blank before each. */
  function Spaced(words: seq<string>): string {
    if words == [] then "" else " " + words[0] + Spaced(words[1..])
  }

  function ItemPath(): string {
    ".item_name" + (Spaced(["=", "found_items.item_name", "AND", "found_items.path"]) + " OPERATOR(goiardi.~) ")
  }

  function OrNone(): string {
    Spaced(["OR", "NOT", "EXISTS"]) + (" (SELECT" + (Spaced(["1", "FROM", "found_items", "WHERE"]) + " "))
  }

  function OrAbsent(x: Text, y: Text): Text {
    Both(Wrap("(", x, ")"), OrNone(), Wrap("", Cmp(ITEM, ItemPath(), y), ")"))
  }

  function Joined(op: Op, x: Text): Text {
    Wrap(BinOp(op) + "(", x, ")")
  }

  /** A field's value, or the value as the last step of the path; a negated one also holds of items without
      the field. */
  function BasicClause(key: string -> string, field: string, term: QueryTerm, t: int, op: Op): Text {
    if term.term == "*" || term.term == "" then Joined(op, Cmp(t, PlainPath(), Value(field)))
    else if field == "" then Joined(op, Cmp(t, ValueIs(term), Value(MatchTerm(term))))
    else
      var byValue := ByValue(t, term, Value(field), Value(MatchTerm(term)));
      var byPath := ByPath(t, Value(AltPath(key, field, term)));
      if Negates(term.mod) then Joined(op, OrAbsent(Both(byValue, " AND NOT ", byPath), Value(field)))
      else Joined(op, Both(byValue, " OR ", byPath))
  }

  function AltPath(key: string -> string, field: string, term: QueryTerm): string {
    key(field + "." + term.term)
  }

  /** Terms after the first are joined by AND when they are negated or required, and by OR otherwise. */
  function Joiner(i: int, mod: Op): string {
    if i == 0 then "" else if mod == UnaryPro || mod == UnaryReq || mod == UnaryNot then " AND " else " OR "
  }

  function ValueClause(terms: seq<QueryTerm>, t: int, i: nat, x: Text): Text
    requires i < |terms|
  {
    Cat(Lit(Joiner(i, terms[i].mod)), Cmp(t, ValueIs(terms[i]), x))
  }

  function PathClause(terms: seq<QueryTerm>, t: int, i: nat, x: Text): Text
    requires i < |terms|
  {
    Cat(Lit(Joiner(i, terms[i].mod)), Cmp(t + 1 + i, Path(), x))
  }

  function TermPath(key: string -> string, field: string, term: QueryTerm): string {
    field + "." + (if term.mod == UnaryNot then "!" else "") + key(term.term)
  }

  function ValueClauses(terms: seq<QueryTerm>, t: int): seq<Text> {
    seq(|terms|, i requires 0 <= i < |terms| => ValueClause(terms, t, i, Value(MatchTerm(terms[i]))))
  }

  function PathClauses(key: string -> string, field: string, terms: seq<QueryTerm>, t: int): seq<Text> {
    seq(|terms|, i requires 0 <= i < |terms| => PathClause(terms, t, i, Value(TermPath(key, field, terms[i]))))
  }

  function GroupedText(t: int, op: Op, x: Text, values: seq<Text>, paths: seq<Text>): Text {
    Wrap(BinOp(op) + "((", Both(Both(Cmp(t, Path(), x), " AND (", Join(values, " ")), ")) OR (", Join(paths, " ")),
      "))")
  }

  /** The field has one of the values, by one row; or the values end paths, each by a row of its own. */
  function GroupedClause(key: string -> string, field: string, terms: seq<QueryTerm>, t: int, op: Op): Text {
    GroupedText(t, op, Value(field), ValueClauses(terms, t), PathClauses(key, field, terms, t))
  }

  /** The bounds a range is compiled with: the smaller string first. */
  function Bounds(start: string, end: string): (string, string) {
    if Strings.Less(end, start) then (end, start) else (start, end)
  }

  predicate Unbounded(start: string, end: string) {
    start == "*" && end == "*"
  }

  function Limits(t: int, what: string, equals: string, low: string, high: string, x: Text, y: Text): seq<Text> {
    (if low != "*" then [Cmp(t, what + ">" + equals, x)] else []) +
    (if high != "*" then [Cmp(t, what + "<" + equals, y)] else [])
  }

  function LimitValues(low: string, high: string, a: string, b: string): seq<string> {
    (if low != "*" then [a] else []) + (if high != "*" then [b] else [])
  }

  function RangePath(key: string -> string, field: string, bound: string): string {
    field + "." + key(bound)
  }

  function Before(op: Op, negated: bool): string {
    BinOp(op) + (if negated then " NOT " else "") + "("
  }

  function Equals(inclusive: bool): string {
    if inclusive then "= " else " "
  }

  function PathEquals(inclusive: bool): string {
    if inclusive then "=) " else ") "
  }

  function Bounded(t: int, before: string, x: Text, values: seq<Text>, y: Text, paths: seq<Text>): Text {
    Wrap(before, Both(Both(Cmp(t, Path(), x), " AND (", Join(values, " AND ")), ") OR (",
      Both(Cmp(t, Path(), y), " AND ", Join(paths, " AND "))), "))")
  }

  /** The field has a value from low to high, or a path that ends between them; a star is no limit. */
  function Within(key: string -> string, field: string, low: string, high: string, inclusive: bool, t: int, op: Op,
      negated: bool): Text
  {
    if Unbounded(low, high) then Wrap(Before(op, negated), Cmp(t, Path(), Value(field)), ")")
    else
      Bounded(t, Before(op, negated),
        Value(field), Limits(t, ".value ", Equals(inclusive), low, high, Value(low), Value(high)),
        Value(field + ".*"), Limits(t, ".path OPERATOR(goiardi.", PathEquals(inclusive), low, high,
          Value(RangePath(key, field, low)), Value(RangePath(key, field, high))))
  }

  function RangeClause(key: string -> string, field: string, start: string, end: string, inclusive: bool, t: int,
      op: Op, negated: bool): Text
  {
    Within(key, field, Bounds(start, end).0, Bounds(start, end).1, inclusive, t, op, negated)
  }

  /** The arguments of a range: those of its clause, and the path of the subkeys once more when there are no bounds. */
  function RangeArgs(key: string -> string, field: string, start: string, end: string, inclusive: bool, t: int, op: Op,
      negated: bool): seq<string>
  {
    Values(RangeClause(key, field, start, end, inclusive, t, op, negated)) +
    (if Unbounded(start, end) then [field + ".*"] else [])
  }

  // ---- The builders ----

  method BuildBasicQuery(key: string -> string, field: string, term: QueryTerm, t: int, op: Op)
    returns (args: seq<string>, xtraPath: string, q: Text)
    ensures q == Erase(BasicClause(key, field, term, t, op)) && args == Values(BasicClause(key, field, term, t, op))
    ensures xtraPath == if IsPath(field, term) then AltPath(key, field, term) else ""
  {
    BasicLaws(key, field, term, t, op);
    hide BasicClause, Values, Erase, Inline, Uses, ByValue, ByPath, Joined, OrAbsent, Cmp, Both;
    xtraPath := "";
    args := [field];
    if term.term == "*" || term.term == "" {
      q := Joined(op, Cmp(t, PlainPath(), Slot));
    } else if field == "" {
      q := Joined(op, Cmp(t, ValueIs(term), Slot));
      args := [MatchTerm(term)];
    } else {
      var byValue, byPath := ByValue(t, term, Slot, Slot), ByPath(t, Slot);
      args := args + [MatchTerm(term)];
      args := args + [AltPath(key, field, term)];
      if Negates(term.mod) {
        q := Joined(op, OrAbsent(Both(byValue, " AND NOT ", byPath), Slot));
        args := args + [field];
      } else {
        q := Joined(op, Both(byValue, " OR ", byPath));
      }
      xtraPath := AltPath(key, field, term);
    }
  }

  predicate IsPath(field: string, term: QueryTerm) {
    field != "" && term.term != "*" && term.term != ""
  }

  predicate NeedsItem(q: Query) {
    q.Basic? && IsPath(q.field, q.term) && Negates(q.term.mod)
  }

  lemma JoinedLaws(op: Op, x: Text)
    requires Inline(x)
    ensures Inline(Joined(op, x)) && Erase(Joined(op, x)) == Joined(op, Erase(x))
    ensures Values(Joined(op, x)) == Values(x) && Uses(Joined(op, x)) == Uses(x)
  {
    WrapLaws(BinOp(op) + "(", x, ")");
  }

  lemma ByValueLaws(t: int, term: QueryTerm, a: string, b: string)
    ensures var x := ByValue(t, term, Value(a), Value(b));
      Inline(x) && Erase(x) == ByValue(t, term, Slot, Slot) && Values(x) == [a, b] && Uses(x) == {t}
  {
    hide Inline, Erase, Values, Uses, Cmp, Wrap, Both, Path, ValueIs;
    var path, value := Cmp(t, Path(), Value(a)), Cmp(t, ValueIs(term), Value(b));
    CmpLaws(t, Path(), a);
    CmpLaws(t, ValueIs(term), b);
    BothLaws(path, " AND ", value);
    WrapLaws("(", Both(path, " AND ", value), ")");
  }

  lemma ByPathLaws(t: int, a: string)
    ensures var x := ByPath(t, Value(a)); Inline(x) && Erase(x) == ByPath(t, Slot) && Values(x) == [a] && Uses(x) == {t}
  {
    hide Inline, Erase, Values, Uses, Cmp, Wrap, Path;
    CmpLaws(t, Path(), a);
    WrapLaws("(", Cmp(t, Path(), Value(a)), ")");
  }

  lemma OrAbsentLaws(x: Text, a: string)
    requires Inline(x)
    ensures var y := OrAbsent(x, Value(a));
      Inline(y) && Erase(y) == OrAbsent(Erase(x), Slot) && Values(y) == Values(x) + [a] && Uses(y) == Uses(x) + {ITEM}
  {
    hide Inline, Erase, Values, Uses, Cmp, Wrap, Both, ItemPath, OrNone;
    var absent := Cmp(ITEM, ItemPath(), Value(a));
    CmpLaws(ITEM, ItemPath(), a);
    WrapLaws("", absent, ")");
    WrapLaws("(", x, ")");
    BothLaws(Wrap("(", x, ")"), OrNone(), Wrap("", absent, ")"));
  }

  /** The text and the arguments of a clause of a field and a value. */
  lemma PathAndValueLaws(key: string -> string, field: string, term: QueryTerm, t: int, join: string)
    ensures var x := Both(ByValue(t, term, Value(field), Value(MatchTerm(term))), join,
      ByPath(t, Value(AltPath(key, field, term))));
      Inline(x) && Erase(x) == Both(ByValue(t, term, Slot, Slot), join, ByPath(t, Slot)) &&
      Values(x) == [field, MatchTerm(term), AltPath(key, field, term)] && Uses(x) == {t}
  {
    hide Inline, Erase, Values, Uses, ByValue, ByPath, Both;
    ByValueLaws(t, term, field, MatchTerm(term));
    ByPathLaws(t, AltPath(key, field, term));
    BothLaws(ByValue(t, term, Value(field), Value(MatchTerm(term))), join, ByPath(t, Value(AltPath(key, field, term))));
  }

  function BasicSlots(field: string, term: QueryTerm, t: int, op: Op): Text {
    if term.term == "*" || term.term == "" then Joined(op, Cmp(t, PlainPath(), Slot))
    else if field == "" then Joined(op, Cmp(t, ValueIs(term), Slot))
    else if Negates(term.mod) then
      Joined(op, OrAbsent(Both(ByValue(t, term, Slot, Slot), " AND NOT ", ByPath(t, Slot)), Slot))
    else Joined(op, Both(ByValue(t, term, Slot, Slot), " OR ", ByPath(t, Slot)))
  }

  function BasicValues(key: string -> string, field: string, term: QueryTerm): seq<string> {
    if term.term == "*" || term.term == "" then [field]
    else if field == "" then [MatchTerm(term)]
    else [field, MatchTerm(term), AltPath(key, field, term)] + (if Negates(term.mod) then [field] else [])
  }

  lemma BasicLaws(key: string -> string, field: string, term: QueryTerm, t: int, op: Op)
    ensures var x := BasicClause(key, field, term, t, op);
      Inline(x) && Erase(x) == BasicSlots(field, term, t, op) && Values(x) == BasicValues(key, field, term) &&
      Uses(x) == {t} + (if NeedsItem(Basic(field, term)) then {ITEM} else {})
  {
    hide Inline, Erase, Values, Uses, Cmp, Both, ByValue, ByPath, Joined, OrAbsent, MatchTerm, AltPath, ValueIs, Path;
    if term.term == "*" || term.term == "" {
      CmpLaws(t, PlainPath(), field);
      JoinedLaws(op, Cmp(t, PlainPath(), Value(field)));
    } else if field == "" {
      CmpLaws(t, ValueIs(term), MatchTerm(term));
      JoinedLaws(op, Cmp(t, ValueIs(term), Value(MatchTerm(term))));
    } else {
      var join := if Negates(term.mod) then " AND NOT " else " OR ";
      PathAndValueLaws(key, field, term, t, join);
      var x := Both(ByValue(t, term, Value(field), Value(MatchTerm(term))), join,
        ByPath(t, Value(AltPath(key, field, term))));
      if Negates(term.mod) {
        OrAbsentLaws(x, field);
        JoinedLaws(op, OrAbsent(x, Value(field)));
      } else {
        JoinedLaws(op, x);
      }
    }
  }

  // A group of terms

  ghost function TermValues(terms: seq<QueryTerm>): seq<string> {
    seq(|terms|, i requires 0 <= i < |terms| => MatchTerm(terms[i]))
  }

  ghost function TermPaths(key: string -> string, field: string, terms: seq<QueryTerm>): seq<string> {
    seq(|terms|, i requires 0 <= i < |terms| => TermPath(key, field, terms[i]))
  }

  ghost function ValueSlots(terms: seq<QueryTerm>, t: int): seq<Text> {
    seq(|terms|, i requires 0 <= i < |terms| => ValueClause(terms, t, i, Slot))
  }

  ghost function PathSlots(terms: seq<QueryTerm>, t: int): seq<Text> {
    seq(|terms|, i requires 0 <= i < |terms| => PathClause(terms, t, i, Slot))
  }

  lemma LinkedLaws(join: string, t: int, what: string, v: string)
    ensures var x := Cat(Lit(join), Cmp(t, what, Value(v)));
      Inline(x) && Erase(x) == Cat(Lit(join), Cmp(t, what, Slot)) && Values(x) == [v] && Uses(x) == {t}
  {
    hide Inline, Erase, Values, Uses, Cmp;
    LitLaws(join);
    CmpLaws(t, what, v);
    CatLaws(Lit(join), Cmp(t, what, Value(v)));
    assert [] + [v] == [v];
  }

  lemma ValueClausesLaws(terms: seq<QueryTerm>, t: int)
    ensures var xs := ValueClauses(terms, t);
      InlineAll(xs) && EraseAll(xs) == ValueSlots(terms, t) && ValuesAll(xs) == TermValues(terms) &&
      forall i :: 0 <= i < |xs| ==> Uses(xs[i]) == {t}
  {
    hide Inline, Erase, Values, Uses, Cmp, ValuesAll, MatchTerm, ValueIs;
    var xs := ValueClauses(terms, t);
    forall i | 0 <= i < |terms|
      ensures Inline(xs[i]) && Erase(xs[i]) == ValueClause(terms, t, i, Slot) && Values(xs[i]) == [TermValues(terms)[i]]
      ensures Uses(xs[i]) == {t}
    {
      LinkedLaws(Joiner(i, terms[i].mod), t, ValueIs(terms[i]), MatchTerm(terms[i]));
    }
    OneEach(xs, TermValues(terms));
  }

  lemma PathClausesLaws(key: string -> string, field: string, terms: seq<QueryTerm>, t: int)
    ensures var xs := PathClauses(key, field, terms, t);
      InlineAll(xs) && EraseAll(xs) == PathSlots(terms, t) && ValuesAll(xs) == TermPaths(key, field, terms) &&
      forall i :: 0 <= i < |xs| ==> Uses(xs[i]) == {t + 1 + i}
  {
    hide Inline, Erase, Values, Uses, Cmp, ValuesAll, TermPath, Path;
    var xs := PathClauses(key, field, terms, t);
    forall i | 0 <= i < |terms|
      ensures Inline(xs[i]) && Erase(xs[i]) == PathClause(terms, t, i, Slot) &&
        Values(xs[i]) == [TermPaths(key, field, terms)[i]]
      ensures Uses(xs[i]) == {t + 1 + i}
    {
      LinkedLaws(Joiner(i, terms[i].mod), t + 1 + i, Path(), TermPath(key, field, terms[i]));
    }
    OneEach(xs, TermPaths(key, field, terms));
  }

  lemma GroupedTextLaws(t: int, op: Op, a: string, values: seq<Text>, paths: seq<Text>)
    requires InlineAll(values) && InlineAll(paths)
    ensures var x := GroupedText(t, op, Value(a), values, paths);
      Inline(x) && Erase(x) == GroupedText(t, op, Slot, EraseAll(values), EraseAll(paths)) &&
      Values(x) == [a] + ValuesAll(values) + ValuesAll(paths) && Uses(x) == {t} + UsesAll(values) + UsesAll(paths)
  {
    hide Inline, Erase, Values, Uses, UsesAll, Cmp, Wrap, Both, Join, ValuesAll, EraseAll, InlineAll, Path, BinOp;
    JoinLaws(values, " ");
    JoinLaws(paths, " ");
    JoinUses(values, " ");
    JoinUses(paths, " ");
    CmpLaws(t, Path(), a);
    var byValue := Both(Cmp(t, Path(), Value(a)), " AND (", Join(values, " "));
    BothLaws(Cmp(t, Path(), Value(a)), " AND (", Join(values, " "));
    BothLaws(byValue, ")) OR (", Join(paths, " "));
    WrapLaws(BinOp(op) + "((", Both(byValue, ")) OR (", Join(paths, " ")), "))");
  }

  lemma GroupedLaws(key: string -> string, field: string, terms: seq<QueryTerm>, t: int, op: Op)
    ensures var x := GroupedClause(key, field, terms, t, op);
      Inline(x) && Erase(x) == GroupedText(t, op, Slot, ValueSlots(terms, t), PathSlots(terms, t)) &&
      Values(x) == [field] + TermValues(terms) + TermPaths(key, field, terms) &&
      forall a :: a in Uses(x) ==> t <= a < t + 1 + |terms|
  {
    hide Inline, Erase, Values, Uses, ValuesAll, EraseAll, GroupedText, ValueClause, PathClause, TermPath;
    var values, paths := ValueClauses(terms, t), PathClauses(key, field, terms, t);
    ValueClausesLaws(terms, t);
    PathClausesLaws(key, field, terms, t);
    GroupedTextLaws(t, op, field, values, paths);
  }

  /** One pass collects the value clauses, the path clauses and both kinds of argument. */
  method BuildGroupedQuery(key: string -> string, field: string, terms: seq<QueryTerm>, t: int, op: Op)
    returns (args: seq<string>, xtraPath: string, q: Text, t': int)
    ensures q == Erase(GroupedClause(key, field, terms, t, op)) &&
      args == Values(GroupedClause(key, field, terms, t, op))
    ensures xtraPath == field + ".*" && t' == t + |terms|
  {
    GroupedLaws(key, field, terms, t, op);
    hide GroupedClause, Inline, Erase, Values, Uses, MatchTerm, GroupedText;
    args, xtraPath := [field], field + ".*";
    var groupedArgs, grouped, groupedPaths := [], [], [];
    var ltNum := t;
    for i := 0 to |terms|
      invariant ltNum == t + i
      invariant args == [field] + TermValues(terms)[..i] && groupedArgs == TermPaths(key, field, terms)[..i]
      invariant grouped == ValueSlots(terms, t)[..i] && groupedPaths == PathSlots(terms, t)[..i]
    {
      grouped := grouped + [Cat(Lit(Joiner(i, terms[i].mod)), Cmp(t, ValueIs(terms[i]), Slot))];
      groupedArgs := groupedArgs + [TermPath(key, field, terms[i])];
      ltNum := ltNum + 1;
      groupedPaths := groupedPaths + [Cat(Lit(Joiner(i, terms[i].mod)), Cmp(ltNum, Path(), Slot))];
      args := args + [MatchTerm(terms[i])];
    }
    assert grouped == ValueSlots(terms, t) && groupedPaths == PathSlots(terms, t);
    assert groupedArgs == TermPaths(key, field, terms) && args == [field] + TermValues(terms);
    q := GroupedText(t, op, Slot, grouped, groupedPaths);
    t' := ltNum;
    args := args + groupedArgs;
  }

  // A range

  lemma LimitsLaws(t: int, what: string, equals: string, low: string, high: string, a: string, b: string)
    ensures var xs := Limits(t, what, equals, low, high, Value(a), Value(b));
      InlineAll(xs) && EraseAll(xs) == Limits(t, what, equals, low, high, Slot, Slot) &&
      ValuesAll(xs) == LimitValues(low, high, a, b) && forall i :: 0 <= i < |xs| ==> Uses(xs[i]) == {t}
  {
    hide Inline, Erase, Values, Uses, Cmp, ValuesAll;
    CmpLaws(t, what + ">" + equals, a);
    CmpLaws(t, what + "<" + equals, b);
    OneEach(Limits(t, what, equals, low, high, Value(a), Value(b)), LimitValues(low, high, a, b));
  }

  lemma BoundedLaws(t: int, before: string, a: string, values: seq<Text>, b: string, paths: seq<Text>)
    requires InlineAll(values) && InlineAll(paths)
    requires (forall i :: 0 <= i < |values| ==> Uses(values[i]) == {t}) &&
      (forall i :: 0 <= i < |paths| ==> Uses(paths[i]) == {t})
    ensures var x := Bounded(t, before, Value(a), values, Value(b), paths);
      Inline(x) && Erase(x) == Bounded(t, before, Slot, EraseAll(values), Slot, EraseAll(paths)) &&
      Values(x) == [a] + ValuesAll(values) + ([b] + ValuesAll(paths)) && Uses(x) == {t}
  {
    hide Inline, Erase, Values, Uses, Cmp, Wrap, Both, Join, ValuesAll, EraseAll, Path;
    JoinLaws(values, " AND ");
    JoinLaws(paths, " AND ");
    JoinUses(values, " AND ");
    JoinUses(paths, " AND ");
    CmpLaws(t, Path(), a);
    CmpLaws(t, Path(), b);
    var x := Both(Cmp(t, Path(), Value(a)), " AND (", Join(values, " AND "));
    var y := Both(Cmp(t, Path(), Value(b)), " AND ", Join(paths, " AND "));
    BothLaws(Cmp(t, Path(), Value(a)), " AND (", Join(values, " AND "));
    BothLaws(Cmp(t, Path(), Value(b)), " AND ", Join(paths, " AND "));
    BothLaws(x, ") OR (", y);
    WrapLaws(before, Both(x, ") OR (", y), "))");
  }

  function RangeSlots(low: string, high: string, inclusive: bool, t: int, op: Op, negated: bool): Text {
    if Unbounded(low, high) then Wrap(Before(op, negated), Cmp(t, Path(), Slot), ")")
    else
      Bounded(t, Before(op, negated),
        Slot, Limits(t, ".value ", Equals(inclusive), low, high, Slot, Slot),
        Slot, Limits(t, ".path OPERATOR(goiardi.", PathEquals(inclusive), low, high, Slot, Slot))
  }

  function RangeValues(key: string -> string, field: string, low: string, high: string): seq<string> {
    if Unbounded(low, high) then [field]
    else
      [field] + LimitValues(low, high, low, high) +
      ([field + ".*"] + LimitValues(low, high, RangePath(key, field, low), RangePath(key, field, high)))
  }

  lemma WithinLaws(key: string -> string, field: string, low: string, high: string, inclusive: bool, t: int, op: Op,
      negated: bool)
    ensures var x := Within(key, field, low, high, inclusive, t, op, negated);
      Inline(x) && Erase(x) == RangeSlots(low, high, inclusive, t, op, negated) &&
      Values(x) == RangeValues(key, field, low, high) && Uses(x) == {t}
  {
    hide Inline, Erase, Values, Uses, Cmp, Wrap, Bounded, Limits, LimitValues, ValuesAll, EraseAll, InlineAll, Path;
    if Unbounded(low, high) {
      CmpLaws(t, Path(), field);
      WrapLaws(Before(op, negated), Cmp(t, Path(), Value(field)), ")");
    } else {
      var a, b := RangePath(key, field, low), RangePath(key, field, high);
      LimitsLaws(t, ".value ", Equals(inclusive), low, high, low, high);
      LimitsLaws(t, ".path OPERATOR(goiardi.", PathEquals(inclusive), low, high, a, b);
      BoundedLaws(t, Before(op, negated), field,
        Limits(t, ".value ", Equals(inclusive), low, high, Value(low), Value(high)),
        field + ".*", Limits(t, ".path OPERATOR(goiardi.", PathEquals(inclusive), low, high, Value(a), Value(b)));
    }
  }

  lemma RangeLaws(key: string -> string, field: string, start: string, end: string, inclusive: bool, t: int, op: Op,
      negated: bool)
    ensures var x := RangeClause(key, field, start, end, inclusive, t, op, negated);
      var (low, high) := Bounds(start, end);
      Inline(x) && Erase(x) == RangeSlots(low, high, inclusive, t, op, negated) &&
      Values(x) == RangeValues(key, field, low, high) && Uses(x) == {t}
  {
    hide Within, Inline, Erase, Values, Uses, RangeSlots, RangeValues, Bounds;
    WithinLaws(key, field, Bounds(start, end).0, Bounds(start, end).1, inclusive, t, op, negated);
  }

  /** A range always brings the path of its field's subkeys as an argument, but has a place for it only when bounded. */
  method BuildRangeQuery(key: string -> string, field: string, start: string, end: string, inclusive: bool, t: int,
      op: Op, negated: bool) returns (args: seq<string>, xtraPath: string, q: Text)
    ensures q == Erase(RangeClause(key, field, start, end, inclusive, t, op, negated))
    ensures args == RangeArgs(key, field, start, end, inclusive, t, op, negated)
    ensures xtraPath == field + ".*"
  {
    RangeLaws(key, field, start, end, inclusive, t, op, negated);
    hide RangeClause, Inline, Erase, Values, Uses, Cmp, Wrap, Bounded;
    var low, high := start, end;
    if Strings.Less(end, start) {
      low, high := end, start;
    }
    assert (low, high) == Bounds(start, end) && Unbounded(low, high) == Unbounded(start, end);
    hide Bounds, Before, Equals, PathEquals, RangePath;
    xtraPath := field + ".*";
    var ranges, rangePaths, rangeArgs := [], [], [];
    args := [];
    if low != "*" {
      ranges := [Cmp(t, ".value " + ">" + Equals(inclusive), Slot)];
      args := [low];
      rangePaths := [Cmp(t, ".path OPERATOR(goiardi." + ">" + PathEquals(inclusive), Slot)];
      rangeArgs := [RangePath(key, field, low)];
    }
    if high != "*" {
      ranges := ranges + [Cmp(t, ".value " + "<" + Equals(inclusive), Slot)];
      args := args + [high];
      rangePaths := rangePaths + [Cmp(t, ".path OPERATOR(goiardi." + "<" + PathEquals(inclusive), Slot)];
      rangeArgs := rangeArgs + [RangePath(key, field, high)];
    }
    assert ranges == Limits(t, ".value ", Equals(inclusive), low, high, Slot, Slot);
    assert rangePaths == Limits(t, ".path OPERATOR(goiardi.", PathEquals(inclusive), low, high, Slot, Slot);
    assert args == LimitValues(low, high, low, high);
    assert rangeArgs == LimitValues(low, high, RangePath(key, field, low), RangePath(key, field, high));
    assert (|ranges| == 0) == Unbounded(low, high);
    hide Limits, LimitValues;
    assert Unbounded(low, high) ==> args == [] && rangeArgs == [];
    args := [field] + args + ([xtraPath] + rangeArgs);
    q := if |ranges| != 0 then Bounded(t, Before(op, negated), Slot, ranges, Slot, rangePaths)
         else Wrap(Before(op, negated), Cmp(t, Path(), Slot), ")");
  }

  // ---- What the bounds become ----

  lemma SameBounds(a: string, b: string)
    ensures Bounds(a, b) == Bounds(b, a)
  {
    Strings.LessTotal(a, b);
    if Strings.Less(a, b) {
      Strings.NotBoth(a, b);
    } else if Strings.Less(b, a) {
      Strings.NotBoth(b, a);
    }
  }

  /** The order the bounds are written in is always lost: both orders give the same text and the same arguments. */
  lemma WrittenOrderIsLost(key: string -> string, field: string, start: string, end: string, inclusive: bool, t: int,
      op: Op, negated: bool)
    ensures RangeClause(key, field, start, end, inclusive, t, op, negated) ==
      RangeClause(key, field, end, start, inclusive, t, op, negated)
    ensures RangeArgs(key, field, start, end, inclusive, t, op, negated) ==
      RangeArgs(key, field, end, start, inclusive, t, op, negated)
  {
    hide Within, Bounds, Values;
    SameBounds(start, end);
  }

  lemma LimitWordsDiffer(what: string, equals: string)
    ensures what + "<" + equals != what + ">" + equals
  {
    assert (what + "<" + equals)[|what|] == '<' && (what + ">" + equals)[|what|] == '>';
  }

  lemma TextsDiffer(x: string, inclusive: bool, t: int, op: Op, negated: bool)
    requires x != "*"
    ensures RangeSlots("*", x, inclusive, t, op, negated) != RangeSlots(x, "*", inclusive, t, op, negated)
  {
    hide Before, PathEquals, Path, Equals;
    LimitWordsDiffer(".value ", Equals(inclusive));
    var up, down := Cmp(t, ".value " + "<" + Equals(inclusive), Slot),
      Cmp(t, ".value " + ">" + Equals(inclusive), Slot);
    assert Limits(t, ".value ", Equals(inclusive), "*", x, Slot, Slot) == [up];
    assert Limits(t, ".value ", Equals(inclusive), x, "*", Slot, Slot) == [down];
    assert Join([up], " AND ") == up && Join([down], " AND ") == down;
    hide Limits, Join;
  }

  /** Different limits the other way round are another clause. */
  lemma LimitsMatter(key: string -> string, field: string, low: string, high: string, inclusive: bool, t: int, op: Op,
      negated: bool)
    requires low != high
    ensures Within(key, field, low, high, inclusive, t, op, negated) !=
      Within(key, field, high, low, inclusive, t, op, negated)
  {
    hide Within, Inline, Erase, Values, Uses, RangeSlots, RangePath;
    WithinLaws(key, field, low, high, inclusive, t, op, negated);
    WithinLaws(key, field, high, low, inclusive, t, op, negated);
    if low == "*" {
      TextsDiffer(high, inclusive, t, op, negated);
    } else if high == "*" {
      TextsDiffer(low, inclusive, t, op, negated);
    } else {
      assert RangeValues(key, field, low, high)[1] == low && RangeValues(key, field, high, low)[1] == high;
    }
  }

  /** A range is compiled with its written start as the lower limit and its written end as the upper one exactly when
      the start does not come after the end as a string. */
  lemma CompiledAsWrittenExactly(key: string -> string, field: string, start: string, end: string, inclusive: bool,
      t: int, op: Op, negated: bool)
    ensures (RangeClause(key, field, start, end, inclusive, t, op, negated) ==
             Within(key, field, start, end, inclusive, t, op, negated)) <==> !Strings.Less(end, start)
  {
    hide Within;
    if Strings.Less(end, start) {
      Strings.LessIrreflexive(start);
      LimitsMatter(key, field, start, end, inclusive, t, op, negated);
    }
  }

  /** So [x TO *] has the text and the arguments of [* TO x], and asks for values up to x, not from x on, exactly when x
      comes after a star. */
  lemma FromBecomesUpTo(key: string -> string, field: string, x: string, inclusive: bool, t: int, op: Op, negated: bool)
    ensures Erase(RangeClause(key, field, x, "*", inclusive, t, op, negated)) ==
      Erase(RangeClause(key, field, "*", x, inclusive, t, op, negated))
    ensures RangeArgs(key, field, x, "*", inclusive, t, op, negated) ==
      RangeArgs(key, field, "*", x, inclusive, t, op, negated)
    ensures x != "*" ==>
      (RangeClause(key, field, x, "*", inclusive, t, op, negated) ==
        Within(key, field, "*", x, inclusive, t, op, negated) <==>
       Strings.Less("*", x))
  {
    hide RangeClause, RangeArgs, Within;
    WrittenOrderIsLost(key, field, x, "*", inclusive, t, op, negated);
    if x != "*" {
      CompiledAsWrittenExactly(key, field, "*", x, inclusive, t, op, negated);
      Strings.LessTotal(x, "*");
      if Strings.Less("*", x) {
        Strings.NotBoth("*", x);
      }
    }
  }
}
