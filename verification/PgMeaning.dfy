/** What a query asks of the rows of a database: its own operators over what each of its terms asks
    (search/postgres_search.go). */
module PgMeaning {
  import opened SearchChain
  import opened SearchEval
  import opened SqlReading
  import Strings

  // ---- What a query asks of the rows ----

  /** Wildcards become those of LIKE, and what LIKE takes for one is escaped. */
  function Pattern(s: string): string {
    if s == "" then ""
    else
      (match s[0]
       case '%' => "\\%"
       case '_' => "\\_"
       case '*' => "%"
       case '?' => "_"
       case c => [c]) + Pattern(s[1..])
  }

  /** A value is like a term with wildcards, or is the term; a negated term wants it otherwise. */
  function ValueFits(db: Db, value: string, term: QueryTerm): bool {
    var wild := '*' in term.term || '?' in term.term;
    (if wild then db.like(value, Pattern(term.term)) else value == term.term) !=
      (term.mod == UnaryNot || term.mod == UnaryPro)
  }

  /** The field has the value, or the value ends the field's path; negated: the field has another value and no such
      path, or the item does not have the field. */
  function BasicMeans(db: Db, key: string -> string, field: string, term: QueryTerm, t: int): bool {
    var row := db.rows(t);
    if term.term == "*" || term.term == "" then db.plain(row.path, field)
    else if field == "" then ValueFits(db, row.value, term)
    else
      var here := db.fits(row.path, field) && ValueFits(db, row.value, term);
      var below := db.fits(row.path, key(field + "." + term.term));
      if term.mod == UnaryNot || term.mod == UnaryPro then (here && !below) || !db.some(field) else here || below
  }

  /** The terms from i on: required and negated ones belong to the run of the term before them. */
  function TermsMean(terms: seq<QueryTerm>, asked: seq<bool>, i: nat, run: bool): bool
    requires |asked| == |terms|
    decreases |terms| - i
  {
    if i >= |terms| then run
    else if i == 0 || terms[i].mod == UnaryReq || terms[i].mod == UnaryNot || terms[i].mod == UnaryPro then
      TermsMean(terms, asked, i + 1, run && asked[i])
    else run || TermsMean(terms, asked, i + 1, asked[i])
  }

  /** The value ends the field's path; a negated one must not. */
  function PathFits(db: Db, key: string -> string, field: string, term: QueryTerm, t: int): bool {
    db.fits(db.rows(t).path, field + "." + (if term.mod == UnaryNot then "!" else "") + key(term.term))
  }

  /** The field has the values, by one row; or the values end its paths, each by a row of its own. */
  function GroupedMeans(db: Db, key: string -> string, field: string, terms: seq<QueryTerm>, t: int): bool {
    var row := db.rows(t);
    var values := seq(|terms|, i requires 0 <= i < |terms| => ValueFits(db, row.value, terms[i]));
    var paths := seq(|terms|, i requires 0 <= i < |terms| => PathFits(db, key, field, terms[i], t + 1 + i));
    (db.fits(row.path, field) && TermsMean(terms, values, 0, true)) || TermsMean(terms, paths, 0, true)
  }

  /** A star is no limit; an inclusive limit is itself within. */
  predicate Inside(inclusive: bool, bound: string, sign: int) {
    bound == "*" || sign > 0 || (inclusive && sign == 0)
  }

  predicate ValueBetween(db: Db, value: string, low: string, high: string, inclusive: bool) {
    Inside(inclusive, low, db.order(value, low)) && Inside(inclusive, high, -db.order(value, high))
  }

  predicate PathBetween(db: Db, key: string -> string, field: string, path: string, low: string, high: string,
      inclusive: bool)
  {
    Inside(inclusive, low, db.pathOrder(path, field + "." + key(low))) &&
    Inside(inclusive, high, -db.pathOrder(path, field + "." + key(high)))
  }

  /** The field has a value between the limits, or a path under it does; without limits, it is there. */
  predicate BoundsMean(db: Db, key: string -> string, field: string, low: string, high: string, inclusive: bool,
      row: Row)
  {
    if low == "*" && high == "*" then db.fits(row.path, field)
    else
      (db.fits(row.path, field) && ValueBetween(db, row.value, low, high, inclusive)) ||
      (db.fits(row.path, field + ".*") && PathBetween(db, key, field, row.path, low, high, inclusive))
  }

  function RangeMeans(db: Db, key: string -> string, field: string, start: string, end: string, inclusive: bool,
      negated: bool, t: int): bool
  {
    var turned := Strings.Less(end, start);
    var low, high := if turned then end else start, if turned then start else end;
    BoundsMean(db, key, field, low, high, inclusive, db.rows(t)) != negated
  }

  function LeafMeans(db: Db, key: string -> string, q: Query, t: int): bool {
    match q
    case Basic(field, term) => BasicMeans(db, key, field, term, t)
    case Grouped(field, terms) => GroupedMeans(db, key, field, terms, t)
    case Range(field, start, end, inclusive, negated) => RangeMeans(db, key, field, start, end, inclusive, negated, t)
    case _ => false
  }

  /** How many rows an operand speaks of: one, and one more for each term of a group of terms. */
  function RowsOf(o: Operand): nat {
    match o
    case Leaf(Basic(_, _), _) => 1
    case Leaf(Grouped(_, terms), _) => |terms| + 1
    case Leaf(Range(_, _, _, _, _), _) => 1
    case Leaf(_, _) => 0
    case Group(c) => RowsIn(c)
  }

  function RowsIn(c: Chain): nat {
    match c
    case End(o) => RowsOf(o)
    case More(o, _, rest) => RowsOf(o) + RowsIn(rest)
  }

  function OperandMeans(db: Db, key: string -> string, o: Operand, t: int): bool {
    match o
    case Leaf(q, _) => LeafMeans(db, key, q, t)
    case Group(c) => ChainMeans(db, key, c, t, true)
  }

  /** AND binds stronger than OR: some run of operands joined by AND holds from end to end.  `run` says whether the
      present one does so far. */
  function ChainMeans(db: Db, key: string -> string, c: Chain, t: int, run: bool): bool {
    match c
    case End(o) => run && OperandMeans(db, key, o, t)
    case More(o, op, rest) =>
      var run' := run && OperandMeans(db, key, o, t);
      if op == BinAnd then ChainMeans(db, key, rest, t + RowsOf(o), run')
      else run' || ChainMeans(db, key, rest, t + RowsOf(o), true)
  }

  /** Operands are joined by operators, and groups of terms have terms. */
  predicate ReadableOperand(o: Operand) {
    match o
    case Leaf(q, _) => q.Grouped? ==> q.terms != []
    case Group(c) => Readable(c)
  }

  predicate Readable(c: Chain) {
    match c
    case End(o) => ReadableOperand(o)
    case More(o, op, rest) => ReadableOperand(o) && op != NotAnOp && Readable(rest)
  }
}
