/** What a condition in SQL text means: its words are read one after the other, NOT binding stronger than AND and
    AND stronger than OR. */
module SqlReading {
  import opened Wrappers
  import opened Sql

  // ---- Words ----

  datatype Lexeme = Word(w: string) | Open | Close | Table(k: int) | Arg(s: string)

  predicate Separates(c: char) {
    c == ' ' || c == '(' || c == ')'
  }

  predicate IsWord(w: string) {
    forall i :: 0 <= i < |w| ==> !Separates(w[i])
  }

  /** The longest word a text starts with. */
  function FirstWord(s: string): (w: string)
    ensures |w| <= |s| && w == s[..|w|] && IsWord(w)
    ensures s != "" && !Separates(s[0]) ==> w != ""
  {
    if s == "" || Separates(s[0]) then "" else [s[0]] + FirstWord(s[1..])
  }

  /** Words end at blanks and parentheses. */
  function Lex(s: string): seq<Lexeme>
    decreases |s|
  {
    if s == "" then []
    else if s[0] == ' ' then Lex(s[1..])
    else if s[0] == '(' then [Open] + Lex(s[1..])
    else if s[0] == ')' then [Close] + Lex(s[1..])
    else [Word(FirstWord(s))] + Lex(s[|FirstWord(s)|..])
  }

  function Tokens(x: Text): seq<Lexeme> {
    match x
    case Lit(s) => Lex(s)
    case Alias(k) => [Table(k)]
    case Value(s) => [Arg(s)]
    case Cat(a, b) => Tokens(a) + Tokens(b)
    case _ => [Word("?")]
  }

  lemma LexBlank(s: string)
    ensures Lex(" " + s) == Lex(s)
  {
    assert (" " + s)[1..] == s;
  }

  lemma LexOpen(s: string)
    ensures Lex("(" + s) == [Open] + Lex(s)
  {
    assert ("(" + s)[1..] == s;
  }

  lemma LexClose(s: string)
    ensures Lex(")" + s) == [Close] + Lex(s)
  {
    assert (")" + s)[1..] == s;
  }

  lemma {:induction false} FirstWordIs(w: string, s: string)
    requires IsWord(w) && (s == "" || Separates(s[0]))
    ensures FirstWord(w + s) == w
  {
    if w == "" {
      assert w + s == s;
    } else {
      FirstWordIs(w[1..], s);
      assert (w + s)[1..] == w[1..] + s;
    }
  }

  lemma LexWord(w: string, s: string)
    requires IsWord(w) && w != "" && (s == "" || Separates(s[0]))
    ensures Lex(w + s) == [Word(w)] + Lex(s)
  {
    FirstWordIs(w, s);
    assert (w + s)[|w|..] == s && !Separates((w + s)[0]);
  }

  // ---- Rows ----

  datatype Row = Row(path: string, value: string)

  /** What the words of a comparison mean: the row of each table, the operators on paths, the order of values and of
      paths, patterns, and whether the item has some row with a path. */
  datatype Db = Db(
    rows: int -> Row,
    fits: (string, string) -> bool, plain: (string, string) -> bool, like: (string, string) -> bool,
    order: (string, string) -> int, pathOrder: (string, string) -> int,
    some: string -> bool)

  function OfValue(words: seq<Lexeme>, db: Db, value: string, arg: string): Option<bool> {
    if words == [Word("=")] then Some(value == arg)
    else if words == [Word("<>")] then Some(value != arg)
    else if words == [Word("LIKE")] then Some(db.like(value, arg))
    else if words == [Word("NOT"), Word("LIKE")] then Some(!db.like(value, arg))
    else if words == [Word(">")] then Some(db.order(value, arg) > 0)
    else if words == [Word(">=")] then Some(db.order(value, arg) >= 0)
    else if words == [Word("<")] then Some(db.order(value, arg) < 0)
    else if words == [Word("<=")] then Some(db.order(value, arg) <= 0)
    else None
  }

  function Operator(name: string): seq<Lexeme> {
    [Word("OPERATOR"), Open, Word("goiardi." + name), Close]
  }

  function OfPath(words: seq<Lexeme>, db: Db, path: string, arg: string): Option<bool> {
    if words == [Word("~")] then Some(db.plain(path, arg))
    else if |words| == 4 && words[2].Word? && words == [Word("OPERATOR"), Open, words[2], Close] then
      match words[2].w
      case "goiardi.~" => Some(db.fits(path, arg))
      case "goiardi.>" => Some(db.pathOrder(path, arg) > 0)
      case "goiardi.>=" => Some(db.pathOrder(path, arg) >= 0)
      case "goiardi.<" => Some(db.pathOrder(path, arg) < 0)
      case "goiardi.<=" => Some(db.pathOrder(path, arg) <= 0)
      case _ => None
    else None
  }

  function ExistsWords(item: int, path: string): seq<Lexeme> {
    [Word("EXISTS"), Open, Word("SELECT"), Word("1"), Word("FROM"), Word("found_items"), Word("WHERE")] +
    [Table(item), Word(".item_name"), Word("="), Word("found_items.item_name"), Word("AND")] +
    [Word("found_items.path")] + Operator("~") + [Arg(path), Close]
  }

  /** A comparison of a row with an argument, or the question whether the item has a row. */
  function PhraseValue(db: Db, p: seq<Lexeme>): Option<bool> {
    var n := |p|;
    if n >= 3 && p[0].Table? && p[n - 1].Arg? && p[1] == Word(".value") then
      OfValue(p[2..n - 1], db, db.rows(p[0].k).value, p[n - 1].s)
    else if n >= 3 && p[0].Table? && p[n - 1].Arg? && p[1] == Word(".path") then
      OfPath(p[2..n - 1], db, db.rows(p[0].k).path, p[n - 1].s)
    else if n >= 2 && p[n - 2].Arg? && p == ExistsWords(-1, p[n - 2].s) then Some(db.some(p[n - 2].s))
    else None
  }

  // ---- Conditions ----

  /** What has been read at one level: whether an earlier run of ANDs holds, whether the present one does so far, and
      whether a NOT stands before the next operand. */
  datatype Frame = Frame(ors: bool, ands: bool, not: bool)

  datatype Reader =
    | Wants(top: Frame, stack: seq<Frame>, phrase: seq<Lexeme>)   // an operand, of which the phrase has been read
    | Has(top: Frame, stack: seq<Frame>)                         // an operand has been read
    | Garbled

  function Start(): Frame {
    Frame(false, true, false)
  }

  function Take(f: Frame, v: bool): Frame {
    Frame(f.ors, f.ands && v != f.not, false)
  }

  function Level(f: Frame): bool {
    f.ors || f.ands
  }

  function ReadOne(db: Db, r: Reader, x: Lexeme): Reader {
    match r
    case Wants(top, stack, phrase) =>
      if phrase == [] && x == Word("NOT") then Wants(top.(not := !top.not), stack, [])
      else if phrase == [] && x == Open then Wants(Start(), stack + [top], [])
      else
        var v := PhraseValue(db, phrase + [x]);
        if v.Some? then Has(Take(top, v.value), stack) else Wants(top, stack, phrase + [x])
    case Has(top, stack) =>
      if x == Word("AND") then Wants(top, stack, [])
      else if x == Word("OR") then Wants(Frame(Level(top), true, false), stack, [])
      else if x == Close && stack != [] then Has(Take(stack[|stack| - 1], Level(top)), stack[..|stack| - 1])
      else Garbled
    case Garbled => Garbled
  }

  function ReadOn(db: Db, xs: seq<Lexeme>, r: Reader): Reader {
    if xs == [] then r else ReadOn(db, xs[1..], ReadOne(db, r, xs[0]))
  }

  /** The truth of a condition, when it can be read. */
  function Read(db: Db, x: Text): Option<bool> {
    match ReadOn(db, Tokens(x), Wants(Start(), [], []))
    case Has(top, stack) => if stack == [] then Some(Level(top)) else None
    case _ => None
  }

  lemma {:induction false} ReadAppend(db: Db, a: seq<Lexeme>, b: seq<Lexeme>, r: Reader)
    ensures ReadOn(db, a + b, r) == ReadOn(db, b, ReadOn(db, a, r))
  {
    hide ReadOne;
    if a == [] {
      assert a + b == b;
    } else {
      ReadAppend(db, a[1..], b, ReadOne(db, r, a[0]));
      assert (a + b)[1..] == a[1..] + b;
    }
  }

  lemma ReadSingle(db: Db, x: Lexeme, r: Reader)
    ensures ReadOn(db, [x], r) == ReadOne(db, r, x)
  {
    hide ReadOne;
  }

  /** A text that can stand where an operand is wanted, and its truth. */
  ghost predicate Factor(db: Db, xs: seq<Lexeme>, v: bool) {
    forall top, stack :: ReadOn(db, xs, Wants(top, stack, [])) == Has(Take(top, v), stack)
  }

  /** A text that can stand between parentheses, and its truth. */
  ghost predicate Condition(db: Db, xs: seq<Lexeme>, v: bool) {
    forall stack :: Holding(ReadOn(db, xs, Wants(Start(), stack, [])), stack, v)
  }

  ghost predicate Holding(r: Reader, stack: seq<Frame>, v: bool) {
    r.Has? && r.stack == stack && Level(r.top) == v
  }

  /** A phrase is gathered up to the word that completes it. */
  lemma {:induction false} Gathers(db: Db, p: seq<Lexeme>, k: nat, top: Frame, stack: seq<Frame>)
    requires 0 < k < |p| && forall i :: 0 < i < |p| ==> PhraseValue(db, p[..i]).None?
    requires PhraseValue(db, p).Some?
    ensures ReadOn(db, p[k..], Wants(top, stack, p[..k])) == Has(Take(top, PhraseValue(db, p).value), stack)
    decreases |p| - k
  {
    hide PhraseValue;
    assert p[..k] + [p[k]] == p[..k + 1] && p[k..][1..] == p[k + 1..] && p[..|p|] == p;
    if k + 1 < |p| {
      Gathers(db, p, k + 1, top, stack);
    } else {
      assert p[k + 1..] == [];
    }
  }

  lemma PhraseReads(db: Db, p: seq<Lexeme>)
    requires |p| > 1 && p[0] != Word("NOT") && p[0] != Open
    requires (forall i :: 0 < i < |p| ==> PhraseValue(db, p[..i]).None?) && PhraseValue(db, p).Some?
    ensures Factor(db, p, PhraseValue(db, p).value)
  {
    hide PhraseValue;
    forall top, stack
      ensures ReadOn(db, p, Wants(top, stack, [])) == Has(Take(top, PhraseValue(db, p).value), stack)
    {
      assert [] + [p[0]] == p[..1] && PhraseValue(db, p[..1]).None?;
      Gathers(db, p, 1, top, stack);
    }
  }

  lemma InBrackets(db: Db, xs: seq<Lexeme>, v: bool)
    requires Condition(db, xs, v)
    ensures Factor(db, [Open] + xs + [Close], v)
  {
    hide ReadOn;
    forall top, stack
      ensures ReadOn(db, [Open] + xs + [Close], Wants(top, stack, [])) == Has(Take(top, v), stack)
    {
      ReadAppend(db, [Open] + xs, [Close], Wants(top, stack, []));
      ReadAppend(db, [Open], xs, Wants(top, stack, []));
      ReadSingle(db, Open, Wants(top, stack, []));
      var r := ReadOn(db, xs, Wants(Start(), stack + [top], []));
      assert Holding(r, stack + [top], v);
      ReadSingle(db, Close, r);
      assert (stack + [top])[..|stack|] == stack;
    }
  }

  lemma AfterNot(db: Db, xs: seq<Lexeme>, v: bool)
    requires Factor(db, xs, v)
    ensures Factor(db, [Word("NOT")] + xs, !v)
  {
    hide ReadOn;
    forall top, stack
      ensures ReadOn(db, [Word("NOT")] + xs, Wants(top, stack, [])) == Has(Take(top, !v), stack)
    {
      ReadAppend(db, [Word("NOT")], xs, Wants(top, stack, []));
      ReadSingle(db, Word("NOT"), Wants(top, stack, []));
    }
  }

  lemma Alone(db: Db, xs: seq<Lexeme>, v: bool)
    requires Factor(db, xs, v)
    ensures Condition(db, xs, v)
  {
    hide ReadOn;
    forall stack
      ensures Holding(ReadOn(db, xs, Wants(Start(), stack, [])), stack, v)
    {
    }
  }

  lemma Conjoined(db: Db, xs: seq<Lexeme>, v: bool, ys: seq<Lexeme>, w: bool)
    requires Factor(db, xs, v) && Factor(db, ys, w)
    ensures Condition(db, xs + [Word("AND")] + ys, v && w)
  {
    hide ReadOn;
    forall stack
      ensures Holding(ReadOn(db, xs + [Word("AND")] + ys, Wants(Start(), stack, [])), stack, v && w)
    {
      var r := Wants(Start(), stack, []);
      ReadAppend(db, xs + [Word("AND")], ys, r);
      ReadAppend(db, xs, [Word("AND")], r);
      ReadSingle(db, Word("AND"), Has(Take(Start(), v), stack));
    }
  }

  /** A condition goes on with OR and another operand. */
  lemma Disjoined(db: Db, xs: seq<Lexeme>, v: bool, ys: seq<Lexeme>, w: bool)
    requires Condition(db, xs, v) && Factor(db, ys, w)
    ensures Condition(db, xs + [Word("OR")] + ys, v || w)
  {
    hide ReadOn;
    forall stack
      ensures Holding(ReadOn(db, xs + [Word("OR")] + ys, Wants(Start(), stack, [])), stack, v || w)
    {
      var r := Wants(Start(), stack, []);
      ReadAppend(db, xs + [Word("OR")], ys, r);
      ReadAppend(db, xs, [Word("OR")], r);
      assert Holding(ReadOn(db, xs, r), stack, v);
      ReadSingle(db, Word("OR"), ReadOn(db, xs, r));
    }
  }

  lemma ReadsAs(db: Db, x: Text, v: bool)
    requires Condition(db, Tokens(x), v)
    ensures Read(db, x) == Some(v)
  {
    hide ReadOn, Tokens;
    assert Holding(ReadOn(db, Tokens(x), Wants(Start(), [], [])), [], v);
  }

  // ---- Operands joined one after the other ----

  /** An operand with the word before it: nothing, AND or OR; its truth, if it can be read. */
  datatype Item = Item(tokens: seq<Lexeme>, lead: Lead, truth: bool, good: bool)

  datatype Lead = NoLead | LeadAnd | LeadOr

  function LeadTokens(l: Lead): seq<Lexeme> {
    match l
    case NoLead => []
    case LeadAnd => [Word("AND")]
    case LeadOr => [Word("OR")]
  }

  function ItemTokens(x: Item): seq<Lexeme> {
    LeadTokens(x.lead) + x.tokens
  }

  function AllTokens(xs: seq<Item>): seq<Lexeme> {
    if xs == [] then [] else ItemTokens(xs[0]) + AllTokens(xs[1..])
  }

  /** AND binds stronger: some run of ANDs holds from end to end.  `run` says whether the present one does so far. */
  function Holds(xs: seq<Item>, run: bool): bool {
    if xs == [] then run
    else if xs[0].lead == LeadOr then run || Holds(xs[1..], xs[0].truth)
    else Holds(xs[1..], run && xs[0].truth)
  }

  ghost predicate Operands(db: Db, xs: seq<Item>) {
    forall i :: 0 <= i < |xs| ==> Factor(db, xs[i].tokens, xs[i].truth)
  }

  /** The first has no word before it, and the others have one. */
  predicate Led(xs: seq<Item>) {
    forall i :: 0 <= i < |xs| ==> (xs[i].lead == NoLead <==> i == 0)
  }

  function TakeLed(top: Frame, lead: Lead, v: bool): Frame {
    if lead == LeadOr then Frame(Level(top), v, false) else Frame(top.ors, top.ands && v, false)
  }

  /** One operand more, with its word. */
  lemma ReadItem(db: Db, x: Item, top: Frame, stack: seq<Frame>)
    requires Factor(db, x.tokens, x.truth) && x.lead != NoLead && !top.not
    ensures ReadOn(db, ItemTokens(x), Has(top, stack)) ==
      Has(TakeLed(top, x.lead, x.truth), stack)
  {
    hide ReadOn;
    ReadAppend(db, LeadTokens(x.lead), x.tokens, Has(top, stack));
    ReadSingle(db, if x.lead == LeadOr then Word("OR") else Word("AND"), Has(top, stack));
  }

  lemma {:induction false} ReadRest(db: Db, xs: seq<Item>, top: Frame, stack: seq<Frame>)
    requires Operands(db, xs) && (forall i :: 0 <= i < |xs| ==> xs[i].lead != NoLead) && !top.not
    ensures Holding(ReadOn(db, AllTokens(xs), Has(top, stack)), stack, top.ors || Holds(xs, top.ands))
  {
    hide ItemTokens, Factor, ReadOne;
    if xs != [] {
      var x := xs[0];
      assert Factor(db, x.tokens, x.truth);
      ReadItem(db, x, top, stack);
      ReadAppend(db, ItemTokens(x), AllTokens(xs[1..]), Has(top, stack));
      hide ReadOn;
      ReadRest(db, xs[1..], TakeLed(top, x.lead, x.truth), stack);
    }
  }

  /** Operands joined by AND and OR are a condition, true by precedence. */
  lemma ReadAll(db: Db, xs: seq<Item>)
    requires xs != [] && Operands(db, xs) && Led(xs)
    ensures Condition(db, AllTokens(xs), Holds(xs, true))
  {
    hide ReadOne;
    var x, rest := xs[0], xs[1..];
    assert ItemTokens(x) == x.tokens && AllTokens(xs) == x.tokens + AllTokens(rest);
    hide AllTokens;
    assert Operands(db, rest) by {
      forall i | 0 <= i < |rest|
        ensures Factor(db, rest[i].tokens, rest[i].truth)
      {
        assert rest[i] == xs[i + 1];
      }
    }
    forall stack
      ensures Holding(ReadOn(db, AllTokens(xs), Wants(Start(), stack, [])), stack, Holds(xs, true))
    {
      ReadAppend(db, x.tokens, AllTokens(rest), Wants(Start(), stack, []));
      assert Factor(db, x.tokens, x.truth);
      hide ReadOn;
      ReadRest(db, rest, Take(Start(), x.truth), stack);
    }
  }

  // ---- Texts that cannot be read ----

  /** Nothing that follows makes it readable. */
  predicate Lost(r: Reader) {
    r.Garbled? || (r.Wants? && r.phrase != [] && r.phrase[0] == Close)
  }

  lemma {:induction false} StaysLost(db: Db, xs: seq<Lexeme>, r: Reader)
    requires Lost(r)
    ensures Lost(ReadOn(db, xs, r))
  {
    if xs != [] {
      StaysLost(db, xs[1..], ReadOne(db, r, xs[0]));
    }
  }

  /** A text that makes it unreadable where an operand is wanted. */
  ghost predicate Jams(db: Db, xs: seq<Lexeme>) {
    forall top, stack :: Lost(ReadOn(db, xs, Wants(top, stack, [])))
  }

  lemma JamsOn(db: Db, xs: seq<Lexeme>, ys: seq<Lexeme>)
    requires Jams(db, xs)
    ensures Jams(db, xs + ys)
  {
    hide ReadOn, ReadOne, Lost;
    forall top, stack
      ensures Lost(ReadOn(db, xs + ys, Wants(top, stack, [])))
    {
      ReadAppend(db, xs, ys, Wants(top, stack, []));
      StaysLost(db, ys, ReadOn(db, xs, Wants(top, stack, [])));
    }
  }

  /** What jams still does so after a parenthesis. */
  lemma JamsInside(db: Db, xs: seq<Lexeme>)
    requires Jams(db, xs)
    ensures Jams(db, [Open] + xs)
  {
    hide ReadOn;
    forall top, stack
      ensures Lost(ReadOn(db, [Open] + xs, Wants(top, stack, [])))
    {
      ReadAppend(db, [Open], xs, Wants(top, stack, []));
      ReadSingle(db, Open, Wants(top, stack, []));
      assert Lost(ReadOn(db, xs, Wants(Start(), stack + [top], [])));
    }
  }

  lemma JamsAfter(db: Db, xs: seq<Lexeme>, v: bool, ys: seq<Lexeme>)
    requires Factor(db, xs, v) && Jams(db, ys)
    ensures Jams(db, xs + [Word("AND")] + ys)
  {
    hide ReadOn, Lost;
    forall top, stack
      ensures Lost(ReadOn(db, xs + [Word("AND")] + ys, Wants(top, stack, [])))
    {
      var r := Wants(top, stack, []);
      ReadAppend(db, xs + [Word("AND")], ys, r);
      ReadAppend(db, xs, [Word("AND")], r);
      ReadSingle(db, Word("AND"), Has(Take(top, v), stack));
      assert Lost(ReadOn(db, ys, Wants(Take(top, v), stack, [])));
    }
  }

  lemma EmptyJams(db: Db)
    ensures Jams(db, [Close])
  {
    hide ReadOn;
    forall top, stack
      ensures Lost(ReadOn(db, [Close], Wants(top, stack, [])))
    {
      ReadSingle(db, Close, Wants(top, stack, []));
      assert [] + [Close] == [Close] && PhraseValue(db, [Close]).None?;
    }
  }

  lemma CannotRead(db: Db, x: Text)
    requires Jams(db, Tokens(x))
    ensures Read(db, x).None?
  {
    hide ReadOn, Tokens;
    assert Lost(ReadOn(db, Tokens(x), Wants(Start(), [], [])));
  }

  /** Operands start with a parenthesis or with NOT. */
  predicate Begins(xs: seq<Lexeme>) {
    xs != [] && (xs[0] == Open || xs[0] == Word("NOT"))
  }

  ghost predicate Settled(db: Db, x: Item) {
    Begins(x.tokens) && if x.good then Factor(db, x.tokens, x.truth) else Jams(db, x.tokens)
  }

  lemma Unexpected(db: Db, xs: seq<Lexeme>, top: Frame, stack: seq<Frame>)
    requires Begins(xs)
    ensures Lost(ReadOn(db, xs, Has(top, stack)))
  {
    StaysLost(db, xs[1..], Garbled);
  }

  /** An operand that jams, or one with no word before it, makes the rest unreadable. */
  lemma {:induction false} RestIsLost(db: Db, xs: seq<Item>, k: nat, top: Frame, stack: seq<Frame>)
    requires k < |xs| && (!xs[k].good || xs[k].lead == NoLead) && !top.not
    requires forall i :: 0 <= i < |xs| ==> Settled(db, xs[i])
    ensures Lost(ReadOn(db, AllTokens(xs), Has(top, stack)))
  {
    hide ReadOn, ReadOne, Factor, Jams, Lost, ItemTokens, Begins;
    var x := xs[0];
    assert Settled(db, x);
    ReadAppend(db, ItemTokens(x), AllTokens(xs[1..]), Has(top, stack));
    if x.lead == NoLead || !x.good {
      ItemIsLost(db, x, top, stack);
      StaysLost(db, AllTokens(xs[1..]), ReadOn(db, ItemTokens(x), Has(top, stack)));
    } else {
      ReadItem(db, x, top, stack);
      RestIsLost(db, xs[1..], k - 1, TakeLed(top, x.lead, x.truth), stack);
    }
  }

  lemma ItemIsLost(db: Db, x: Item, top: Frame, stack: seq<Frame>)
    requires Settled(db, x) && (!x.good || x.lead == NoLead)
    ensures Lost(ReadOn(db, ItemTokens(x), Has(top, stack)))
  {
    hide ReadOn, Lost, Begins;
    if x.lead == NoLead {
      assert ItemTokens(x) == x.tokens;
      Unexpected(db, x.tokens, top, stack);
    } else {
      ReadAppend(db, LeadTokens(x.lead), x.tokens, Has(top, stack));
      ReadSingle(db, if x.lead == LeadOr then Word("OR") else Word("AND"), Has(top, stack));
      var f := if x.lead == LeadOr then Frame(Level(top), true, false) else top;
      assert Lost(ReadOn(db, x.tokens, Wants(f, stack, [])));
    }
  }

  lemma AllIsLost(db: Db, xs: seq<Item>, k: nat)
    requires k < |xs| && xs[0].lead == NoLead && (!xs[k].good || (k > 0 && xs[k].lead == NoLead))
    requires forall i :: 0 <= i < |xs| ==> Settled(db, xs[i])
    ensures Jams(db, AllTokens(xs))
  {
    hide ReadOn, ReadOne, Factor, Lost, Begins;
    var x, rest := xs[0], xs[1..];
    assert Settled(db, x) && ItemTokens(x) == x.tokens;
    if !x.good {
      JamsOn(db, x.tokens, AllTokens(rest));
    } else {
      forall top, stack
        ensures Lost(ReadOn(db, AllTokens(xs), Wants(top, stack, [])))
      {
        ReadAppend(db, x.tokens, AllTokens(rest), Wants(top, stack, []));
        FactorIs(db, x.tokens, x.truth, top, stack);
        RestIsLost(db, rest, k - 1, Take(top, x.truth), stack);
      }
    }
  }

  lemma FactorIs(db: Db, xs: seq<Lexeme>, v: bool, top: Frame, stack: seq<Frame>)
    requires Factor(db, xs, v)
    ensures ReadOn(db, xs, Wants(top, stack, [])) == Has(Take(top, v), stack)
  {
  }
}
