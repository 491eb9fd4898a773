/** The condition of a compiled statement, read as SQL, means what its query asks of the rows
    (search/postgres_search.go). */
module PgReading {
  import opened Wrappers
  import opened SearchChain
  import opened SearchEval
  import opened Sql
  import opened SqlReading
  import opened PgClauses
  import opened PgSearch
  import opened PgMeaning
  import Strings

  // ---- The words of the clauses ----

  function LeadOf(op: Op): Lead {
    if op == NotAnOp then NoLead else if op == BinAnd then LeadAnd else LeadOr
  }

  /** An operand that can be read. */
  ghost predicate Good(db: Db, x: Item) {
    x.good && Begins(x.tokens) && Factor(db, x.tokens, x.truth)
  }

  lemma BlankAndWord(w: string, s: string)
    requires IsWord(w) && w != "" && (s == "" || Separates(s[0]))
    ensures Lex(" " + w + s) == [Word(w)] + Lex(s)
  {
    hide Lex, IsWord;
    LexWord(w, s);
    LexBlank(w + s);
    assert " " + (w + s) == " " + w + s;
  }

  lemma NoWords()
    ensures Lex("") == [] && Lex(" ") == [] && Lex("(") == [Open] && Lex(")") == [Close]
    ensures Lex("((") == [Open, Open] && Lex("))") == [Close, Close] && Lex(" (") == [Open] && Lex(") ") == [Close]
  {
    assert Lex("") == [];
    hide Lex;
    LexBlank("");
    LexOpen("");
    LexClose("");
    assert " " + "" == " " && "(" + "" == "(" && ")" + "" == ")";
    LexOpen("(");
    LexClose(")");
    LexBlank("(");
    LexClose(" ");
    assert "(" + "(" == "((" && ")" + ")" == "))" && " " + "(" == " (" && ")" + " " == ") ";
  }

  /** A word between blanks, and before a parenthesis. */
  lemma WordAlone(w: string)
    requires IsWord(w) && w != ""
    ensures Lex(" " + w + " ") == [Word(w)] && Lex(" " + w + " (") == [Word(w), Open]
  {
    hide Lex, IsWord;
    NoWords();
    BlankAndWord(w, " ");
    BlankAndWord(w, " (");
  }

  lemma AndOr()
    ensures Lex(" AND ") == [Word("AND")] && Lex(" OR ") == [Word("OR")]
    ensures Lex(" AND (") == [Word("AND"), Open] && Lex(" OR (") == [Word("OR"), Open]
  {
    hide Lex;
    WordAlone("AND");
    WordAlone("OR");
    assert " " + "AND" + " " == " AND " && " " + "OR" + " " == " OR ";
    assert " " + "AND" + " (" == " AND (" && " " + "OR" + " (" == " OR (";
  }

  lemma AndNot()
    ensures Lex(" AND NOT ") == [Word("AND"), Word("NOT")] && Lex(" NOT ") == [Word("NOT")]
    ensures Lex(" NOT (") == [Word("NOT"), Open]
  {
    hide Lex;
    WordAlone("NOT");
    assert " " + "NOT" + " " == " NOT " && " " + "NOT" + " (" == " NOT (";
    BlankAndWord("AND", " NOT ");
    assert " " + "AND" + " NOT " == " AND NOT ";
  }

  lemma ClosedOr()
    ensures Lex(") OR (") == [Close, Word("OR"), Open] && Lex(")) OR (") == [Close, Close, Word("OR"), Open]
  {
    hide Lex;
    AndOr();
    LexClose(" OR (");
    assert ")" + " OR (" == ") OR (";
    LexClose(") OR (");
    assert ")" + ") OR (" == ")) OR (";
  }

  lemma OperatorWords(name: string)
    requires IsWord(name)
    ensures Lex(".path OPERATOR(goiardi." + name + ") ") == [Word(".path")] + Operator(name)
  {
    hide Lex;
    var in' := "(" + (("goiardi." + name) + ") ");
    OperatorName(name);
    BlankAndWord("OPERATOR", in');
    LexWord(".path", " " + "OPERATOR" + in');
    assert ".path" + (" " + "OPERATOR" + in') == ".path OPERATOR(goiardi." + name + ") ";
  }

  lemma OperatorName(name: string)
    requires IsWord(name)
    ensures Lex("(" + (("goiardi." + name) + ") ")) == [Open, Word("goiardi." + name), Close]
  {
    hide Lex;
    NoWords();
    var word := "goiardi." + name;
    LexWord(word, ") ");
    LexOpen(word + ") ");
  }

  lemma ValueWord(w: string)
    requires IsWord(w) && w != ""
    ensures Lex(".value " + w + " ") == [Word(".value"), Word(w)]
  {
    hide Lex;
    WordAlone(w);
    LexWord(".value", " " + w + " ");
    assert ".value" + (" " + w + " ") == ".value " + w + " ";
  }

  // ---- Comparisons ----

  predicate NoArgs(xs: seq<Lexeme>) {
    forall i :: 0 <= i < |xs| ==> !xs[i].Arg?
  }

  function Comparison(t: int, column: string, words: seq<Lexeme>, a: string): seq<Lexeme> {
    [Table(t), Word(column)] + words + [Arg(a)]
  }

  lemma Unfinished(db: Db, p: seq<Lexeme>)
    requires NoArgs(p)
    ensures PhraseValue(db, p).None?
  {
  }

  lemma ComparisonReads(db: Db, t: int, column: string, words: seq<Lexeme>, a: string)
    requires NoArgs(words) && PhraseValue(db, Comparison(t, column, words, a)).Some?
    ensures Factor(db, Comparison(t, column, words, a), PhraseValue(db, Comparison(t, column, words, a)).value)
  {
    hide PhraseValue;
    var p := Comparison(t, column, words, a);
    forall i | 0 < i < |p|
      ensures PhraseValue(db, p[..i]).None?
    {
      Unfinished(db, p[..i]);
    }
    PhraseReads(db, p);
  }

  lemma ValueComparison(db: Db, t: int, words: seq<Lexeme>, a: string)
    ensures PhraseValue(db, Comparison(t, ".value", words, a)) == OfValue(words, db, db.rows(t).value, a)
  {
    hide OfValue;
    var p := Comparison(t, ".value", words, a);
    assert p[2..|p| - 1] == words;
  }

  lemma PathComparison(db: Db, t: int, words: seq<Lexeme>, a: string)
    ensures PhraseValue(db, Comparison(t, ".path", words, a)) == OfPath(words, db, db.rows(t).path, a)
  {
    hide OfPath;
    var p := Comparison(t, ".path", words, a);
    assert p[2..|p| - 1] == words && ".path" != ".value";
  }

  lemma CmpTokens(t: int, what: string, a: string, column: string, words: seq<Lexeme>)
    requires Lex(what) == [Word(column)] + words
    ensures Tokens(Cmp(t, what, Value(a))) == Comparison(t, column, words, a)
  {
    hide Lex;
    assert Tokens(Cat(Lit(what), Value(a))) == Lex(what) + [Arg(a)];
  }

  /** A comparison of a path by words that compare paths. */
  lemma PathWordsRead(db: Db, t: int, what: string, words: seq<Lexeme>, a: string)
    requires Lex(what) == [Word(".path")] + words && NoArgs(words)
    requires OfPath(words, db, db.rows(t).path, a).Some?
    ensures Factor(db, Tokens(Cmp(t, what, Value(a))), OfPath(words, db, db.rows(t).path, a).value)
  {
    hide Lex, Factor, PhraseValue, OfPath, Tokens;
    CmpTokens(t, what, a, ".path", words);
    PathComparison(db, t, words, a);
    ComparisonReads(db, t, ".path", words, a);
  }

  lemma PathOperatorReads(db: Db, t: int, name: string, a: string)
    requires name in {"~", ">", ">=", "<", "<="}
    ensures OfPath(Operator(name), db, db.rows(t).path, a).Some?
    ensures Factor(db, Tokens(Cmp(t, ".path OPERATOR(goiardi." + name + ") ", Value(a))),
      OfPath(Operator(name), db, db.rows(t).path, a).value)
  {
    hide Lex, Factor, OfPath, Tokens;
    OperatorWords(name);
    Operators(db, db.rows(t).path, a);
    PathWordsRead(db, t, ".path OPERATOR(goiardi." + name + ") ", Operator(name), a);
  }

  lemma Operators(db: Db, path: string, a: string)
    ensures OfPath(Operator("~"), db, path, a) == Some(db.fits(path, a))
    ensures OfPath(Operator(">"), db, path, a) == Some(db.pathOrder(path, a) > 0)
    ensures OfPath(Operator(">="), db, path, a) == Some(db.pathOrder(path, a) >= 0)
    ensures OfPath(Operator("<"), db, path, a) == Some(db.pathOrder(path, a) < 0)
    ensures OfPath(Operator("<="), db, path, a) == Some(db.pathOrder(path, a) <= 0)
  {
    assert "goiardi." + "~" == "goiardi.~" && "goiardi." + ">" == "goiardi.>" && "goiardi." + ">=" == "goiardi.>=";
    assert "goiardi." + "<" == "goiardi.<" && "goiardi." + "<=" == "goiardi.<=";
  }

  lemma PathReads(db: Db, t: int, a: string)
    ensures Factor(db, Tokens(Cmp(t, Path(), Value(a))), db.fits(db.rows(t).path, a))
  {
    Operators(db, db.rows(t).path, a);
    assert ".path OPERATOR(goiardi." + "~" + ") " == Path();
    hide Factor, Tokens, OfPath, Path;
    PathOperatorReads(db, t, "~", a);
  }

  lemma PlainPathReads(db: Db, t: int, a: string)
    ensures Factor(db, Tokens(Cmp(t, PlainPath(), Value(a))), db.plain(db.rows(t).path, a))
  {
    assert OfPath([Word("~")], db, db.rows(t).path, a) == Some(db.plain(db.rows(t).path, a));
    hide Lex, Factor, OfPath, Tokens, PlainPath;
    PlainWords();
    PathWordsRead(db, t, PlainPath(), [Word("~")], a);
  }

  lemma PlainWords()
    ensures Lex(PlainPath()) == [Word(".path"), Word("~")]
  {
    hide Lex;
    WordAlone("~");
    LexWord(".path", " " + "~" + " ");
    assert ".path" + (" " + "~" + " ") == PlainPath();
  }

  lemma ValueOperatorReads(db: Db, t: int, w: string, a: string)
    requires w in {"=", "<>", "LIKE", ">", ">=", "<", "<="}
    ensures OfValue([Word(w)], db, db.rows(t).value, a).Some?
    ensures Factor(db, Tokens(Cmp(t, ".value " + w + " ", Value(a))), OfValue([Word(w)], db, db.rows(t).value, a).value)
  {
    assert OfValue([Word(w)], db, db.rows(t).value, a).Some?;
    ValueWord(w);
    hide Lex, Factor, PhraseValue, OfValue;
    CmpTokens(t, ".value " + w + " ", a, ".value", [Word(w)]);
    ValueComparison(db, t, [Word(w)], a);
    ComparisonReads(db, t, ".value", [Word(w)], a);
  }

  lemma ValueOperators(db: Db, value: string, a: string)
    ensures OfValue([Word("=")], db, value, a) == Some(value == a)
    ensures OfValue([Word("<>")], db, value, a) == Some(value != a)
    ensures OfValue([Word("LIKE")], db, value, a) == Some(db.like(value, a))
    ensures OfValue([Word("NOT"), Word("LIKE")], db, value, a) == Some(!db.like(value, a))
    ensures OfValue([Word(">")], db, value, a) == Some(db.order(value, a) > 0)
    ensures OfValue([Word(">=")], db, value, a) == Some(db.order(value, a) >= 0)
    ensures OfValue([Word("<")], db, value, a) == Some(db.order(value, a) < 0)
    ensures OfValue([Word("<=")], db, value, a) == Some(db.order(value, a) <= 0)
  {
  }

  lemma NotLikeReads(db: Db, t: int, a: string)
    ensures Factor(db, Tokens(Cmp(t, ".value NOT LIKE ", Value(a))), !db.like(db.rows(t).value, a))
  {
    ValueOperators(db, db.rows(t).value, a);
    hide Lex, Factor, PhraseValue, OfValue;
    WordAlone("LIKE");
    BlankAndWord("NOT", " " + "LIKE" + " ");
    LexWord(".value", " " + "NOT" + (" " + "LIKE" + " "));
    assert ".value" + (" " + "NOT" + (" " + "LIKE" + " ")) == ".value NOT LIKE ";
    var words := [Word("NOT"), Word("LIKE")];
    CmpTokens(t, ".value NOT LIKE ", a, ".value", words);
    ValueComparison(db, t, words, a);
    ComparisonReads(db, t, ".value", words, a);
  }

  // Escaping one character after the other is escaping each by itself.

  lemma ReplacedFirst(a: string, b: string, c: char, new': string)
    requires a != ""
    ensures Replaced(a + b, c, new') == (if a[0] == c then new' else [a[0]]) + Replaced(a[1..] + b, c, new')
  {
    assert (a + b)[1..] == a[1..] + b;
  }

  lemma {:induction false} ReplacedAppend(a: string, b: string, c: char, new': string)
    ensures Replaced(a + b, c, new') == Replaced(a, c, new') + Replaced(b, c, new')
  {
    if a == "" {
      assert a + b == b;
    } else {
      hide Replaced;
      ReplacedFirst(a, b, c, new');
      ReplacedFirst(a, "", c, new');
      assert a + "" == a && a[1..] + "" == a[1..];
      ReplacedAppend(a[1..], b, c, new');
    }
  }

  lemma EscapeAppend(a: string, b: string)
    ensures EscapeArg(a + b) == EscapeArg(a) + EscapeArg(b)
  {
    hide Replaced;
    ReplacedAppend(a, b, '%', "\\%");
    var a1, b1 := Replaced(a, '%', "\\%"), Replaced(b, '%', "\\%");
    ReplacedAppend(a1, b1, '_', "\\_");
    var a2, b2 := Replaced(a1, '_', "\\_"), Replaced(b1, '_', "\\_");
    ReplacedAppend(a2, b2, '*', "%");
    ReplacedAppend(Replaced(a2, '*', "%"), Replaced(b2, '*', "%"), '?', "_");
  }

  lemma ReplacedShort(s: string, c: char, new': string)
    requires |s| <= 2
    ensures Replaced(s, c, new') ==
      (if s == "" then "" else if s[0] == c then new' else [s[0]]) +
      (if |s| < 2 then "" else if s[1] == c then new' else [s[1]])
  {
    if |s| == 2 {
      assert s[1..][1..] == "" && s[1..][0] == s[1];
    } else if |s| == 1 {
      assert s[1..] == "";
    }
  }

  lemma EscapeOne(c: char)
    ensures EscapeArg([c]) == Pattern([c])
  {
    assert [c][1..] == "" && Pattern("") == "";
    hide Replaced;
    var s1 := Replaced([c], '%', "\\%");
    ReplacedShort([c], '%', "\\%");
    var s2 := Replaced(s1, '_', "\\_");
    ReplacedShort(s1, '_', "\\_");
    assert |s2| <= 2;
    var s3 := Replaced(s2, '*', "%");
    ReplacedShort(s2, '*', "%");
    ReplacedShort(s3, '?', "_");
  }

  lemma {:induction false} EscapeIsPattern(s: string)
    ensures EscapeArg(s) == Pattern(s)
  {
    if s != "" {
      hide EscapeArg, Pattern;
      PatternFirst(s);
      EscapeIsPattern(s[1..]);
      assert s == [s[0]] + s[1..];
      EscapeAppend([s[0]], s[1..]);
      EscapeOne(s[0]);
    }
  }

  lemma PatternFirst(s: string)
    requires s != ""
    ensures Pattern(s) == Pattern([s[0]]) + Pattern(s[1..])
  {
    assert [s[0]][1..] == "" && Pattern("") == "";
  }

  lemma {:induction false} RowsAreTables(c: Chain)
    requires ProperChain(c)
    ensures RowsIn(c) == Tables(c)
  {
    var o := if c.End? then c.last else c.first;
    if o.Group? {
      RowsAreTables(o.chain);
    }
    if c.More? {
      RowsAreTables(c.rest);
    }
  }

  /** A value compared with a term. */
  lemma ValueReads(db: Db, t: int, term: QueryTerm)
    ensures Factor(db, Tokens(Cmp(t, ValueIs(term), Value(MatchTerm(term)))), ValueFits(db, db.rows(t).value, term))
  {
    ValueOperators(db, db.rows(t).value, MatchTerm(term));
    EscapeIsPattern(term.term);
    hide Factor, Tokens, OfValue, EscapeArg, Pattern;
    if Wild(term.term) && Negates(term.mod) {
      assert ".value " + "NOT LIKE" + " " == ".value NOT LIKE ";
      NotLikeReads(db, t, MatchTerm(term));
    } else {
      ValueOperatorReads(db, t, MatchOp(term), MatchTerm(term));
    }
  }

  // ---- Clauses ----

  lemma WrapTokens(before: string, x: Text, after: string)
    ensures Tokens(Wrap(before, x, after)) == Lex(before) + Tokens(x) + Lex(after)
  {
    hide Lex;
    assert Tokens(Cat(x, Lit(after))) == Tokens(x) + Lex(after);
  }

  lemma BothTokens(x: Text, join: string, y: Text)
    ensures Tokens(Both(x, join, y)) == Tokens(x) + Lex(join) + Tokens(y)
  {
    hide Lex;
    assert Tokens(Cat(Lit(join), y)) == Lex(join) + Tokens(y);
  }

  /** The word before a clause is that of the operator. */
  lemma LeadWords(op: Op, s: string)
    requires s != "" && Separates(s[0])
    ensures Lex(BinOp(op) + s) == LeadTokens(LeadOf(op)) + Lex(s)
  {
    hide Lex;
    if op == NotAnOp {
      assert BinOp(op) + s == s;
    } else {
      var w := if op == BinAnd then "AND" else "OR";
      LexBlank(s);
      BlankAndWord(w, " " + s);
      assert BinOp(op) + s == " " + w + (" " + s);
    }
  }

  /** A condition in parentheses, after an operator. */
  lemma JoinedReads(db: Db, op: Op, x: Text, v: bool) returns (item: Item)
    requires Condition(db, Tokens(x), v)
    ensures Tokens(Joined(op, x)) == ItemTokens(item) && item.lead == LeadOf(op) && item.truth == v
    ensures Good(db, item)
  {
    hide Lex, Factor, Condition, Tokens, BinOp, Wrap;
    item := Item([Open] + Tokens(x) + [Close], LeadOf(op), v, true);
    InBrackets(db, Tokens(x), v);
    LeadWords(op, "(");
    NoWords();
    WrapTokens(BinOp(op) + "(", x, ")");
  }

  lemma BracketReads(db: Db, x: Text, v: bool)
    requires Condition(db, Tokens(x), v)
    ensures Factor(db, Tokens(Wrap("(", x, ")")), v)
  {
    hide Lex, Factor, Condition, Tokens, Wrap;
    InBrackets(db, Tokens(x), v);
    NoWords();
    WrapTokens("(", x, ")");
  }

  lemma ByValueReads(db: Db, t: int, term: QueryTerm, field: string)
    ensures Factor(db, Tokens(ByValue(t, term, Value(field), Value(MatchTerm(term)))),
      db.fits(db.rows(t).path, field) && ValueFits(db, db.rows(t).value, term))
  {
    hide Lex, Factor, Condition, Tokens, Wrap, Cmp, Both, Path, ValueIs, MatchTerm, ValueFits;
    var path, value := Cmp(t, Path(), Value(field)), Cmp(t, ValueIs(term), Value(MatchTerm(term)));
    var v, w := db.fits(db.rows(t).path, field), ValueFits(db, db.rows(t).value, term);
    PathReads(db, t, field);
    ValueReads(db, t, term);
    Conjoined(db, Tokens(path), v, Tokens(value), w);
    AndOr();
    BothTokens(path, " AND ", value);
    BracketReads(db, Both(path, " AND ", value), v && w);
  }

  lemma ByPathReads(db: Db, t: int, a: string)
    ensures Factor(db, Tokens(ByPath(t, Value(a))), db.fits(db.rows(t).path, a))
  {
    hide Lex, Factor, Condition, Tokens, Wrap, Cmp, Path;
    PathReads(db, t, a);
    Alone(db, Tokens(Cmp(t, Path(), Value(a))), db.fits(db.rows(t).path, a));
    BracketReads(db, Cmp(t, Path(), Value(a)), db.fits(db.rows(t).path, a));
  }

  function WordsOf(ws: seq<string>): seq<Lexeme> {
    seq(|ws|, i requires 0 <= i < |ws| => Word(ws[i]))
  }

  lemma {:induction false} SpacedWords(ws: seq<string>, s: string)
    requires (forall i :: 0 <= i < |ws| ==> IsWord(ws[i]) && ws[i] != "") && (s == "" || Separates(s[0]))
    ensures Lex(Spaced(ws) + s) == WordsOf(ws) + Lex(s)
  {
    hide Lex, IsWord;
    if ws == [] {
      assert Spaced(ws) + s == s;
    } else {
      var rest := Spaced(ws[1..]) + s;
      SpacedWords(ws[1..], s);
      assert rest == "" || Separates(rest[0]);
      BlankAndWord(ws[0], rest);
      assert Spaced(ws) + s == " " + ws[0] + rest;
      assert WordsOf(ws) == [Word(ws[0])] + WordsOf(ws[1..]);
    }
  }

  lemma OrNoneWords()
    ensures Lex(OrNone()) ==
      [Word("OR"), Word("NOT"), Word("EXISTS"), Open, Word("SELECT"), Word("1"), Word("FROM"), Word("found_items"),
       Word("WHERE")]
  {
    hide Lex, Spaced;
    NoWords();
    var ws, vs := ["1", "FROM", "found_items", "WHERE"], ["OR", "NOT", "EXISTS"];
    SpacedWords(ws, " ");
    var from := Spaced(ws) + " ";
    assert from != "" && Separates(from[0]) by {
      SpacedStarts(ws);
    }
    LexWord("SELECT", from);
    LexOpen("SELECT" + from);
    LexBlank("(" + ("SELECT" + from));
    assert " " + ("(" + ("SELECT" + from)) == " (SELECT" + from;
    SpacedWords(vs, " (SELECT" + from);
  }

  lemma SpacedStarts(ws: seq<string>)
    requires ws != []
    ensures Spaced(ws) != "" && Spaced(ws)[0] == ' '
  {
  }

  lemma ItemWords()
    ensures Lex(ItemPath()) ==
      [Word(".item_name"), Word("="), Word("found_items.item_name"), Word("AND"), Word("found_items.path")] +
      Operator("~")
  {
    hide Lex, Spaced;
    var ws, operator := ["=", "found_items.item_name", "AND", "found_items.path"], " OPERATOR(goiardi.~) ";
    TildeWords();
    SpacedWords(ws, operator);
    var rest := Spaced(ws) + operator;
    assert rest != "" && Separates(rest[0]) by {
      SpacedStarts(ws);
    }
    LexWord(".item_name", rest);
  }

  lemma TildeWords()
    ensures Lex(" OPERATOR(goiardi.~) ") == Operator("~")
  {
    hide Lex;
    NoWords();
    assert "goiardi." + "~" == "goiardi.~";
    LexWord("goiardi.~", ") ");
    LexOpen("goiardi.~" + ") ");
    BlankAndWord("OPERATOR", "(" + ("goiardi.~" + ") "));
    assert " " + "OPERATOR" + ("(" + ("goiardi.~" + ") ")) == " OPERATOR(goiardi.~) ";
  }

  lemma ExistsReads(db: Db, a: string)
    ensures Factor(db, ExistsWords(-1, a), db.some(a))
  {
    var p := ExistsWords(-1, a);
    assert PhraseValue(db, p) == Some(db.some(a));
    forall i | 0 < i < |p|
      ensures PhraseValue(db, p[..i]).None?
    {
      if i < |p| - 1 {
        Unfinished(db, p[..i]);
      }
    }
    hide PhraseValue, ExistsWords;
    PhraseReads(db, p);
  }

  lemma AbsentTokens(x: Text, a: string)
    ensures Tokens(OrAbsent(x, Value(a))) ==
      Tokens(Wrap("(", x, ")")) + [Word("OR")] + ([Word("NOT")] + ExistsWords(-1, a))
  {
    hide Lex, ItemPath, Tokens, Wrap, Cmp, Operator, OrNone;
    OrNoneWords();
    ItemWords();
    NoWords();
    var item := Cmp(ITEM, ItemPath(), Value(a));
    ItemTokensAre(a);
    WrapTokens("", item, ")");
    BothTokens(Wrap("(", x, ")"), OrNone(), Wrap("", item, ")"));
    assert Lex(OrNone()) + ([] + ([Table(-1)] + Lex(ItemPath()) + [Arg(a)]) + [Close]) ==
      [Word("OR")] + ([Word("NOT")] + ExistsWords(-1, a));
  }

  lemma ItemTokensAre(a: string)
    ensures Tokens(Cmp(ITEM, ItemPath(), Value(a))) == [Table(-1)] + Lex(ItemPath()) + [Arg(a)]
  {
    hide Lex, ItemPath;
    assert Tokens(Cat(Lit(ItemPath()), Value(a))) == Lex(ItemPath()) + [Arg(a)];
  }

  lemma OrAbsentReads(db: Db, x: Text, v: bool, field: string)
    requires Condition(db, Tokens(x), v)
    ensures Condition(db, Tokens(OrAbsent(x, Value(field))), v || !db.some(field))
  {
    hide *;
    BracketReads(db, x, v);
    Alone(db, Tokens(Wrap("(", x, ")")), v);
    ExistsReads(db, field);
    AfterNot(db, ExistsWords(-1, field), db.some(field));
    AbsentTokens(x, field);
    Disjoined(db, Tokens(Wrap("(", x, ")")), v, [Word("NOT")] + ExistsWords(-1, field), !db.some(field));
  }

  /** A field with a term, or without the term: its clause says what it asks. */
  lemma BasicReads(db: Db, key: string -> string, field: string, term: QueryTerm, t: int, op: Op) returns (item: Item)
    ensures Tokens(BasicClause(key, field, term, t, op)) == ItemTokens(item) && item.lead == LeadOf(op)
    ensures item.truth == BasicMeans(db, key, field, term, t) && Good(db, item)
  {
    hide Factor, Condition, Tokens, ItemTokens, Joined, Cmp, ByValue, ByPath, Both, OrAbsent, ValueIs, MatchTerm,
      ValueFits, LeadOf;
    var row := db.rows(t);
    if term.term == "*" || term.term == "" {
      var x, v := Cmp(t, PlainPath(), Value(field)), db.plain(row.path, field);
      PlainPathReads(db, t, field);
      Alone(db, Tokens(x), v);
      item := JoinedReads(db, op, x, v);
    } else if field == "" {
      var x, v := Cmp(t, ValueIs(term), Value(MatchTerm(term))), ValueFits(db, row.value, term);
      ValueReads(db, t, term);
      Alone(db, Tokens(x), v);
      item := JoinedReads(db, op, x, v);
    } else {
      var alt := AltPath(key, field, term);
      var x, y := ByValue(t, term, Value(field), Value(MatchTerm(term))), ByPath(t, Value(alt));
      var v, w := db.fits(row.path, field) && ValueFits(db, row.value, term), db.fits(row.path, alt);
      ByValueReads(db, t, term, field);
      ByPathReads(db, t, alt);
      if Negates(term.mod) {
        AndNotReads(db, x, v, y, w);
        OrAbsentReads(db, Both(x, " AND NOT ", y), v && !w, field);
        item := JoinedReads(db, op, OrAbsent(Both(x, " AND NOT ", y), Value(field)), (v && !w) || !db.some(field));
      } else {
        OrReads(db, x, v, y, w);
        item := JoinedReads(db, op, Both(x, " OR ", y), v || w);
      }
    }
  }

  lemma AndNotReads(db: Db, x: Text, v: bool, y: Text, w: bool)
    requires Factor(db, Tokens(x), v) && Factor(db, Tokens(y), w)
    ensures Condition(db, Tokens(Both(x, " AND NOT ", y)), v && !w)
  {
    hide *;
    AndNot();
    AfterNot(db, Tokens(y), w);
    Conjoined(db, Tokens(x), v, [Word("NOT")] + Tokens(y), !w);
    BothTokens(x, " AND NOT ", y);
    var u, v' := Tokens(x), Tokens(y);
    assert u + [Word("AND"), Word("NOT")] + v' == u + [Word("AND")] + ([Word("NOT")] + v');
  }

  lemma OrReads(db: Db, x: Text, v: bool, y: Text, w: bool)
    requires Factor(db, Tokens(x), v) && Factor(db, Tokens(y), w)
    ensures Condition(db, Tokens(Both(x, " OR ", y)), v || w)
  {
    hide *;
    AndOr();
    Alone(db, Tokens(x), v);
    Disjoined(db, Tokens(x), v, Tokens(y), w);
    BothTokens(x, " OR ", y);
  }

  // ---- Operands one after the other ----

  /** Texts with their words before them, with blanks between. */
  lemma {:induction false} JoinTokens(texts: seq<Text>, items: seq<Item>)
    requires |texts| == |items| && forall i :: 0 <= i < |texts| ==> Tokens(texts[i]) == ItemTokens(items[i])
    ensures Tokens(Join(texts, " ")) == AllTokens(items)
  {
    hide Lex, ItemTokens;
    NoWords();
    if |texts| > 1 {
      JoinTokens(texts[1..], items[1..]);
      assert Tokens(Cat(Lit(" "), Join(texts[1..], " "))) == Tokens(Join(texts[1..], " "));
    } else if |texts| == 1 {
      assert AllTokens(items[1..]) == [];
    }
  }

  /** The word before a term of a group. */
  function TermLead(i: int, mod: Op): Lead {
    if i == 0 then NoLead else if mod == UnaryPro || mod == UnaryReq || mod == UnaryNot then LeadAnd else LeadOr
  }

  lemma JoinerWords(i: int, mod: Op)
    ensures Lex(Joiner(i, mod)) == LeadTokens(TermLead(i, mod))
  {
    hide Lex;
    NoWords();
    AndOr();
  }

  lemma {:induction false} TermsHold(terms: seq<QueryTerm>, asked: seq<bool>, items: seq<Item>, i: nat, run: bool)
    requires |terms| == |asked| == |items| && i <= |terms|
    requires forall k :: 0 <= k < |terms| ==> items[k].lead == TermLead(k, terms[k].mod) && items[k].truth == asked[k]
    ensures Holds(items[i..], run) == TermsMean(terms, asked, i, run)
    decreases |terms| - i
  {
    if i < |terms| {
      assert items[i..][1..] == items[i + 1..] && items[i..][0] == items[i];
      TermsHold(terms, asked, items, i + 1, if items[i].lead == LeadOr then asked[i] else run && asked[i]);
    }
  }

  function TermItem(cmp: Text, i: int, mod: Op, asked: bool): Item {
    Item(Tokens(cmp), TermLead(i, mod), asked, true)
  }

  /** The comparisons of a group's terms, each with its word before it. */
  lemma TermsRead(db: Db, terms: seq<QueryTerm>, texts: seq<Text>, cmps: seq<Text>, asked: seq<bool>)
    requires |terms| == |texts| == |cmps| == |asked| > 0
    requires forall i :: 0 <= i < |terms| ==> texts[i] == Cat(Lit(Joiner(i, terms[i].mod)), cmps[i])
    requires forall i :: 0 <= i < |terms| ==> Factor(db, Tokens(cmps[i]), asked[i])
    ensures Condition(db, Tokens(Join(texts, " ")), TermsMean(terms, asked, 0, true))
  {
    hide Lex, Factor, Condition, Joiner;
    var items := seq(|terms|, i requires 0 <= i < |terms| => TermItem(cmps[i], i, terms[i].mod, asked[i]));
    forall i | 0 <= i < |terms|
      ensures Tokens(texts[i]) == ItemTokens(items[i])
    {
      JoinerWords(i, terms[i].mod);
    }
    JoinTokens(texts, items);
    assert items[0..] == items;
    TermsHold(terms, asked, items, 0, true);
    hide Tokens;
    ReadAll(db, items);
  }

  lemma ValuesRead(db: Db, terms: seq<QueryTerm>, t: int, asked: seq<bool>)
    requires |terms| == |asked| > 0
    requires forall i :: 0 <= i < |terms| ==> asked[i] == ValueFits(db, db.rows(t).value, terms[i])
    ensures Condition(db, Tokens(Join(ValueClauses(terms, t), " ")), TermsMean(terms, asked, 0, true))
  {
    hide Lex, Factor, Condition, Tokens, Joiner, Cmp, ValueFits, ValueIs, MatchTerm, Join;
    var cmps := seq(|terms|, i requires 0 <= i < |terms| => Cmp(t, ValueIs(terms[i]), Value(MatchTerm(terms[i]))));
    forall i | 0 <= i < |terms|
      ensures Factor(db, Tokens(cmps[i]), asked[i])
    {
      ValueReads(db, t, terms[i]);
    }
    TermsRead(db, terms, ValueClauses(terms, t), cmps, asked);
  }

  lemma PathsRead(db: Db, key: string -> string, field: string, terms: seq<QueryTerm>, t: int, asked: seq<bool>)
    requires |terms| == |asked| > 0
    requires forall i :: 0 <= i < |terms| ==> asked[i] == PathFits(db, key, field, terms[i], t + 1 + i)
    ensures Condition(db, Tokens(Join(PathClauses(key, field, terms, t), " ")), TermsMean(terms, asked, 0, true))
  {
    hide Lex, Factor, Condition, Tokens, Joiner, Cmp, Path, Join, TermPath, TermsMean, PathFits;
    var texts := PathClauses(key, field, terms, t);
    var cmps := seq(|terms|, i requires 0 <= i < |terms| => PathCmp(key, field, terms[i], t + 1 + i));
    forall i | 0 <= i < |terms|
      ensures texts[i] == Cat(Lit(Joiner(i, terms[i].mod)), cmps[i]) && Factor(db, Tokens(cmps[i]), asked[i])
    {
      PathCmpReads(db, key, field, terms[i], t + 1 + i);
    }
    hide PathClauses, PathCmp;
    TermsRead(db, terms, texts, cmps, asked);
  }

  function PathCmp(key: string -> string, field: string, term: QueryTerm, t: int): Text {
    Cmp(t, Path(), Value(TermPath(key, field, term)))
  }

  lemma PathCmpReads(db: Db, key: string -> string, field: string, term: QueryTerm, t: int)
    ensures Factor(db, Tokens(PathCmp(key, field, term, t)), PathFits(db, key, field, term, t))
  {
    hide Factor, Tokens, Cmp;
    PathReads(db, t, TermPath(key, field, term));
  }

  /** x AND (y), or z in parentheses. */
  lemma EitherReads(db: Db, x: seq<Lexeme>, a: bool, y: seq<Lexeme>, b: bool, z: seq<Lexeme>, c: bool)
    requires Factor(db, x, a) && Condition(db, y, b) && Condition(db, z, c)
    ensures Condition(db, [Open] + (x + [Word("AND")] + ([Open] + y + [Close])) + [Close] + [Word("OR")] +
      ([Open] + z + [Close]), (a && b) || c)
    ensures Condition(db, x + [Word("AND")] + ([Open] + y + [Close]) + [Word("OR")] + ([Open] + z + [Close]),
      (a && b) || c)
  {
    hide *;
    InBrackets(db, y, b);
    InBrackets(db, z, c);
    var both := x + [Word("AND")] + ([Open] + y + [Close]);
    Conjoined(db, x, a, [Open] + y + [Close], b);
    InBrackets(db, both, a && b);
    Alone(db, [Open] + both + [Close], a && b);
    Disjoined(db, [Open] + both + [Close], a && b, [Open] + z + [Close], c);
    Disjoined(db, both, a && b, [Open] + z + [Close], c);
  }

  lemma GroupedTokens(t: int, op: Op, x: Text, values: seq<Text>, paths: seq<Text>)
    ensures Tokens(GroupedText(t, op, x, values, paths)) == LeadTokens(LeadOf(op)) + ([Open] +
      ([Open] + (Tokens(Cmp(t, Path(), x)) + [Word("AND")] + ([Open] + Tokens(Join(values, " ")) + [Close])) + [Close] +
       [Word("OR")] + ([Open] + Tokens(Join(paths, " ")) + [Close])) + [Close])
  {
    hide Lex, Tokens, Cmp, Path, Join, Wrap, Both, BinOp, LeadOf, LeadTokens;
    LeadWords(op, "((");
    NoWords();
    AndOr();
    ClosedOr();
    var path := Cmp(t, Path(), x);
    var vs, ps := Join(values, " "), Join(paths, " ");
    BothTokens(path, " AND (", vs);
    BothTokens(Both(path, " AND (", vs), ")) OR (", ps);
    WrapTokens(BinOp(op) + "((", Both(Both(path, " AND (", vs), ")) OR (", ps), "))");
  }

  lemma GroupedReads(db: Db, key: string -> string, field: string, terms: seq<QueryTerm>, t: int, op: Op)
    returns (item: Item)
    requires terms != []
    ensures Tokens(GroupedClause(key, field, terms, t, op)) == ItemTokens(item) && item.lead == LeadOf(op)
    ensures item.truth == GroupedMeans(db, key, field, terms, t) && Good(db, item)
  {
    hide Lex, Factor, Condition, Tokens, Cmp, Path, Join, GroupedText, ValueFits, ValueClauses, PathClauses,
      LeadOf, LeadTokens, TermsMean;
    var values := seq(|terms|, i requires 0 <= i < |terms| => ValueFits(db, db.rows(t).value, terms[i]));
    var paths := seq(|terms|, i requires 0 <= i < |terms| => PathFits(db, key, field, terms[i], t + 1 + i));
    var v, w := TermsMean(terms, values, 0, true), TermsMean(terms, paths, 0, true);
    var fits := db.fits(db.rows(t).path, field);
    ValuesRead(db, terms, t, values);
    PathsRead(db, key, field, terms, t, paths);
    PathReads(db, t, field);
    GroupedTokens(t, op, Value(field), ValueClauses(terms, t), PathClauses(key, field, terms, t));
    var x := Tokens(Cmp(t, Path(), Value(field)));
    var y, z := Tokens(Join(ValueClauses(terms, t), " ")), Tokens(Join(PathClauses(key, field, terms, t), " "));
    EitherReads(db, x, fits, y, v, z, w);
    var inner :=
      [Open] + (x + [Word("AND")] + ([Open] + y + [Close])) + [Close] + [Word("OR")] + ([Open] + z + [Close]);
    InBrackets(db, inner, (fits && v) || w);
    item := Item([Open] + inner + [Close], LeadOf(op), (fits && v) || w, true);
  }

  // ---- Ranges ----

  predicate Limit(c: char) {
    c == '>' || c == '<'
  }

  /** Above a lower limit, or below an upper one, or on it when it counts. */
  predicate Beyond(c: char, inclusive: bool, sign: int) {
    (if c == '>' then sign > 0 else sign < 0) || (inclusive && sign == 0)
  }

  lemma ValueLimitReads(db: Db, t: int, c: char, inclusive: bool, a: string)
    requires Limit(c)
    ensures Factor(db, Tokens(Cmp(t, ".value " + [c] + Equals(inclusive), Value(a))),
      Beyond(c, inclusive, db.order(db.rows(t).value, a)))
  {
    ValueOperators(db, db.rows(t).value, a);
    hide Factor, Tokens, OfValue, Cmp;
    var w := if c == '>' then (if inclusive then ">=" else ">") else (if inclusive then "<=" else "<");
    ValueOperatorReads(db, t, w, a);
    assert ".value " + w + " " == ".value " + [c] + Equals(inclusive);
  }

  lemma PathLimitReads(db: Db, t: int, c: char, inclusive: bool, a: string)
    requires Limit(c)
    ensures Factor(db, Tokens(Cmp(t, ".path OPERATOR(goiardi." + [c] + PathEquals(inclusive), Value(a))),
      Beyond(c, inclusive, db.pathOrder(db.rows(t).path, a)))
  {
    Operators(db, db.rows(t).path, a);
    hide Factor, Tokens, OfPath, Cmp, Operator;
    var w := if c == '>' then (if inclusive then ">=" else ">") else (if inclusive then "<=" else "<");
    PathOperatorReads(db, t, w, a);
    assert ".path OPERATOR(goiardi." + w + ") " == ".path OPERATOR(goiardi." + [c] + PathEquals(inclusive);
  }

  lemma AndReads(db: Db, x: Text, v: bool, y: Text, w: bool)
    requires Factor(db, Tokens(x), v) && Factor(db, Tokens(y), w)
    ensures Condition(db, Tokens(Both(x, " AND ", y)), v && w)
  {
    hide *;
    AndOr();
    Conjoined(db, Tokens(x), v, Tokens(y), w);
    BothTokens(x, " AND ", y);
  }

  lemma AllAndReads(db: Db, x: Text, u: bool, y: Text, v: bool, z: Text, w: bool)
    requires Factor(db, Tokens(x), u) && Factor(db, Tokens(y), v) && Factor(db, Tokens(z), w)
    ensures Condition(db, Tokens(Both(x, " AND ", Both(y, " AND ", z))), u && v && w)
  {
    hide Lex, Factor, Condition, Tokens, Both;
    AndOr();
    BothTokens(y, " AND ", z);
    BothTokens(x, " AND ", Both(y, " AND ", z));
    var a := Item(Tokens(x), NoLead, u, true);
    var b, c := Item(Tokens(y), LeadAnd, v, true), Item(Tokens(z), LeadAnd, w, true);
    var items := [a, b, c];
    assert items[1..] == [b, c] && [b, c][1..] == [c] && [c][1..] == [];
    assert AllTokens([c]) == [Word("AND")] + Tokens(z) + [];
    assert AllTokens([b, c]) == [Word("AND")] + Tokens(y) + AllTokens([c]);
    assert AllTokens(items) == [] + Tokens(x) + AllTokens([b, c]);
    assert Holds([c], u && v) == (u && v && w) && Holds([b, c], u) == Holds([c], u && v);
    assert Holds(items, true) == Holds([b, c], u);
    assert AllTokens(items) == Tokens(x) + [Word("AND")] + (Tokens(y) + [Word("AND")] + Tokens(z));
    ReadAll(db, items);
  }

  /** One or two limits: both must hold. */
  lemma LimitsRead(db: Db, t: int, what: string, equals: string, low: string, high: string, x: Text, y: Text,
      field: Text, p: bool, v: bool, w: bool)
    requires !Unbounded(low, high) && Factor(db, Tokens(field), p)
    requires low != "*" ==> Factor(db, Tokens(Cmp(t, what + ">" + equals, x)), v)
    requires high != "*" ==> Factor(db, Tokens(Cmp(t, what + "<" + equals, y)), w)
    ensures Condition(db, Tokens(Join(Limits(t, what, equals, low, high, x, y), " AND ")),
      (low != "*" ==> v) && (high != "*" ==> w))
    ensures Condition(db, Tokens(Both(field, " AND ", Join(Limits(t, what, equals, low, high, x, y), " AND "))),
      p && (low != "*" ==> v) && (high != "*" ==> w))
  {
    hide Lex, Factor, Condition, Tokens, Cmp;
    var a, b := Cmp(t, what + ">" + equals, x), Cmp(t, what + "<" + equals, y);
    var limits := Limits(t, what, equals, low, high, x, y);
    if low != "*" && high != "*" {
      assert limits == [a, b] && [a, b][1..] == [b] && Join(limits, " AND ") == Both(a, " AND ", b);
      AndReads(db, a, v, b, w);
      AllAndReads(db, field, p, a, v, b, w);
    } else {
      var one, u := if low != "*" then a else b, if low != "*" then v else w;
      assert limits == [one] && Join(limits, " AND ") == one;
      Alone(db, Tokens(one), u);
      AndReads(db, field, p, one, u);
    }
  }

  lemma BoundedTokens(t: int, op: Op, negated: bool, x: Text, values: seq<Text>, y: Text, paths: seq<Text>)
    ensures Tokens(Bounded(t, Before(op, negated), x, values, y, paths)) ==
      LeadTokens(LeadOf(op)) + ((if negated then [Word("NOT")] else []) + ([Open] +
      (Tokens(Cmp(t, Path(), x)) + [Word("AND")] + ([Open] + Tokens(Join(values, " AND ")) + [Close]) + [Word("OR")] +
       ([Open] + Tokens(Both(Cmp(t, Path(), y), " AND ", Join(paths, " AND "))) + [Close])) + [Close]))
  {
    hide Lex, Tokens, Cmp, Path, Join, Wrap, Both, Before, LeadOf, LeadTokens;
    BeforeWords(op, negated);
    NoWords();
    AndOr();
    ClosedOr();
    var a, vs := Cmp(t, Path(), x), Join(values, " AND ");
    var ps := Both(Cmp(t, Path(), y), " AND ", Join(paths, " AND "));
    BothTokens(a, " AND (", vs);
    BothTokens(Both(a, " AND (", vs), ") OR (", ps);
    WrapTokens(Before(op, negated), Both(Both(a, " AND (", vs), ") OR (", ps), "))");
  }

  lemma BeforeWords(op: Op, negated: bool)
    ensures Lex(Before(op, negated)) == LeadTokens(LeadOf(op)) + (if negated then [Word("NOT")] else []) + [Open]
  {
    hide Lex, LeadOf, LeadTokens;
    NoWords();
    AndNot();
    if negated {
      LeadWords(op, " NOT (");
      assert BinOp(op) + " NOT " + "(" == BinOp(op) + " NOT (";
    } else {
      LeadWords(op, "(");
      assert BinOp(op) + "" + "(" == BinOp(op) + "(";
    }
  }

  /** A factor that is negated, or not. */
  lemma NegatedReads(db: Db, xs: seq<Lexeme>, v: bool, negated: bool)
    requires Factor(db, xs, v)
    ensures Factor(db, (if negated then [Word("NOT")] else []) + xs, v != negated)
  {
    hide Factor;
    if negated {
      AfterNot(db, xs, v);
    } else {
      assert [] + xs == xs;
    }
  }

  function ValueLimits(t: int, low: string, high: string, inclusive: bool): Text {
    Join(Limits(t, ".value ", Equals(inclusive), low, high, Value(low), Value(high)), " AND ")
  }

  function PathLimits(key: string -> string, field: string, t: int, low: string, high: string, inclusive: bool): Text {
    Join(Limits(t, ".path OPERATOR(goiardi.", PathEquals(inclusive), low, high, Value(RangePath(key, field, low)),
      Value(RangePath(key, field, high))), " AND ")
  }

  /** The limits of a range, on values and on paths. */
  lemma BothLimitsRead(db: Db, key: string -> string, field: string, low: string, high: string, inclusive: bool, t: int)
    requires !Unbounded(low, high)
    ensures Condition(db, Tokens(ValueLimits(t, low, high, inclusive)),
      ValueBetween(db, db.rows(t).value, low, high, inclusive))
    ensures Condition(db,
      Tokens(Both(Cmp(t, Path(), Value(field + ".*")), " AND ", PathLimits(key, field, t, low, high, inclusive))),
      db.fits(db.rows(t).path, field + ".*") && PathBetween(db, key, field, db.rows(t).path, low, high, inclusive))
  {
    hide Factor, Condition, Tokens, Cmp, Path, Limits, Join, Both, Equals, PathEquals;
    var row, below := db.rows(t), Cmp(t, Path(), Value(field + ".*"));
    var p := db.fits(row.path, field + ".*");
    PathReads(db, t, field + ".*");
    ValueLimitReads(db, t, '>', inclusive, low);
    ValueLimitReads(db, t, '<', inclusive, high);
    LimitsRead(db, t, ".value ", Equals(inclusive), low, high, Value(low), Value(high), below, p,
      Beyond('>', inclusive, db.order(row.value, low)), Beyond('<', inclusive, db.order(row.value, high)));
    var a, b := RangePath(key, field, low), RangePath(key, field, high);
    PathLimitReads(db, t, '>', inclusive, a);
    PathLimitReads(db, t, '<', inclusive, b);
    LimitsRead(db, t, ".path OPERATOR(goiardi.", PathEquals(inclusive), low, high, Value(a), Value(b), below, p,
      Beyond('>', inclusive, db.pathOrder(row.path, a)), Beyond('<', inclusive, db.pathOrder(row.path, b)));
  }

  lemma UnboundedReads(db: Db, field: string, negated: bool, t: int, op: Op) returns (item: Item)
    ensures Tokens(Wrap(Before(op, negated), Cmp(t, Path(), Value(field)), ")")) == ItemTokens(item)
    ensures item.lead == LeadOf(op) && Good(db, item)
    ensures item.truth == (db.fits(db.rows(t).path, field) != negated)
  {
    hide Lex, Factor, Condition, Tokens, Cmp, Path, Before, Wrap, LeadOf, LeadTokens;
    var x, v := Cmp(t, Path(), Value(field)), db.fits(db.rows(t).path, field);
    PathReads(db, t, field);
    Alone(db, Tokens(x), v);
    InBrackets(db, Tokens(x), v);
    var inner := [Open] + Tokens(x) + [Close];
    NegatedReads(db, inner, v, negated);
    item := Item((if negated then [Word("NOT")] else []) + inner, LeadOf(op), v != negated, true);
    BeforeWords(op, negated);
    NoWords();
    WrapTokens(Before(op, negated), x, ")");
  }

  lemma BoundedReads(db: Db, key: string -> string, field: string, low: string, high: string, inclusive: bool,
      negated: bool, t: int, op: Op) returns (item: Item)
    requires !Unbounded(low, high)
    ensures Tokens(Within(key, field, low, high, inclusive, t, op, negated)) == ItemTokens(item)
    ensures item.lead == LeadOf(op) && Good(db, item)
    ensures item.truth == (BoundsMean(db, key, field, low, high, inclusive, db.rows(t)) != negated)
  {
    hide Lex, Factor, Condition, Tokens, Cmp, Path, Before, Bounded, Limits, Join, Both, LeadOf, LeadTokens,
      ValueBetween, PathBetween, Equals, PathEquals, RangePath;
    var row := db.rows(t);
    var values := Limits(t, ".value ", Equals(inclusive), low, high, Value(low), Value(high));
    var paths := Limits(t, ".path OPERATOR(goiardi.", PathEquals(inclusive), low, high,
      Value(RangePath(key, field, low)), Value(RangePath(key, field, high)));
    var fits, v := db.fits(row.path, field), ValueBetween(db, row.value, low, high, inclusive);
    var w := db.fits(row.path, field + ".*") && PathBetween(db, key, field, row.path, low, high, inclusive);
    BothLimitsRead(db, key, field, low, high, inclusive, t);
    PathReads(db, t, field);
    var x, y := Tokens(Cmp(t, Path(), Value(field))), Tokens(Join(values, " AND "));
    var z := Tokens(Both(Cmp(t, Path(), Value(field + ".*")), " AND ", Join(paths, " AND ")));
    EitherReads(db, x, fits, y, v, z, w);
    var inner := x + [Word("AND")] + ([Open] + y + [Close]) + [Word("OR")] + ([Open] + z + [Close]);
    InBrackets(db, inner, (fits && v) || w);
    NegatedReads(db, [Open] + inner + [Close], (fits && v) || w, negated);
    item := Item((if negated then [Word("NOT")] else []) + ([Open] + inner + [Close]), LeadOf(op),
      ((fits && v) || w) != negated, true);
    BoundedTokens(t, op, negated, Value(field), values, Value(field + ".*"), paths);
  }

  lemma RangeReads(db: Db, key: string -> string, field: string, start: string, end: string, inclusive: bool,
      negated: bool, t: int, op: Op) returns (item: Item)
    ensures Tokens(RangeClause(key, field, start, end, inclusive, t, op, negated)) == ItemTokens(item)
    ensures item.lead == LeadOf(op) && Good(db, item)
    ensures item.truth == RangeMeans(db, key, field, start, end, inclusive, negated, t)
  {
    hide Factor, Tokens, ItemTokens, Cmp, Before, Bounded, Limits, Wrap, LeadOf, Inside, Strings.Less;
    var (low, high) := Bounds(start, end);
    if Unbounded(low, high) {
      item := UnboundedReads(db, field, negated, t, op);
    } else {
      item := BoundedReads(db, key, field, low, high, inclusive, negated, t, op);
    }
  }

  // ---- Queries ----

  lemma LeafReads(db: Db, key: string -> string, q: Query, t: int, op: Op) returns (item: Item)
    requires !q.Sub? && !q.Not? && (q.Grouped? ==> q.terms != [])
    ensures Tokens(Clause(key, q, t, op)) == ItemTokens(item) && item.lead == LeadOf(op)
    ensures item.truth == LeafMeans(db, key, q, t) && Good(db, item)
  {
    hide Good, Tokens, ItemTokens, BasicClause, GroupedClause, RangeClause, BasicMeans, GroupedMeans, RangeMeans,
      LeadOf;
    match q
    case Basic(field, term) => item := BasicReads(db, key, field, term, t, op);
    case Grouped(field, terms) => item := GroupedReads(db, key, field, terms, t, op);
    case Range(field, start, end, inclusive, negated) =>
      item := RangeReads(db, key, field, start, end, inclusive, negated, t, op);
  }

  /** A group without terms leaves empty parentheses, which cannot be read. */
  lemma EmptyGroupJams(db: Db, key: string -> string, field: string, t: int, op: Op) returns (item: Item)
    ensures Tokens(GroupedClause(key, field, [], t, op)) == ItemTokens(item) && item.lead == LeadOf(op)
    ensures !item.good && Settled(db, item)
  {
    hide Lex, Factor, Jams, Tokens, Cmp, Path, GroupedText, LeadOf, LeadTokens;
    NoWords();
    var x, fits := Tokens(Cmp(t, Path(), Value(field))), db.fits(db.rows(t).path, field);
    var y := Tokens(Join([], " "));
    assert Tokens(Lit("")) == Lex("") by {
      NoText();
    }
    PathReads(db, t, field);
    EmptyJams(db);
    JamsInside(db, [Close]);
    JamsAfter(db, x, fits, [Open] + [Close]);
    var start := x + [Word("AND")] + ([Open] + [Close]);
    JamsInside(db, start);
    var rest := [Close] + [Word("OR")] + ([Open] + y + [Close]);
    JamsOn(db, [Open] + start, rest);
    JamsInside(db, [Open] + start + rest);
    JamsOn(db, [Open] + ([Open] + start + rest), [Close]);
    assert ValueClauses([], t) == [] && PathClauses(key, field, [], t) == [];
    GroupedTokens(t, op, Value(field), [], []);
    item := Item([Open] + ([Open] + start + rest) + [Close], LeadOf(op), false, false);
    assert [Open] + y + [Close] == [Open] + [Close];
  }

  lemma NoText()
    ensures Tokens(Lit("")) == Lex("")
  {
    hide Lex;
  }

  lemma {:induction false} OperandReads(db: Db, key: string -> string, o: Operand, t: int, op: Op) returns (item: Item)
    requires ProperOperand(o)
    ensures Tokens(ClauseOf(key, o, t, op)) == ItemTokens(item) && item.lead == LeadOf(op) && Settled(db, item)
    ensures item.good == ReadableOperand(o) && (item.good ==> item.truth == OperandMeans(db, key, o, t))
    decreases o, 1
  {
    hide Factor, Jams, Condition, Tokens, ItemTokens, LeafMeans, GroupedClause, Joined, Join, LeadOf, Clauses,
      ChainMeans;
    match o
    case Leaf(q, _) =>
      if ReadableOperand(o) {
        hide Clause;
        item := LeafReads(db, key, q, t, op);
      } else {
        item := EmptyGroupJams(db, key, q.field, t, op);
      }
    case Group(c) =>
      hide Clause;
      ChainReads(db, key, c, t);
      var x := Join(Clauses(key, c, t, NotAnOp), " ");
      if Readable(c) {
        item := JoinedReads(db, op, x, ChainMeans(db, key, c, t, true));
      } else {
        item := JoinedJams(db, op, x);
      }
  }

  lemma JoinedJams(db: Db, op: Op, x: Text) returns (item: Item)
    requires Jams(db, Tokens(x))
    ensures Tokens(Joined(op, x)) == ItemTokens(item) && item.lead == LeadOf(op) && !item.good && Settled(db, item)
  {
    hide Lex, Jams, Tokens, BinOp, Wrap;
    JamsInside(db, Tokens(x));
    JamsOn(db, [Open] + Tokens(x), [Close]);
    item := Item([Open] + Tokens(x) + [Close], LeadOf(op), false, false);
    LeadWords(op, "(");
    NoWords();
    WrapTokens(BinOp(op) + "(", x, ")");
  }

  /** All operands can be read, and each but the first has a word before it. */
  predicate Clean(items: seq<Item>) {
    (forall i :: 0 <= i < |items| ==> items[i].good) && (forall i :: 0 < i < |items| ==> items[i].lead != NoLead)
  }

  /** The truth of a chain that follows an operator. */
  function TruthAfter(db: Db, key: string -> string, c: Chain, t: int, op: Op, run: bool): bool {
    if LeadOf(op) == LeadOr then run || ChainMeans(db, key, c, t, true) else ChainMeans(db, key, c, t, run)
  }

  /** The operands a chain's clauses are, by its operators. */
  lemma {:induction false} ChainItems(db: Db, key: string -> string, c: Chain, t: int, op: Op)
    returns (items: seq<Item>)
    requires ProperChain(c)
    ensures |items| == |Clauses(key, c, t, op)| > 0 && items[0].lead == LeadOf(op)
    ensures forall i :: 0 <= i < |items| ==> Tokens(Clauses(key, c, t, op)[i]) == ItemTokens(items[i])
    ensures forall i :: 0 <= i < |items| ==> Settled(db, items[i])
    ensures Clean(items) == Readable(c)
    ensures Clean(items) ==> forall run :: Holds(items, run) == TruthAfter(db, key, c, t, op, run)
    decreases c, 0
  {
    hide Settled, Tokens, ItemTokens, ClauseOf, OperandMeans, ReadableOperand, ProperOperand, WidthOf;
    match c
    case End(o) =>
      var item := OperandReads(db, key, o, t, op);
      items := [item];
      assert items[1..] == [];
    case More(o, op', rest) =>
      var item := OperandReads(db, key, o, t, op);
      RowsAreTables(End(o));
      var more := ChainItems(db, key, rest, t + WidthOf(o), op');
      items := [item] + more;
      assert items[1..] == more;
      CleanMore(item, more);
  }

  lemma CleanMore(item: Item, more: seq<Item>)
    requires more != []
    ensures Clean([item] + more) <==> item.good && more[0].lead != NoLead && Clean(more)
  {
    var items := [item] + more;
    assert items[0] == item && items[1] == more[0];
    if Clean(items) {
      forall i | 0 <= i < |more|
        ensures more[i].good && more[i].lead != NoLead
      {
        assert items[i + 1] == more[i];
      }
    } else {
      var k :| 0 <= k < |items| && (!items[k].good || (k > 0 && items[k].lead == NoLead));
      assert k > 0 ==> items[k] == more[k - 1];
    }
  }

  lemma {:induction false} ChainReads(db: Db, key: string -> string, c: Chain, t: int)
    requires ProperChain(c)
    ensures var xs := Tokens(Join(Clauses(key, c, t, NotAnOp), " "));
      if Readable(c) then Condition(db, xs, ChainMeans(db, key, c, t, true)) else Jams(db, xs)
    decreases c, 1
  {
    hide Factor, Condition, Jams, Tokens, ItemTokens, Clauses, ChainMeans, Join, Readable, Begins;
    var items := ChainItems(db, key, c, t, NotAnOp);
    JoinTokens(Clauses(key, c, t, NotAnOp), items);
    if Readable(c) {
      forall i | 0 <= i < |items|
        ensures Factor(db, items[i].tokens, items[i].truth)
      {
        assert Settled(db, items[i]) && items[i].good;
      }
      ReadAll(db, items);
    } else {
      var k :| 0 <= k < |items| && (!items[k].good || (k > 0 && items[k].lead == NoLead));
      AllIsLost(db, items, k);
    }
  }

  /** The condition of a query is true exactly when the query's operators make it so over what its terms ask of the
      rows; it cannot be read exactly when operands are not joined or a group has no terms. */
  lemma MeansWhatItSays(db: Db, key: string -> string, c: Chain)
    requires ProperChain(c)
    ensures Read(db, Join(Clauses(key, c, 0, NotAnOp), " ")) ==
      if Readable(c) then Some(ChainMeans(db, key, c, 0, true)) else None
  {
    hide *;
    ChainReads(db, key, c, 0);
    var x := Join(Clauses(key, c, 0, NotAnOp), " ");
    if Readable(c) {
      ReadsAs(db, x, ChainMeans(db, key, c, 0, true));
    } else {
      CannotRead(db, x);
    }
  }
}
