/** SQL text with places for arguments, as search/postgres_search.go puts it together. */
module Sql {

  /** Text is built by concatenation.  A `Slot` stands for a place an argument will go, a `Param` for a numbered
      placeholder, and a `Value` for an argument written out in place. */
  datatype Text =
    | Lit(s: string)
    | Alias(table: int)
    | Declare(table: int)
    | Slot
    | Param(k: int)
    | Value(s: string)
    | Cat(left: Text, right: Text)

  /** The text with the written-out arguments taken away. */
  function Erase(x: Text): Text {
    match x
    case Value(_) => Slot
    case Cat(a, b) => Cat(Erase(a), Erase(b))
    case _ => x
  }

  /** The written-out arguments, in order. */
  function Values(x: Text): seq<string> {
    match x
    case Value(s) => [s]
    case Cat(a, b) => Values(a) + Values(b)
    case _ => []
  }

  function Slots(x: Text): nat {
    match x
    case Slot => 1
    case Cat(a, b) => Slots(a) + Slots(b)
    case _ => 0
  }

  function Params(x: Text): seq<int> {
    match x
    case Param(k) => [k]
    case Cat(a, b) => Params(a) + Params(b)
    case _ => []
  }

  /** The tables a text mentions, and those it declares. */
  function Uses(x: Text): set<int> {
    match x
    case Alias(k) => {k}
    case Cat(a, b) => Uses(a) + Uses(b)
    case _ => {}
  }

  function Declares(x: Text): set<int> {
    match x
    case Declare(k) => {k}
    case Cat(a, b) => Declares(a) + Declares(b)
    case _ => {}
  }

  /** A condition with its arguments written out: no places are left in it, and it declares no table. */
  predicate Inline(x: Text) {
    match x
    case Slot => false
    case Param(_) => false
    case Declare(_) => false
    case Cat(a, b) => Inline(a) && Inline(b)
    case _ => true
  }

  /** Gives the slots consecutive placeholders from $k on. */
  function Number(x: Text, k: int): Text {
    match x
    case Slot => Param(k)
    case Cat(a, b) => Cat(Number(a, k), Number(b, k + Slots(a)))
    case _ => x
  }

  /** What the database makes of placeholders: $k is the k-th argument. */
  function Fill(x: Text, args: seq<string>): Text {
    match x
    case Param(k) => if 1 <= k <= |args| then Value(args[k - 1]) else x
    case Cat(a, b) => Cat(Fill(a, args), Fill(b, args))
    case _ => x
  }

  function From(k: int, n: nat): seq<int> {
    seq(n, i => k + i)
  }

  lemma FromAppend(k: int, m: nat, n: nat)
    ensures From(k, m) + From(k + m, n) == From(k, m + n)
  {
  }

  lemma {:induction false} ErasedSlots(x: Text)
    requires Inline(x)
    ensures Slots(Erase(x)) == |Values(x)| && Params(Erase(x)) == []
    ensures Uses(Erase(x)) == Uses(x) && Declares(Erase(x)) == {}
  {
    match x
    case Cat(a, b) =>
      ErasedSlots(a);
      ErasedSlots(b);
    case _ =>
  }

  /** Numbering uses the numbers k, k + 1, … each once and in order, and changes nothing else. */
  lemma {:induction false} Numbered(x: Text, k: int)
    requires Params(x) == []
    ensures Params(Number(x, k)) == From(k, Slots(x)) && Slots(Number(x, k)) == 0
    ensures Uses(Number(x, k)) == Uses(x) && Declares(Number(x, k)) == Declares(x)
  {
    assert From(k, 0) == [] && From(k, 1) == [k];
    match x
    case Cat(a, b) =>
      Numbered(a, k);
      Numbered(b, k + Slots(a));
      FromAppend(k, Slots(a), Slots(b));
    case _ =>
  }

  /** The arguments $k, $k + 1, … are the given values. */
  predicate ArgsAt(args: seq<string>, k: int, values: seq<string>) {
    1 <= k && k - 1 + |values| <= |args| && args[k - 1..k - 1 + |values|] == values
  }

  lemma ArgsAtHalves(args: seq<string>, k: int, a: seq<string>, b: seq<string>)
    requires ArgsAt(args, k, a + b)
    ensures ArgsAt(args, k, a) && ArgsAt(args, k + |a|, b)
  {
    var all := args[k - 1..k - 1 + |a + b|];
    assert args[k - 1..k - 1 + |a|] == all[..|a|] && args[k - 1 + |a|..k - 1 + |a| + |b|] == all[|a|..];
  }

  lemma ArgsAtOne(args: seq<string>, k: int, v: string)
    requires ArgsAt(args, k, [v])
    ensures 1 <= k <= |args| && args[k - 1] == v
  {
    assert args[k - 1] == args[k - 1..k][0];
  }

  /** Where the arguments from $k on are those taken away, numbering and filling puts each back in its place. */
  lemma {:induction false} FillsBack(x: Text, k: int, args: seq<string>)
    requires Inline(x) && ArgsAt(args, k, Values(x))
    ensures Fill(Number(Erase(x), k), args) == x
  {
    hide ArgsAt;
    match x
    case Cat(a, b) =>
      ErasedSlots(a);
      ArgsAtHalves(args, k, Values(a), Values(b));
      FillsBack(a, k, args);
      FillsBack(b, k + |Values(a)|, args);
    case Value(s) => ArgsAtOne(args, k, s);
    case _ =>
  }

  /** Text without slots is left alone by the numbering. */
  lemma {:induction false} NumberKeeps(x: Text, k: int)
    requires Slots(x) == 0
    ensures Number(x, k) == x
  {
    match x
    case Cat(a, b) =>
      NumberKeeps(a, k);
      NumberKeeps(b, k);
    case _ =>
  }

  // ---- Lists of texts ----

  function Join(xs: seq<Text>, sep: string): Text {
    if xs == [] then Lit("")
    else if |xs| == 1 then xs[0]
    else Cat(xs[0], Cat(Lit(sep), Join(xs[1..], sep)))
  }

  function EraseAll(xs: seq<Text>): seq<Text> {
    seq(|xs|, i requires 0 <= i < |xs| => Erase(xs[i]))
  }

  function ValuesAll(xs: seq<Text>): seq<string> {
    if xs == [] then [] else Values(xs[0]) + ValuesAll(xs[1..])
  }

  ghost predicate InlineAll(xs: seq<Text>) {
    forall i :: 0 <= i < |xs| ==> Inline(xs[i])
  }

  ghost function UsesAll(xs: seq<Text>): set<int> {
    set i, a | 0 <= i < |xs| && a in Uses(xs[i]) :: a
  }

  lemma {:induction false} JoinLaws(xs: seq<Text>, sep: string)
    requires InlineAll(xs)
    ensures Inline(Join(xs, sep))
    ensures Erase(Join(xs, sep)) == Join(EraseAll(xs), sep)
    ensures Values(Join(xs, sep)) == ValuesAll(xs)
  {
    if |xs| > 1 {
      JoinLaws(xs[1..], sep);
      assert EraseAll(xs)[1..] == EraseAll(xs[1..]);
      var tail := Cat(Lit(sep), Join(xs[1..], sep));
      assert Erase(tail) == Cat(Lit(sep), Erase(Join(xs[1..], sep))) && Values(tail) == [] + Values(Join(xs[1..], sep));
    } else if |xs| == 1 {
      assert xs[1..] == [] && Values(xs[0]) + [] == Values(xs[0]);
    }
  }

  lemma {:induction false} JoinUses(xs: seq<Text>, sep: string)
    ensures Uses(Join(xs, sep)) == UsesAll(xs)
  {
    if |xs| > 1 {
      JoinUses(xs[1..], sep);
      UsesFirst(xs);
      assert Uses(Cat(Lit(sep), Join(xs[1..], sep))) == Uses(Join(xs[1..], sep));
    } else if |xs| == 1 {
      UsesFirst(xs);
      assert UsesAll(xs[1..]) == {};
    }
  }

  lemma UsesFirst(xs: seq<Text>)
    requires xs != []
    ensures UsesAll(xs) == Uses(xs[0]) + UsesAll(xs[1..])
  {
    var rest := xs[1..];
    forall a | a in Uses(xs[0])
      ensures a in UsesAll(xs)
    {
    }
    forall a | a in UsesAll(xs)
      ensures a in Uses(xs[0]) + UsesAll(rest)
    {
      var i :| 0 <= i < |xs| && a in Uses(xs[i]);
      if i > 0 {
        assert rest[i - 1] == xs[i];
      }
    }
    forall a | a in UsesAll(rest)
      ensures a in UsesAll(xs)
    {
      var i :| 0 <= i < |rest| && a in Uses(rest[i]);
      assert xs[i + 1] == rest[i];
    }
  }

  /** Texts with one argument each hold the arguments of the list, in order. */
  lemma {:induction false} OneEach(xs: seq<Text>, values: seq<string>)
    requires |xs| == |values| && forall i :: 0 <= i < |xs| ==> Values(xs[i]) == [values[i]]
    ensures ValuesAll(xs) == values
  {
    if xs != [] {
      OneEach(xs[1..], values[1..]);
    }
  }

  function FillAll(xs: seq<Text>, args: seq<string>): seq<Text> {
    seq(|xs|, i requires 0 <= i < |xs| => Fill(xs[i], args))
  }

  lemma {:induction false} JoinFill(xs: seq<Text>, sep: string, args: seq<string>)
    ensures Fill(Join(xs, sep), args) == Join(FillAll(xs, args), sep)
  {
    if |xs| > 1 {
      JoinFill(xs[1..], sep, args);
      assert FillAll(xs, args)[1..] == FillAll(xs[1..], args);
      assert Fill(Cat(Lit(sep), Join(xs[1..], sep)), args) == Cat(Lit(sep), Fill(Join(xs[1..], sep), args));
    }
  }

  ghost predicate NoSlots(xs: seq<Text>) {
    forall i :: 0 <= i < |xs| ==> Slots(xs[i]) == 0
  }

  lemma {:induction false} JoinSlots(xs: seq<Text>, sep: string)
    requires NoSlots(xs)
    ensures Slots(Join(xs, sep)) == 0
  {
    if |xs| > 1 {
      JoinSlots(xs[1..], sep);
      assert Slots(Cat(Lit(sep), Join(xs[1..], sep))) == 0;
    }
  }

  lemma {:induction false} JoinDeclares(xs: seq<Text>, sep: string, a: int)
    ensures a in Declares(Join(xs, sep)) <==> exists i :: 0 <= i < |xs| && a in Declares(xs[i])
  {
    if |xs| > 1 {
      var rest := xs[1..];
      JoinDeclares(rest, sep, a);
      assert Declares(Cat(Lit(sep), Join(rest, sep))) == Declares(Join(rest, sep));
      if i :| 0 <= i < |xs| && a in Declares(xs[i]) {
        assert i > 0 ==> rest[i - 1] == xs[i];
      }
      if j :| 0 <= j < |rest| && a in Declares(rest[j]) {
        assert xs[j + 1] == rest[j];
      }
    }
  }

  /** Text without places or arguments. */
  predicate Fixed(x: Text) {
    match x
    case Cat(a, b) => Fixed(a) && Fixed(b)
    case _ => x.Lit? || x.Alias? || x.Declare?
  }

  lemma {:induction false} FixedKept(x: Text, args: seq<string>)
    requires Fixed(x)
    ensures Fill(x, args) == x && Slots(x) == 0
  {
    match x
    case Cat(a, b) =>
      FixedKept(a, args);
      FixedKept(b, args);
    case _ =>
  }

  lemma {:induction false} JoinFixed(xs: seq<Text>, sep: string)
    requires forall i :: 0 <= i < |xs| ==> Fixed(xs[i])
    ensures Fixed(Join(xs, sep))
  {
    if |xs| > 1 {
      JoinFixed(xs[1..], sep);
      assert Fixed(Cat(Lit(sep), Join(xs[1..], sep)));
    }
  }
}
