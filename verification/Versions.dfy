/** Cookbook version strings: their order, version constraints, and the scans over the versions of a
    cookbook (cookbook/versioning.go and cookbook/cookbook.go). */
module Versions {
  import opened Wrappers
  import opened Decimal
  import opened Lists
  import opened Sorting

  const MAX_INT := 0x7fff_ffff_ffff_ffff
  const MIN_INT := -0x8000_0000_0000_0000

  /** `strings.Split` with a one-character separator. */
  function Split(s: string, sep: char): (r: seq<string>)
    ensures |r| > 0
  {
    if s == "" then [""]
    else
      var rest := Split(s[1..], sep);
      if s[0] == sep then [""] + rest else [[s[0]] + rest[0]] + rest[1..]
  }

  /** `strconv.Atoi` with its error ignored: 0 for what is not a number, the nearest int for what does not fit. */
  function AtoiOrZero(s: string): int {
    var negative := s != "" && s[0] == '-';
    var digits := if s != "" && (s[0] == '-' || s[0] == '+') then s[1..] else s;
    if digits == "" || !AllDigits(digits) then 0
    else
      var n: int := Atoi(digits);
      if negative then (if -n < MIN_INT then MIN_INT else -n)
      else if n > MAX_INT then MAX_INT else n
  }

  function CutOff(n: int): int {
    if n > MAX_INT then MAX_INT else if n < MIN_INT then MIN_INT else n
  }

  /** A number may have a sign, and is cut off at the ends of an int. */
  lemma SignedNumbers(digits: string)
    requires digits != "" && AllDigits(digits)
    ensures AtoiOrZero(digits) == AtoiOrZero("+" + digits) == CutOff(Atoi(digits))
    ensures AtoiOrZero("-" + digits) == CutOff(0 - Atoi(digits))
  {
    hide Atoi;
    assert ("+" + digits)[1..] == digits == ("-" + digits)[1..] && IsDigit(digits[0]);
  }

  /** Anything else counts as 0. */
  lemma NotNumbers(s: string)
    requires s == "" || s == "+" || s == "-" || !AllDigits(s[1..]) || !(IsDigit(s[0]) || s[0] == '-' || s[0] == '+')
    ensures AtoiOrZero(s) == 0
  {
    hide Atoi;
    if s != "" && !AllDigits(s[1..]) {
      var i :| 0 <= i < |s[1..]| && !IsDigit(s[1..][i]);
      assert !IsDigit(s[i + 1]);
    }
  }

  /** uver++ on a 64-bit int. */
  function Increment(n: int): int {
    if n == MAX_INT then MIN_INT else n + 1
  }

  // ---- The comparison ----

  function LessFrom(iVer: seq<string>, jVer: seq<string>, q: nat): bool
    decreases 3 - q
  {
    if q >= 3 then false
    else if |iVer| < q + 1 then true
    else if |jVer| < q + 1 then false
    else
      var i, j := AtoiOrZero(iVer[q]), AtoiOrZero(jVer[q]);
      if i != j then i < j else LessFrom(iVer, jVer, q + 1)
  }

  predicate VersionLess(verA: string, verB: string) {
    verA != verB && LessFrom(Split(verA, '.'), Split(verB, '.'), 0)
  }

  /** The comparison as the loop computes it. */
  method CompareVersions(verA: string, verB: string) returns (less: bool)
    ensures less == VersionLess(verA, verB)
  {
    if verA == verB {
      return false;
    }
    var iVer, jVer := Split(verA, '.'), Split(verB, '.');
    for q := 0 to 3
      invariant LessFrom(iVer, jVer, 0) == LessFrom(iVer, jVer, q)
    {
      if |iVer| < q + 1 {
        return true;
      } else if |jVer| < q + 1 {
        return false;
      }
      var ici, jci := AtoiOrZero(iVer[q]), AtoiOrZero(jVer[q]);
      if ici != jci {
        return ici < jci;
      }
    }
    return false;
  }

  /** What a canonical version string stands for: two or three numbers. */
  datatype Version = Version(major: int, minor: int, patch: Option<int>)

  predicate InRange(v: Version) {
    0 <= v.major <= MAX_INT && 0 <= v.minor <= MAX_INT && (v.patch.Some? ==> 0 <= v.patch.value <= MAX_INT)
  }

  function Parts(v: Version): seq<string> {
    [ItoaInt(v.major), ItoaInt(v.minor)] + if v.patch.Some? then [ItoaInt(v.patch.value)] else []
  }

  function Render(v: Version): string {
    ItoaInt(v.major) + "." + ItoaInt(v.minor) + if v.patch.Some? then "." + ItoaInt(v.patch.value) else ""
  }

  /** a comes before b: number by number, and two numbers before the same two with a third. */
  predicate Before(a: Version, b: Version) {
    if a.major != b.major then a.major < b.major
    else if a.minor != b.minor then a.minor < b.minor
    else b.patch.Some? && (a.patch.None? || a.patch.value < b.patch.value)
  }

  ghost predicate NoDot(s: string) {
    '.' !in s
  }

  /** Text without the separator is one part, and a separator ends a part. */
  lemma {:induction false} SplitWhole(s: string, sep: char)
    requires sep !in s
    ensures Split(s, sep) == [s]
  {
    if s != "" {
      SplitWhole(s[1..], sep);
      assert s == [s[0]] + s[1..];
    }
  }

  lemma {:induction false} SplitAt(s: string, sep: char, t: string)
    requires sep !in s
    ensures Split(s + [sep] + t, sep) == [s] + Split(t, sep)
  {
    if s == "" {
      assert (s + [sep] + t)[1..] == t;
    } else {
      SplitAt(s[1..], sep, t);
      assert s == [s[0]] + s[1..];
      assert (s + [sep] + t)[1..] == s[1..] + [sep] + t;
    }
  }

  /** There is one part more than there are separators. */
  lemma {:induction false} SplitCount(s: string, sep: char)
    ensures |Split(s, sep)| == multiset(s)[sep] + 1
  {
    if s != "" {
      SplitCount(s[1..], sep);
      assert s == [s[0]] + s[1..];
    }
  }

  lemma SplitOne(s: string)
    requires NoDot(s)
    ensures Split(s, '.') == [s]
  {
    SplitWhole(s, '.');
  }

  lemma SplitFirst(s: string, t: string)
    requires NoDot(s)
    ensures Split(s + "." + t, '.') == [s] + Split(t, '.')
  {
    SplitAt(s, '.', t);
  }

  lemma ItoaHasNoDot(n: int)
    ensures NoDot(ItoaInt(n))
  {
    if n >= 0 {
      assert AllDigits(Itoa(n));
    } else {
      assert AllDigits(Itoa(-n));
    }
  }

  lemma AtoiItoaInt(n: int)
    requires MIN_INT <= n <= MAX_INT
    ensures AtoiOrZero(ItoaInt(n)) == n
  {
    hide Itoa, Atoi;
    if n >= 0 {
      AtoiItoa(n);
      assert AllDigits(Itoa(n));
    } else {
      AtoiItoa(-n);
      assert ItoaInt(n)[1..] == Itoa(-n);
    }
  }

  lemma SplitRendered(v: Version)
    ensures Split(Render(v), '.') == Parts(v)
  {
    hide ItoaInt, Split;
    ItoaHasNoDot(v.major);
    ItoaHasNoDot(v.minor);
    if v.patch.Some? {
      ItoaHasNoDot(v.patch.value);
      var tail := ItoaInt(v.minor) + "." + ItoaInt(v.patch.value);
      assert Render(v) == ItoaInt(v.major) + "." + tail;
      SplitFirst(ItoaInt(v.major), tail);
      SplitFirst(ItoaInt(v.minor), ItoaInt(v.patch.value));
      SplitOne(ItoaInt(v.patch.value));
    } else {
      SplitFirst(ItoaInt(v.major), ItoaInt(v.minor));
      SplitOne(ItoaInt(v.minor));
      assert Render(v) == ItoaInt(v.major) + "." + ItoaInt(v.minor);
    }
  }

  ghost predicate Representable(v: Version) {
    MIN_INT <= v.major <= MAX_INT && MIN_INT <= v.minor <= MAX_INT &&
      (v.patch.Some? ==> MIN_INT <= v.patch.value <= MAX_INT)
  }

  lemma PartsAreNumbers(v: Version)
    requires Representable(v)
    ensures |Parts(v)| == (if v.patch.Some? then 3 else 2)
    ensures AtoiOrZero(Parts(v)[0]) == v.major && AtoiOrZero(Parts(v)[1]) == v.minor
    ensures v.patch.Some? ==> AtoiOrZero(Parts(v)[2]) == v.patch.value
  {
    hide ItoaInt, AtoiOrZero;
    AtoiItoaInt(v.major);
    AtoiItoaInt(v.minor);
    if v.patch.Some? {
      AtoiItoaInt(v.patch.value);
    }
  }

  /** On canonical strings the code's comparison is the order of the versions. */
  lemma LessIsBefore(a: Version, b: Version)
    requires Representable(a) && Representable(b)
    ensures VersionLess(Render(a), Render(b)) <==> Before(a, b)
    ensures Render(a) == Render(b) <==> a == b
  {
    hide ItoaInt, AtoiOrZero, Split, Parts, Render;
    SplitRendered(a);
    SplitRendered(b);
    PartsAreNumbers(a);
    PartsAreNumbers(b);
    if Render(a) == Render(b) {
      assert Parts(a) == Parts(b);
    }
    var i, j := Parts(a), Parts(b);
    assert LessFrom(i, j, 0) == if a.major != b.major then a.major < b.major else LessFrom(i, j, 1);
    assert LessFrom(i, j, 1) == if a.minor != b.minor then a.minor < b.minor else LessFrom(i, j, 2);
    assert LessFrom(i, j, 3) == false;
  }

  /** A string that some version with numbers in range renders to. */
  ghost predicate Canonical(s: string) {
    exists v :: InRange(v) && s == Render(v)
  }

  ghost function Parsed(s: string): (v: Version)
    requires Canonical(s)
    ensures InRange(v) && s == Render(v)
  {
    var v :| InRange(v) && s == Render(v);
    v
  }

  /** On canonical strings the comparison is a strict total order. */
  lemma StrictTotalOrder(a: string, b: string, c: string)
    requires Canonical(a) && Canonical(b) && Canonical(c)
    ensures !VersionLess(a, a)
    ensures VersionLess(a, b) && VersionLess(b, c) ==> VersionLess(a, c)
    ensures a == b || VersionLess(a, b) || VersionLess(b, a)
  {
    hide VersionLess, Render;
    LessIsBefore(Parsed(a), Parsed(a));
    LessIsBefore(Parsed(a), Parsed(b));
    LessIsBefore(Parsed(b), Parsed(a));
    LessIsBefore(Parsed(b), Parsed(c));
    LessIsBefore(Parsed(a), Parsed(c));
  }

  // ---- Where it is an order ----

  /** The numbers a comparison looks at: those of the first three parts. */
  function Numbers(s: string): (r: seq<int>)
    ensures 0 < |r| <= 3
  {
    NumbersOf(Split(s, '.'))
  }

  function NumbersOf(parts: seq<string>): (r: seq<int>)
    ensures |r| == if |parts| < 3 then |parts| else 3
  {
    seq(if |parts| < 3 then |parts| else 3, q requires 0 <= q < |parts| => AtoiOrZero(parts[q]))
  }

  /** Number by number, and a list before its continuations. */
  predicate ListLess(x: seq<int>, y: seq<int>) {
    y != [] && (x == [] || x[0] < y[0] || (x[0] == y[0] && ListLess(x[1..], y[1..])))
  }

  lemma {:induction false} ListLessTrans(x: seq<int>, y: seq<int>, z: seq<int>)
    requires ListLess(x, y) && ListLess(y, z)
    ensures ListLess(x, z)
  {
    if x != [] && x[0] == y[0] && y[0] == z[0] {
      ListLessTrans(x[1..], y[1..], z[1..]);
    }
  }

  lemma {:induction false} ListLessTotal(x: seq<int>, y: seq<int>)
    ensures x == y || ListLess(x, y) || ListLess(y, x)
    ensures !(ListLess(x, y) && ListLess(y, x)) && !ListLess(x, x)
  {
    if x != [] {
      ListLessTotal(x[1..], x[1..]);
    }
    if x != [] && y != [] && x[0] == y[0] {
      ListLessTotal(x[1..], y[1..]);
      assert x == [x[0]] + x[1..] && y == [y[0]] + y[1..];
    }
  }

  lemma {:induction false} LessFromNumbers(i: seq<string>, j: seq<string>, q: nat)
    requires q <= 3 && q <= |i| && q <= |j|
    ensures var x, y := NumbersOf(i)[q..], NumbersOf(j)[q..];
      LessFrom(i, j, q) <==> ListLess(x, y) || (x == y && |NumbersOf(i)| < 3)
    decreases 3 - q
  {
    hide AtoiOrZero;
    var m, n := NumbersOf(i), NumbersOf(j);
    if q < |i| && q < |j| && q < 3 {
      LessFromNumbers(i, j, q + 1);
      assert m[q..] == [m[q]] + m[q + 1..] && n[q..] == [n[q]] + n[q + 1..];
    }
  }

  /** The comparison of any two strings: by their numbers, except that of different strings with the same one or two
      numbers each comes before the other. */
  lemma LessByNumbers(a: string, b: string)
    ensures VersionLess(a, b) <==>
      a != b && (ListLess(Numbers(a), Numbers(b)) || (Numbers(a) == Numbers(b) && |Numbers(a)| < 3))
  {
    hide LessFrom, Split, NumbersOf;
    LessFromNumbers(Split(a, '.'), Split(b, '.'), 0);
    assert Numbers(a)[0..] == Numbers(a) && Numbers(b)[0..] == Numbers(b);
  }

  /** Two strings come before each other exactly when they differ and have the same numbers, fewer than three. */
  lemma BothWaysExactly(a: string, b: string)
    ensures VersionLess(a, b) && VersionLess(b, a) <==> a != b && Numbers(a) == Numbers(b) && |Numbers(a)| < 3
  {
    hide VersionLess, Numbers;
    LessByNumbers(a, b);
    LessByNumbers(b, a);
    ListLessTotal(Numbers(a), Numbers(b));
  }

  /** Neither comes before the other exactly when they are equal or have the same three numbers. */
  lemma NeitherWayExactly(a: string, b: string)
    ensures !VersionLess(a, b) && !VersionLess(b, a) <==> a == b || (Numbers(a) == Numbers(b) && |Numbers(a)| == 3)
  {
    hide VersionLess, Numbers;
    LessByNumbers(a, b);
    LessByNumbers(b, a);
    ListLessTotal(Numbers(a), Numbers(b));
  }

  /** Along two comparisons the outer one holds exactly when its strings differ. */
  lemma TransitiveExactly(a: string, b: string, c: string)
    requires VersionLess(a, b) && VersionLess(b, c)
    ensures VersionLess(a, c) <==> a != c
  {
    hide VersionLess, Numbers, ListLess;
    LessByNumbers(a, b);
    LessByNumbers(b, c);
    LessByNumbers(a, c);
    if ListLess(Numbers(a), Numbers(b)) && ListLess(Numbers(b), Numbers(c)) {
      ListLessTrans(Numbers(a), Numbers(b), Numbers(c));
    }
  }

  /** A strict total order on a set of strings. */
  ghost predicate StrictOrderOn(s: set<string>) {
    (forall a, b :: a in s && b in s && VersionLess(a, b) ==> !VersionLess(b, a)) &&
    (forall a, b, c :: a in s && b in s && c in s && VersionLess(a, b) && VersionLess(b, c) ==> VersionLess(a, c)) &&
    (forall a, b :: a in s && b in s && a != b ==> VersionLess(a, b) || VersionLess(b, a))
  }

  /** The comparison orders a set of strings exactly when no two of them have the same numbers. */
  lemma OrdersExactly(s: set<string>)
    ensures StrictOrderOn(s) <==> forall a, b :: a in s && b in s && Numbers(a) == Numbers(b) ==> a == b
  {
    hide VersionLess, Numbers;
    forall a, b | a in s && b in s
      ensures VersionLess(a, b) && VersionLess(b, a) <==> a != b && Numbers(a) == Numbers(b) && |Numbers(a)| < 3
      ensures !VersionLess(a, b) && !VersionLess(b, a) <==> a == b || (Numbers(a) == Numbers(b) && |Numbers(a)| == 3)
    {
      BothWaysExactly(a, b);
      NeitherWayExactly(a, b);
    }
    forall a, b, c | a in s && b in s && c in s && VersionLess(a, b) && VersionLess(b, c)
      ensures VersionLess(a, c) <==> a != c
    {
      TransitiveExactly(a, b, c);
    }
  }

  /** These two come before each other. */
  lemma NotAnOrderElsewhere()
    ensures VersionLess("1.0", "01.0") && VersionLess("01.0", "1.0")
  {
    hide AtoiOrZero, Split;
    assert Split("1.0", '.') == ["1", "0"] by {
      assert "1.0" == "1" + "." + "0";
      SplitFirst("1", "0");
      SplitOne("0");
    }
    assert Split("01.0", '.') == ["01", "0"] by {
      assert "01.0" == "01" + "." + "0";
      SplitFirst("01", "0");
      SplitOne("0");
    }
    assert AtoiOrZero("1") == 1 && AtoiOrZero("01") == 1 by {
      OneOnly();
    }
    var i, j := ["1", "0"], ["01", "0"];
    assert LessFrom(i, j, 2) && LessFrom(j, i, 2);
    assert LessFrom(i, j, 1) && LessFrom(j, i, 1);
  }

  lemma OneOnly()
    ensures AtoiOrZero("1") == 1 && AtoiOrZero("01") == 1
  {
    assert "1"[..0] == "" && "01"[..1] == "0" && "0"[..0] == "";
    assert Atoi("0") == 0 && Atoi("1") == 1;
  }

  // ---- Constraints ----

  datatype Action = Ok | Skip | Break | InvalidOp

  function UpperBound(verB: string): string {
    var pv := Split(verB, '.');
    if |pv| == 3 then pv[0] + "." + ItoaInt(Increment(AtoiOrZero(pv[1])))
    else ItoaInt(Increment(AtoiOrZero(pv[0]))) + ".0"
  }

  function VerConstraintCheck(verA: string, verB: string, op: string): Action {
    if op == "=" then
      if verA == verB then Ok else if VersionLess(verA, verB) then Break else Skip
    else if op == ">" then
      if verA == verB || VersionLess(verA, verB) then Break else Ok
    else if op == "<" then
      if verA == verB || !VersionLess(verA, verB) then Skip else Ok
    else if op == ">=" then
      if !VersionLess(verA, verB) then Ok else Break
    else if op == "<=" then
      if verA == verB || VersionLess(verA, verB) then Ok else Skip
    else if op == "~>" then
      if VersionLess(verA, verB) then Break
      else if !VersionLess(verA, verB) && VersionLess(verA, UpperBound(verB)) then Ok else Skip
    else InvalidOp
  }

  predicate IsOperator(op: string) {
    op == "=" || op == ">" || op == "<" || op == ">=" || op == "<=" || op == "~>"
  }

  /** What a constraint means: for ~>, at least b, with the same numbers as b up to but not including its last. */
  predicate Satisfies(a: Version, b: Version, op: string)
    requires IsOperator(op)
  {
    if op == "=" then a == b
    else if op == ">" then Before(b, a)
    else if op == "<" then Before(a, b)
    else if op == ">=" then !Before(a, b)
    else if op == "<=" then !Before(b, a)
    else !Before(a, b) && a.major == b.major && (b.patch.Some? ==> a.minor == b.minor)
  }

  /** The operators among each other, and that greater is later. */
  lemma OperatorLaws(a: Version, b: Version)
    ensures Satisfies(a, b, "<") <==> Satisfies(b, a, ">")
    ensures Satisfies(a, b, ">=") <==> Satisfies(a, b, ">") || Satisfies(a, b, "=")
    ensures Satisfies(a, b, "<=") <==> Satisfies(a, b, "<") || Satisfies(a, b, "=")
    ensures a.major > b.major ==> Satisfies(a, b, ">")
    ensures Satisfies(a, b, "~>") <==>
      Satisfies(a, b, ">=") && a.major == b.major && (b.patch.Some? ==> a.minor == b.minor)
  {
  }

  /** The number ~> counts up, which must leave room for it. */
  function Bumped(b: Version): int {
    if b.patch.Some? then b.minor else b.major
  }

  predicate NoOverflow(b: Version, op: string) {
    op == "~>" ==> Bumped(b) < MAX_INT
  }

  lemma UpperBoundIs(b: Version) returns (u: Version)
    requires InRange(b)
    ensures UpperBound(Render(b)) == Render(u) && Representable(u) && u.patch.None?
    ensures b.patch.Some? ==> u.major == b.major && u.minor == Increment(b.minor)
    ensures b.patch.None? ==> u.major == Increment(b.major) && u.minor == 0
  {
    hide AtoiOrZero, Split;
    SplitRendered(b);
    PartsAreNumbers(b);
    if b.patch.Some? {
      u := Version(b.major, Increment(b.minor), None);
    } else {
      u := Version(Increment(b.major), 0, None);
      assert ItoaInt(0) == "0";
    }
  }

  /** The verdict is Ok exactly on satisfying versions, and Break only where no lower version satisfies either. */
  lemma CheckIsRight(a: Version, b: Version, op: string)
    requires InRange(a) && InRange(b) && IsOperator(op) && NoOverflow(b, op)
    ensures VerConstraintCheck(Render(a), Render(b), op) == Ok <==> Satisfies(a, b, op)
    ensures VerConstraintCheck(Render(a), Render(b), op) == Break ==>
      forall lower :: Before(lower, a) ==> !Satisfies(lower, b, op)
    ensures VerConstraintCheck(Render(a), Render(b), op) != InvalidOp
  {
    hide VersionLess, Render, UpperBound;
    LessIsBefore(a, b);
    if op == "~>" {
      var u := UpperBoundIs(b);
      LessIsBefore(a, u);
    }
  }

  /** When the number to count up is the largest int, it wraps around and ~> accepts nothing, not even b itself. */
  lemma PessimisticOverflow(a: Version, b: Version)
    requires InRange(a) && InRange(b) && Bumped(b) == MAX_INT
    ensures VerConstraintCheck(Render(a), Render(b), "~>") != Ok && Satisfies(b, b, "~>")
  {
    hide VersionLess, Render, UpperBound;
    LessIsBefore(a, b);
    var u := UpperBoundIs(b);
    LessIsBefore(a, u);
  }

  /** So the verdict is right on every version exactly when nothing overflows. */
  lemma RightExactlyWithoutOverflow(b: Version, op: string)
    requires InRange(b) && IsOperator(op)
    ensures NoOverflow(b, op) <==>
      forall a :: InRange(a) ==> (VerConstraintCheck(Render(a), Render(b), op) == Ok <==> Satisfies(a, b, op))
  {
    hide VerConstraintCheck, Render, Satisfies;
    if NoOverflow(b, op) {
      forall a | InRange(a)
        ensures VerConstraintCheck(Render(a), Render(b), op) == Ok <==> Satisfies(a, b, op)
      {
        CheckIsRight(a, b, op);
      }
    } else {
      PessimisticOverflow(b, b);
    }
  }

  // ---- The versions of a cookbook, newest first ----

  ghost predicate AllCanonical(s: seq<string>) {
    forall i :: 0 <= i < |s| ==> Canonical(s[i])
  }

  ghost predicate Descending(s: seq<string>) {
    forall i, j :: 0 <= i < j < |s| ==> VersionLess(s[j], s[i])
  }

  predicate Above(a: string, b: string) {
    VersionLess(b, a)
  }

  /** `sort.Sort(sort.Reverse(keys))`. */
  function SortDescending(keys: seq<string>): seq<string> {
    Sort(keys, Above)
  }

  lemma AboveOrders(keys: seq<string>)
    requires AllCanonical(keys)
    ensures Sorting.Orders(Above, keys)
  {
    hide VersionLess, Canonical;
    forall a, b, c | a in keys && b in keys && c in keys
      ensures Above(a, b) ==> !Above(b, a)
      ensures !Above(b, a) && !Above(c, b) ==> !Above(c, a)
    {
      StrictTotalOrder(a, b, a);
      StrictTotalOrder(a, b, c);
      StrictTotalOrder(b, a, b);
      StrictTotalOrder(c, b, a);
      StrictTotalOrder(a, c, b);
      StrictTotalOrder(c, a, b);
    }
  }

  lemma SortingDescends(keys: seq<string>)
    requires AllCanonical(keys) && Distinct(keys)
    ensures Descending(SortDescending(keys)) && AllCanonical(SortDescending(keys))
    ensures forall y :: y in SortDescending(keys) <==> y in keys
  {
    hide VersionLess, Canonical, Sort;
    var sorted := SortDescending(keys);
    AboveOrders(keys);
    SortSorts(keys, Above);
    SortKeeps(keys, Above);
    SameMembers(sorted, keys);
    assert AllCanonical(sorted) by {
      assert forall i :: 0 <= i < |sorted| ==> sorted[i] in keys;
    }
    DistinctKept(sorted, keys);
    forall i, j | 0 <= i < j < |sorted|
      ensures VersionLess(sorted[j], sorted[i])
    {
      assert !Above(sorted[j], sorted[i]);
      StrictTotalOrder(sorted[i], sorted[j], sorted[i]);
    }
  }

  /** Any correct sort gives the same list: there is only one descending order of given canonical versions. */
  lemma {:induction false} OneDescendingOrder(s: seq<string>, t: seq<string>)
    requires AllCanonical(s) && AllCanonical(t) && Descending(s) && Descending(t)
    requires forall x :: x in s <==> x in t
    ensures s == t
  {
    hide VersionLess, Canonical;
    if s == [] {
      assert forall i :: 0 <= i < |t| ==> t[i] in t;
    } else {
      assert s[0] in t;
      assert t[0] in s;
      StrictTotalOrder(s[0], t[0], s[0]);
      assert s == [s[0]] + s[1..] && t == [t[0]] + t[1..];
      assert s[0] == t[0];
      HeadNotBelow(s);
      HeadNotBelow(t);
      assert forall x :: x in s[1..] <==> x in s && x != s[0];
      assert forall x :: x in t[1..] <==> x in t && x != t[0];
      OneDescendingOrder(s[1..], t[1..]);
    }
  }

  lemma HeadNotBelow(s: seq<string>)
    requires AllCanonical(s) && Descending(s) && s != []
    ensures s[0] !in s[1..]
  {
    hide VersionLess, Canonical;
    StrictTotalOrder(s[0], s[0], s[0]);
  }

  method SortedVersions(versions: set<string>) returns (sorted: seq<string>)
    requires forall v :: v in versions ==> Canonical(v)
    ensures Descending(sorted) && AllCanonical(sorted) && forall v :: v in sorted <==> v in versions
  {
    hide VersionLess, Canonical, SortDescending;
    var keys: seq<string> := [];
    var todo := versions;
    while todo != {}
      invariant todo <= versions && Distinct(keys) && AllCanonical(keys)
      invariant forall v :: v in keys <==> v in versions - todo
    {
      var k :| k in todo;
      todo := todo - {k};
      assert forall i :: 0 <= i < |keys| ==> keys[i] in keys;
      DistinctAppend(keys, [k]);
      keys := keys + [k];
    }
    sorted := SortDescending(keys);
    SortingDescends(keys);
  }

  // ---- The scans ----

  datatype Constraint = Constraint(op: string, version: string)

  /** `strings.Split(constraint, " ")` with exactly two parts. */
  function ParseConstraint(constraint: string): Option<Constraint> {
    var traints := Split(constraint, ' ');
    if |traints| == 2 then Some(Constraint(traints[0], traints[1])) else None
  }

  /** An operator, a blank and a version; nothing else can be read. */
  lemma ParsesExactly(constraint: string, op: string, ver: string)
    ensures ParseConstraint(constraint).Some? <==> multiset(constraint)[' '] == 1
    ensures ' ' !in op && ' ' !in ver ==> ParseConstraint(op + " " + ver) == Some(Constraint(op, ver))
  {
    hide Split;
    SplitCount(constraint, ' ');
    if ' ' !in op && ' ' !in ver {
      SplitAt(op, ' ', ver);
      SplitWhole(ver, ' ');
    }
  }

  lemma RenderHasNoBlank(v: Version)
    ensures ' ' !in Render(v)
  {
    hide Itoa;
    assert forall n: nat :: AllDigits(Itoa(n));
  }

  /** What is written with an operator and a canonical version is read as that. */
  lemma ParsesAsWritten(op: string, b: Version)
    requires IsOperator(op) && InRange(b)
    ensures ParseConstraint(op + " " + Render(b)) == Some(Constraint(op, Render(b)))
    ensures Canonical(Render(b)) && Parsed(Render(b)) == b
  {
    hide ParseConstraint, Render;
    RenderHasNoBlank(b);
    assert ' ' !in op;
    ParsesExactly("", op, Render(b));
    assert Canonical(Render(b));
    LessIsBefore(Parsed(Render(b)), b);
  }

  ghost predicate Usable(c: Constraint) {
    IsOperator(c.op) ==> Canonical(c.version) && NoOverflow(Parsed(c.version), c.op)
  }

  ghost predicate Fulfils(v: string, c: Constraint)
    requires Canonical(v) && Usable(c) && IsOperator(c.op)
  {
    Satisfies(Parsed(v), Parsed(c.version), c.op)
  }

  /** An operator the code does not know constrains nothing here. */
  ghost predicate Admitted(v: string, c: Option<Constraint>)
    requires Canonical(v) && (c.Some? ==> Usable(c.value))
  {
    c.None? || !IsOperator(c.value.op) || Fulfils(v, c.value)
  }

  ghost function Matching(s: seq<string>, c: Option<Constraint>): seq<string>
    requires AllCanonical(s) && (c.Some? ==> Usable(c.value))
  {
    if s == [] then [] else Matching(s[..|s| - 1], c) + if Admitted(s[|s| - 1], c) then [s[|s| - 1]] else []
  }

  lemma {:induction false} MatchingSplits(s: seq<string>, c: Option<Constraint>, i: nat)
    requires AllCanonical(s) && (c.Some? ==> Usable(c.value)) && i <= |s|
    ensures Matching(s, c) == Matching(s[..i], c) + Matching(s[i..], c)
  {
    hide Canonical, Usable, Admitted;
    var last := |s| - 1;
    if i == |s| {
      assert s[..i] == s && s[i..] == [];
    } else {
      MatchingLast(s, c);
      MatchingLast(s[i..], c);
      assert s[..last][..i] == s[..i] && s[i..][..last - i] == s[..last][i..] && s[i..][last - i] == s[last];
      hide Matching;
      MatchingSplits(s[..last], c, i);
    }
  }

  lemma MatchingLast(s: seq<string>, c: Option<Constraint>)
    requires s != [] && AllCanonical(s) && (c.Some? ==> Usable(c.value))
    ensures Matching(s, c) == Matching(s[..|s| - 1], c) + if Admitted(s[|s| - 1], c) then [s[|s| - 1]] else []
  {
    hide Canonical, Usable, Admitted;
  }

  lemma {:induction false} MatchingNone(s: seq<string>, c: Option<Constraint>)
    requires AllCanonical(s) && (c.Some? ==> Usable(c.value))
    requires forall i :: 0 <= i < |s| ==> !Admitted(s[i], c)
    ensures Matching(s, c) == []
  {
    if s != [] {
      MatchingNone(s[..|s| - 1], c);
    }
  }

  lemma CheckOnStrings(v: string, c: Constraint)
    requires Canonical(v) && Usable(c) && IsOperator(c.op)
    ensures VerConstraintCheck(v, c.version, c.op) == Ok <==> Fulfils(v, c)
    ensures VerConstraintCheck(v, c.version, c.op) != InvalidOp
  {
    hide VerConstraintCheck, Render;
    CheckIsRight(Parsed(v), Parsed(c.version), c.op);
  }

  /** After a Break nothing further down the list satisfies the constraint. */
  lemma BreakIsFinal(s: seq<string>, c: Constraint, i: nat)
    requires AllCanonical(s) && Descending(s) && Usable(c) && i < |s|
    requires VerConstraintCheck(s[i], c.version, c.op) == Break
    ensures Matching(s[i..], Some(c)) == []
  {
    hide VersionLess, Render;
    var a, b := Parsed(s[i]), Parsed(c.version);
    CheckIsRight(a, b, c.op);
    forall k | i <= k < |s|
      ensures !Admitted(s[k], Some(c))
    {
      if k > i {
        LessIsBefore(Parsed(s[k]), a);
      }
    }
    MatchingNone(s[i..], Some(c));
  }

  function Take(s: seq<string>, all: bool, n: int): seq<string> {
    if all || n >= |s| then s else if n < 0 then [] else s[..n]
  }

  /** One version of the scan. */
  lemma ScanStep(s: seq<string>, c: Option<Constraint>, i: nat)
    requires AllCanonical(s) && (c.Some? ==> Usable(c.value)) && i < |s|
    ensures Matching(s[..i + 1], c) == Matching(s[..i], c) + if Admitted(s[i], c) then [s[i]] else []
    ensures c.Some? ==>
      (VerConstraintCheck(s[i], c.value.version, c.value.op) in {Ok, InvalidOp} <==> Admitted(s[i], c))
  {
    hide VerConstraintCheck, Canonical;
    assert s[..i + 1][..i] == s[..i];
    if c.Some? && IsOperator(c.value.op) {
      CheckOnStrings(s[i], c.value);
    }
    if c.Some? && !IsOperator(c.value.op) {
      UnknownOperator(s[i], c.value);
    }
  }

  lemma UnknownOperator(v: string, c: Constraint)
    requires !IsOperator(c.op)
    ensures VerConstraintCheck(v, c.version, c.op) == InvalidOp
  {
  }

  /** The scan of infoHashBase: the first n versions, newest first, that the constraint admits. */
  method InfoVersions(sorted: seq<string>, all: bool, n: int, c: Option<Constraint>) returns (r: seq<string>)
    requires AllCanonical(sorted) && Descending(sorted) && (c.Some? ==> Usable(c.value))
    ensures r == Take(Matching(sorted, c), all, n)
  {
    hide VerConstraintCheck, Matching, Canonical, Usable, Descending, Admitted;
    r := [];
    var nr := 0;
    MatchingEmpty(c);
    assert sorted[..0] == [];
    for i := 0 to |sorted|
      invariant nr == |r| && r == Matching(sorted[..i], c)
      invariant all || nr <= n || nr == 0
    {
      MatchingSplits(sorted, c, i);
      if !all && nr >= n {
        return;
      }
      ScanStep(sorted, c, i);
      if c.Some? {
        var action := VerConstraintCheck(sorted[i], c.value.version, c.value.op);
        if action == Skip {
          continue;
        } else if action == Break {
          BreakIsFinal(sorted, c.value, i);
          return;
        }
      } else {
        NothingRefused(sorted[i]);
      }
      r := r + [sorted[i]];
      nr := nr + 1;
    }
    assert sorted[..|sorted|] == sorted;
  }

  lemma MatchingEmpty(c: Option<Constraint>)
    requires c.Some? ==> Usable(c.value)
    ensures Matching([], c) == []
  {
  }

  lemma NothingRefused(v: string)
    requires Canonical(v)
    ensures Admitted(v, None)
  {
  }

  /** Whether some version of the set fulfils the constraint. */
  ghost predicate SomeFulfils(versions: set<string>, c: Constraint)
    requires (forall v :: v in versions ==> Canonical(v)) && Usable(c) && IsOperator(c.op)
  {
    exists v :: v in versions && Fulfils(v, c)
  }

  ghost predicate IsGreatest(versions: set<string>, c: Constraint, r: string)
    requires (forall v :: v in versions ==> Canonical(v)) && Usable(c) && IsOperator(c.op)
  {
    r in versions && Fulfils(r, c) && forall v :: v in versions && Fulfils(v, c) ==> v == r || VersionLess(v, r)
  }

  /** The newest version; the cached answer of an earlier call is not kept here. */
  method LatestVersion(versions: set<string>) returns (r: string)
    requires versions != {} && forall v :: v in versions ==> Canonical(v)
    ensures r in versions && forall v :: v in versions ==> v == r || VersionLess(v, r)
  {
    hide VersionLess, Canonical;
    var sorted := SortedVersions(versions);
    assert sorted != [] by {
      var v :| v in versions;
      assert v in sorted;
    }
    r := sorted[0];
    assert r in sorted;
  }

  /** The greatest version that satisfies the operator and the bound, if any does. */
  ghost predicate Greatest(versions: set<string>, b: Version, op: string, r: Option<string>)
    requires (forall v :: v in versions ==> Canonical(v)) && IsOperator(op)
  {
    match r
    case None => forall v :: v in versions ==> !Satisfies(Parsed(v), b, op)
    case Some(best) =>
      best in versions && Satisfies(Parsed(best), b, op) &&
      forall v :: v in versions && Satisfies(Parsed(v), b, op) ==> v == best || Before(Parsed(v), Parsed(best))
  }

  /** What the answer to a written constraint means. */
  lemma LatestMeans(versions: set<string>, constraint: string)
    requires (forall v :: v in versions ==> Canonical(v))
    requires ParseConstraint(constraint).Some? ==> Usable(ParseConstraint(constraint).value)
    ensures forall op, b :: IsOperator(op) && InRange(b) && constraint == op + " " + Render(b) ==>
      constraint != "" && ParseConstraint(constraint) == Some(Constraint(op, Render(b)))
    ensures forall op, b, r :: IsOperator(op) && InRange(b) && constraint == op + " " + Render(b) ==>
      (Greatest(versions, b, op, r) <==>
        var c := Constraint(op, Render(b));
        if r.None? then !SomeFulfils(versions, c) else IsGreatest(versions, c, r.value))
  {
    hide ParseConstraint, Render, Satisfies, VersionLess;
    forall op, b | IsOperator(op) && InRange(b) && constraint == op + " " + Render(b)
      ensures constraint != "" && ParseConstraint(constraint) == Some(Constraint(op, Render(b)))
      ensures Canonical(Render(b)) && Parsed(Render(b)) == b
    {
      ParsesAsWritten(op, b);
    }
    forall op, b, r | IsOperator(op) && InRange(b) && constraint == op + " " + Render(b)
      ensures Greatest(versions, b, op, r) <==>
        var c := Constraint(op, Render(b));
        if r.None? then !SomeFulfils(versions, c) else IsGreatest(versions, c, r.value)
    {
      if r.Some? && r.value in versions {
        forall v | v in versions
          ensures VersionLess(v, r.value) <==> Before(Parsed(v), Parsed(r.value))
        {
          LessIsBefore(Parsed(v), Parsed(r.value));
        }
      }
    }
  }

  /** The greatest of the versions that fulfils a constraint; nothing for an unknown operator. */
  method LatestFulfilling(versions: set<string>, c: Constraint) returns (r: Option<string>)
    requires (forall v :: v in versions ==> Canonical(v)) && Usable(c)
    ensures IsAnswer(versions, c, r)
  {
    hide VerConstraintCheck, VersionLess, Canonical, Usable, Fulfils;
    var sorted := SortedVersions(versions);
    for i := 0 to |sorted|
      invariant IsOperator(c.op) ==> forall k :: 0 <= k < i ==> !Fulfils(sorted[k], c)
    {
      var action := VerConstraintCheck(sorted[i], c.version, c.op);
      if IsOperator(c.op) {
        CheckOnStrings(sorted[i], c);
      } else {
        UnknownOperator(sorted[i], c);
      }
      if action == Ok {
        assert sorted[i] in sorted;
        return Some(sorted[i]);
      }
    }
    return None;
  }

  ghost predicate IsAnswer(versions: set<string>, c: Constraint, r: Option<string>)
    requires (forall v :: v in versions ==> Canonical(v)) && Usable(c)
  {
    if !IsOperator(c.op) then r == None
    else if r.None? then !SomeFulfils(versions, c)
    else IsGreatest(versions, c, r.value)
  }

  ghost predicate IsNewest(versions: set<string>, r: Option<string>) {
    r.Some? && r.value in versions && forall v :: v in versions ==> v == r.value || VersionLess(v, r.value)
  }

  /** The greatest version that fulfils a constraint; nothing for a malformed constraint or an unknown operator. */
  method LatestConstrained(versions: set<string>, constraint: string) returns (r: Option<string>)
    requires forall v :: v in versions ==> Canonical(v)
    requires constraint == "" ==> versions != {}
    requires ParseConstraint(constraint).Some? ==> Usable(ParseConstraint(constraint).value)
    ensures constraint == "" ==> IsNewest(versions, r)
    ensures constraint != "" && ParseConstraint(constraint).None? ==> r == None
    ensures constraint != "" && ParseConstraint(constraint).Some? ==>
      IsAnswer(versions, ParseConstraint(constraint).value, r)
    ensures forall op, b :: IsOperator(op) && InRange(b) && constraint == op + " " + Render(b) ==>
      Greatest(versions, b, op, r)
  {
    hide VersionLess, Canonical, Usable, ParseConstraint, IsAnswer, Greatest;
    AnswersMean(versions, constraint);
    if constraint == "" {
      var latest := LatestVersion(versions);
      return Some(latest);
    }
    var parsed := ParseConstraint(constraint);
    if parsed.None? {
      return None;
    }
    r := LatestFulfilling(versions, parsed.value);
  }

  lemma AnswersMean(versions: set<string>, constraint: string)
    requires forall v :: v in versions ==> Canonical(v)
    requires ParseConstraint(constraint).Some? ==> Usable(ParseConstraint(constraint).value)
    ensures forall op, b, r :: IsOperator(op) && InRange(b) && constraint == op + " " + Render(b) ==>
      constraint != "" && ParseConstraint(constraint).Some? &&
      (IsAnswer(versions, ParseConstraint(constraint).value, r) ==> Greatest(versions, b, op, r))
  {
    hide VersionLess, Canonical, Usable, ParseConstraint, Greatest, SomeFulfils, IsGreatest, Render;
    LatestMeans(versions, constraint);
  }

  // ---- What is listed ----

  /** The first versions of a list that are admitted: in the list's order, as many as are wanted, and none left out that
      comes before one of them. */
  lemma ListedExactly(sorted: seq<string>, c: Option<Constraint>, all: bool, n: int, v: string)
    requires AllCanonical(sorted) && Descending(sorted) && (c.Some? ==> Usable(c.value))
    ensures var r := Take(Matching(sorted, c), all, n);
      Descending(r) && (!all ==> |r| <= if n < 0 then 0 else n) &&
      (v in r ==> v in sorted && Canonical(v) && Admitted(v, c))
    ensures var r := Take(Matching(sorted, c), all, n);
      v in sorted && Canonical(v) && Admitted(v, c) && v !in r ==>
      !all && |r| == (if n < 0 then 0 else n) && forall u :: u in r ==> VersionLess(v, u)
  {
    hide VersionLess, Canonical, Usable, Admitted, AllCanonical, Matching, Descending;
    var m := Matching(sorted, c);
    MatchingIs(sorted, c, v);
    var r := Take(m, all, n);
    assert r == m[..|r|];
    LeftOutIsLess(m, |r|, v);
  }

  /** What the beginning of a descending list lacks comes after all of it. */
  lemma LeftOutIsLess(m: seq<string>, n: nat, v: string)
    requires Descending(m) && n <= |m|
    ensures Descending(m[..n]) && forall u :: u in m[..n] ==> u in m
    ensures v in m && v !in m[..n] ==> forall u :: u in m[..n] ==> VersionLess(v, u)
  {
    hide VersionLess;
    if v in m && v !in m[..n] {
      assert m == m[..n] + m[n..];
      var k :| 0 <= k < |m[n..]| && m[n..][k] == v;
      assert m[n + k] == v;
      forall i | 0 <= i < n
        ensures VersionLess(v, m[..n][i])
      {
        assert m[..n][i] == m[i];
      }
    }
  }

  lemma {:induction false} MatchingIs(s: seq<string>, c: Option<Constraint>, v: string)
    requires AllCanonical(s) && Descending(s) && (c.Some? ==> Usable(c.value))
    ensures v in Matching(s, c) <==> v in s && Canonical(v) && Admitted(v, c)
    ensures Descending(Matching(s, c)) && forall u :: u in Matching(s, c) ==> u in s
  {
    hide VersionLess, Canonical, Usable, Admitted;
    if s != [] {
      var init, last := s[..|s| - 1], s[|s| - 1];
      MatchingIs(init, c, v);
      assert s == init + [last];
      MatchingLast(s, c);
      var m := Matching(init, c);
      forall k | 0 <= k < |m|
        ensures VersionLess(last, m[k])
      {
        assert m[k] in init;
      }
    }
  }

  /** The versions listed for a cookbook: one when no number is asked for, and nothing for a malformed constraint. */
  method InfoHashBase(versions: set<string>, numResults: string, constraint: string) returns (r: Option<seq<string>>)
    requires forall v :: v in versions ==> Canonical(v)
    requires ParseConstraint(constraint).Some? ==> Usable(ParseConstraint(constraint).value)
    ensures r.None? <==> constraint != "" && multiset(constraint)[' '] != 1
    ensures r.Some? ==> forall sorted ::
      AllCanonical(sorted) && Descending(sorted) && (forall v :: v in sorted <==> v in versions) ==>
        r.value == Take(Matching(sorted, if constraint == "" then None else ParseConstraint(constraint)),
          numResults == "all", if numResults == "" then 1 else AtoiOrZero(numResults))
  {
    hide VersionLess, Canonical, Usable, ParseConstraint, Matching, AtoiOrZero, Take;
    var numVersions, allVersions := 0, false;
    if numResults != "" && numResults != "all" {
      numVersions := AtoiOrZero(numResults);
    } else if numResults == "" {
      numVersions := 1;
    } else {
      allVersions := true;
    }
    var c: Option<Constraint> := None;
    ParsesExactly(constraint, "", "");
    if constraint != "" {
      c := ParseConstraint(constraint);
      if c.None? {
        return None;
      }
    }
    var keys := SortedVersions(versions);
    var listed := InfoVersions(keys, allVersions, numVersions, c);
    AllTaken(Matching(keys, c), numVersions, if numResults == "" then 1 else AtoiOrZero(numResults));
    r := Some(listed);
    forall sorted | AllCanonical(sorted) && Descending(sorted) && (forall v :: v in sorted <==> v in versions)
      ensures sorted == keys
    {
      OneDescendingOrder(sorted, keys);
    }
  }

  lemma AllTaken(s: seq<string>, m: int, n: int)
    ensures Take(s, true, m) == Take(s, true, n)
  {
  }
}
