/** The library sorts: a rearrangement of the input in which nothing stands after something it comes before. */
module Sorting {

  /** What a comparison must satisfy on the elements to be sorted. */
  ghost predicate Orders<T(!new)>(before: (T, T) -> bool, s: seq<T>) {
    (forall a, b :: a in s && b in s && before(a, b) ==> !before(b, a)) &&
    (forall a, b, c :: a in s && b in s && c in s && !before(b, a) && !before(c, b) ==> !before(c, a))
  }

  predicate Sorted<T(!new)>(s: seq<T>, before: (T, T) -> bool) {
    forall i, j :: 0 <= i < j < |s| ==> !before(s[j], s[i])
  }

  function Insert<T(!new)>(x: T, s: seq<T>, before: (T, T) -> bool): seq<T> {
    if s == [] || !before(s[0], x) then [x] + s else [s[0]] + Insert(x, s[1..], before)
  }

  /** Insertion, since only the result matters. */
  function Sort<T(!new)>(s: seq<T>, before: (T, T) -> bool): seq<T> {
    if s == [] then [] else Insert(s[0], Sort(s[1..], before), before)
  }

  lemma {:induction false} InsertKeeps<T(!new)>(x: T, s: seq<T>, before: (T, T) -> bool)
    ensures multiset(Insert(x, s, before)) == multiset(s) + multiset{x}
  {
    if s != [] && before(s[0], x) {
      InsertKeeps(x, s[1..], before);
      assert s == [s[0]] + s[1..];
    }
  }

  lemma SameMembers<T(!new)>(a: seq<T>, b: seq<T>)
    requires multiset(a) == multiset(b)
    ensures |a| == |b| && forall x :: x in a <==> x in b
  {
    assert forall x :: x in a <==> x in multiset(a);
    assert forall x :: x in b <==> x in multiset(b);
    assert |multiset(a)| == |a| && |multiset(b)| == |b|;
  }

  lemma OrdersPart<T(!new)>(before: (T, T) -> bool, s: seq<T>, part: seq<T>)
    requires Orders(before, s) && forall x :: x in part ==> x in s
    ensures Orders(before, part)
  {
  }

  lemma InsertFirst<T(!new)>(x: T, s: seq<T>, before: (T, T) -> bool)
    requires s != [] && Orders(before, [x] + s) && Sorted(s, before) && !before(s[0], x)
    ensures Sorted([x] + s, before)
  {
    assert x in [x] + s && s[0] in [x] + s;
    forall j | 0 <= j < |s|
      ensures !before(s[j], x)
    {
      assert s[j] in [x] + s;
      if j > 0 {
        assert !before(s[j], s[0]);
      }
    }
  }

  lemma InsertLater<T(!new)>(x: T, s: seq<T>, before: (T, T) -> bool, r: seq<T>)
    requires s != [] && Orders(before, [x] + s) && Sorted(s, before) && before(s[0], x)
    requires Sorted(r, before) && forall y :: y in r ==> y == x || y in s[1..]
    ensures Sorted([s[0]] + r, before)
  {
    assert x in [x] + s && s[0] in [x] + s;
    forall j | 0 <= j < |r|
      ensures !before(r[j], s[0])
    {
      assert r[j] in r;
      if r[j] != x {
        var k :| 0 <= k < |s[1..]| && s[1..][k] == r[j];
        assert s[k + 1] == r[j];
      }
    }
  }

  lemma {:induction false} InsertSorts<T(!new)>(x: T, s: seq<T>, before: (T, T) -> bool)
    requires Orders(before, [x] + s) && Sorted(s, before)
    ensures Sorted(Insert(x, s, before), before)
  {
    if s != [] {
      if before(s[0], x) {
        var r := Insert(x, s[1..], before);
        OrdersPart(before, [x] + s, [x] + s[1..]);
        InsertSorts(x, s[1..], before);
        InsertKeeps(x, s[1..], before);
        SameMembers(r, s[1..] + [x]);
        assert forall y :: y in r ==> y in s[1..] + [x];
        hide Sorted, Orders;
        InsertLater(x, s, before, r);
      } else {
        InsertFirst(x, s, before);
      }
    }
  }

  lemma {:induction false} SortKeeps<T(!new)>(s: seq<T>, before: (T, T) -> bool)
    ensures multiset(Sort(s, before)) == multiset(s)
  {
    if s != [] {
      SortKeeps(s[1..], before);
      InsertKeeps(s[0], Sort(s[1..], before), before);
      assert s == [s[0]] + s[1..];
    }
  }

  lemma {:induction false} SortSorts<T(!new)>(s: seq<T>, before: (T, T) -> bool)
    requires Orders(before, s)
    ensures Sorted(Sort(s, before), before)
  {
    if s != [] {
      var rest := Sort(s[1..], before);
      OrdersPart(before, s, s[1..]);
      SortSorts(s[1..], before);
      SortKeeps(s[1..], before);
      SameMembers(rest, s[1..]);
      assert forall x :: x in rest ==> x in s[1..];
      OrdersPart(before, s, [s[0]] + rest);
      hide Sorted, Orders;
      InsertSorts(s[0], rest, before);
    }
  }

  lemma TakenOut<T(!new)>(b: seq<T>, j: nat)
    requires j < |b|
    ensures multiset(b) == multiset(b[..j] + b[j + 1..]) + multiset{b[j]}
  {
    assert b == b[..j] + [b[j]] + b[j + 1..];
  }

  lemma Cancel<T(!new)>(m: multiset<T>, n: multiset<T>, e: T)
    requires m + multiset{e} == n + multiset{e}
    ensures m == n
  {
    assert m == m + multiset{e} - multiset{e} && n == n + multiset{e} - multiset{e};
  }
}
