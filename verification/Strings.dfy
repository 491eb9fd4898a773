/** Byte-wise string order and the in-place slice helpers of util/strings.go. */
module Strings {
  import opened Sorting

  /** a < b, byte by byte. */
  predicate Less(a: string, b: string) {
    b != "" && (a == "" || a[0] < b[0] || (a[0] == b[0] && Less(a[1..], b[1..])))
  }

  /** The first difference decides, and a beginning comes before what it begins. */
  ghost predicate DiffersAt(a: string, b: string, k: nat) {
    k <= |a| && k < |b| && a[..k] == b[..k] && (k == |a| || a[k] < b[k])
  }

  lemma {:induction false} LessExactly(a: string, b: string)
    ensures Less(a, b) <==> exists k: nat :: DiffersAt(a, b, k)
  {
    if a == "" || b == "" || a[0] != b[0] {
      if Less(a, b) {
        assert DiffersAt(a, b, 0);
      }
      if k: nat :| DiffersAt(a, b, k) {
        assert k > 0 ==> a[..k][0] == b[..k][0];
      }
    } else {
      LessExactly(a[1..], b[1..]);
      if k: nat :| DiffersAt(a[1..], b[1..], k) {
        assert a[..k + 1] == [a[0]] + a[1..][..k] && b[..k + 1] == [b[0]] + b[1..][..k];
        assert DiffersAt(a, b, k + 1);
      }
      if k: nat :| DiffersAt(a, b, k) {
        assert k > 0 && a[1..][..k - 1] == a[..k][1..] && b[1..][..k - 1] == b[..k][1..];
        assert DiffersAt(a[1..], b[1..], k - 1);
      }
    }
  }

  lemma {:induction false} LessTrans(a: string, b: string, c: string)
    requires Less(a, b) && Less(b, c)
    ensures Less(a, c)
  {
    if a != "" && a[0] == b[0] && b[0] == c[0] {
      LessTrans(a[1..], b[1..], c[1..]);
    }
  }

  lemma {:induction false} LessIrreflexive(a: string)
    ensures !Less(a, a)
  {
    if a != "" {
      LessIrreflexive(a[1..]);
    }
  }

  lemma {:induction false} LessTotal(a: string, b: string)
    ensures a == b || Less(a, b) || Less(b, a)
  {
    if a != "" && b != "" && a[0] == b[0] {
      LessTotal(a[1..], b[1..]);
      assert a == [a[0]] + a[1..] && b == [b[0]] + b[1..];
    }
  }

  ghost predicate StrictlySorted(s: seq<string>) {
    forall i, j :: 0 <= i < j < |s| ==> Less(s[i], s[j])
  }

  lemma NotBoth(a: string, b: string)
    requires Less(a, b)
    ensures !Less(b, a)
  {
    if Less(b, a) {
      LessTrans(a, b, a);
      LessIrreflexive(a);
    }
  }

  lemma LessOrders(s: seq<string>)
    ensures Orders(Less, s)
  {
    hide Less;
    forall a, b | a in s && b in s && Less(a, b)
      ensures !Less(b, a)
    {
      NotBoth(a, b);
    }
    forall a, b, c | a in s && b in s && c in s && !Less(b, a) && !Less(c, b)
      ensures !Less(c, a)
    {
      LessTotal(a, b);
      LessTotal(b, c);
      if Less(c, a) {
        if a != b {
          LessTrans(c, a, b);
        }
      }
    }
  }

  /** `sort.Strings`. */
  function SortedStrings(s: seq<string>): seq<string> {
    Sort(s, Less)
  }

  lemma SortingWorks(s: seq<string>)
    ensures Sorted(SortedStrings(s), Less) && multiset(SortedStrings(s)) == multiset(s)
    ensures forall x :: x in SortedStrings(s) <==> x in s
  {
    hide Sort, Sorted, Orders;
    LessOrders(s);
    SortSorts(s, Less);
    SortKeeps(s, Less);
    SameMembers(SortedStrings(s), s);
  }

  /** The list with every run of equal neighbours reduced to one. */
  function Collapse(s: seq<string>): seq<string> {
    if |s| < 2 then s
    else if s[0] == s[1] then Collapse(s[1..])
    else [s[0]] + Collapse(s[1..])
  }

  lemma {:induction false} CollapseRun(v: string, count: nat, rest: seq<string>)
    requires rest == [] || rest[0] != v
    ensures Collapse(seq(count + 1, _ => v) + rest) == [v] + Collapse(rest)
  {
    var s := seq(count + 1, _ => v) + rest;
    if count == 0 {
      assert s == [v] + rest;
      assert s[1..] == rest;
    } else {
      assert s[1..] == seq(count, _ => v) + rest;
      CollapseRun(v, count - 1, rest);
    }
  }

  lemma {:induction false} CollapseKeepsElements(s: seq<string>)
    ensures forall x :: x in Collapse(s) <==> x in s
  {
    if |s| >= 2 {
      CollapseKeepsElements(s[1..]);
      assert s == [s[0]] + s[1..] && s[1] in s[1..];
    }
  }

  /** On a sorted list, collapsing runs leaves no duplicate at all. */
  lemma {:induction false} CollapseSorted(s: seq<string>)
    requires Sorted(s, Less)
    ensures StrictlySorted(Collapse(s))
  {
    if |s| >= 2 {
      CollapseSorted(s[1..]);
      CollapseKeepsElements(s[1..]);
      var r := Collapse(s[1..]);
      if s[0] != s[1] {
        forall j | 0 <= j < |r|
          ensures Less(s[0], r[j])
        {
          assert r[j] in s[1..];
          var k :| 1 <= k < |s| && s[k] == r[j];
          LessTotal(s[0], s[1]);
          if k > 1 {
            LessTotal(s[1], s[k]);
            if s[1] != s[k] {
              LessTrans(s[0], s[1], s[k]);
            }
          }
        }
      }
    }
  }

  // A Go slice is an array with a length: the live part is a[..n].

  /** Removes `skip` elements at `pos` by moving the rest of the slice down. */
  method DelTwoPosElements(pos: nat, skip: nat, a: array<string>, n: nat) returns (m: nat)
    requires pos + skip <= n <= a.Length
    modifies a
    ensures m == n - skip && a[..m] == old(a[..n])[..pos] + old(a[..n])[pos + skip..]
  {
    m := n - skip;
    for j := pos to m
      invariant forall k :: 0 <= k < pos ==> a[k] == old(a[k])
      invariant forall k :: pos <= k < j ==> a[k] == old(a[k + skip])
      invariant forall k :: j <= k < n ==> a[k] == old(a[k])
    {
      a[j] := a[j + skip];
    }
  }

  method DelSliceElement(pos: nat, a: array<string>, n: nat) returns (m: nat)
    requires pos < n <= a.Length
    modifies a
    ensures m == n - 1 && a[..m] == old(a[..n])[..pos] + old(a[..n])[pos + 1..]
  {
    m := DelTwoPosElements(pos, 1, a, n);
  }

  /** One round: the element at i stays, the s equal ones after it go. */
  lemma RoundKept(was: seq<string>, now: seq<string>, i: nat, s: nat, goal: seq<string>)
    requires i + s < |was| && was[..i] + Collapse(was[i..]) == goal
    requires forall k :: i <= k <= i + s ==> was[k] == was[i]
    requires i + s + 1 < |was| ==> was[i + s + 1] != was[i]
    requires now == was[..i + 1] + was[i + 1 + s..]
    ensures now[..i + 1] + Collapse(now[i + 1..]) == goal
  {
    CollapseRun(was[i], s, was[i + s + 1..]);
    assert was[i..] == seq(s + 1, _ => was[i]) + was[i + s + 1..];
    assert now[..i + 1] == was[..i] + [was[i]];
    assert now[i + 1..] == was[i + s + 1..];
  }

  /** How many of the elements after position i equal it. */
  method CountEqual(a: array<string>, i: nat, n: nat) returns (s: nat)
    requires i < a.Length && n <= a.Length
    ensures i >= n ==> s == 0
    ensures i < n ==>
      i + s < n && (forall k :: i <= k <= i + s ==> a[k] == a[i]) && (i + s + 1 < n ==> a[i + s + 1] != a[i])
  {
    var j := 1;
    s := 0;
    while i + j < n && a[i] == a[i + j]
      invariant j == s + 1 && (i < n ==> i + s < n) && (i >= n ==> s == 0)
      invariant forall k :: i <= k < i + j ==> a[k] == a[i]
    {
      j := j + 1;
      s := s + 1;
    }
  }

  /** Ranges over the original length while the slice shrinks under it; works on any slice. */
  method RemoveDupStrings(a: array<string>) returns (n: nat)
    modifies a
    ensures n <= a.Length && a[..n] == Collapse(old(a[..]))
  {
    hide Collapse;
    n := a.Length;
    ghost var goal := Collapse(a[..]);
    EmptyCollapses();
    assert a[..n] == a[..] && a[..n][..0] == [] && a[..n][0..] == a[..];
    for i := 0 to a.Length
      invariant n <= a.Length
      invariant i <= n ==> a[..n][..i] + Collapse(a[..n][i..]) == goal
      invariant i > n ==> a[..n] == goal
    {
      if i > n {
        break;
      }
      var s := CountEqual(a, i, n);
      ghost var was := a[..n];
      if s == 0 {
        if i < n {
          assert was == was[..i + 1] + was[i + 1..];
          RoundKept(was, was, i, 0, goal);
        } else {
          assert was[..i] == was && was[i..] == [];
        }
        continue;
      }
      n := DelTwoPosElements(i + 1, s, a, n);
      RoundKept(was, a[..n], i, s, goal);
    }
    if n == a.Length {
      assert a[..n][..n] == a[..n] && a[..n][n..] == [];
    }
  }

  lemma EmptyCollapses()
    ensures Collapse([]) == []
  {
  }
}
