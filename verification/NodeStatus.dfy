/** Purging node statuses by age (node/status.go). */
module NodeStatus {
  import opened Datastore
  import opened Lists
  import opened Sorting
  import opened Wrappers

  predicate After(x: Status, cutoff: int) {
    x.time > cutoff
  }

  /** The statuses newer than the cutoff. */
  function Newer(xs: seq<Status>, cutoff: int): seq<Status> {
    if xs == [] then []
    else Newer(xs[..|xs| - 1], cutoff) + (if After(xs[|xs| - 1], cutoff) then [xs[|xs| - 1]] else [])
  }

  predicate Earlier(x: Status, y: Status) {
    x.time < y.time
  }

  /** How many statuses the nodes have in all. */
  function Count(h: History, nodes: seq<string>): nat {
    if nodes == [] then 0 else Count(h, nodes[..|nodes| - 1]) + |Get(h, nodes[|nodes| - 1])|
  }

  /** The library's search: the first index where a condition that stays true begins to hold. */
  method FirstAfter(xs: seq<Status>, cutoff: int) returns (i: nat)
    requires Sorted(xs, Earlier)
    ensures i <= |xs| && (forall k :: 0 <= k < i ==> !After(xs[k], cutoff)) &&
      (forall k :: i <= k < |xs| ==> After(xs[k], cutoff))
  {
    var j := |xs|;
    i := 0;
    while i < j
      invariant 0 <= i <= j <= |xs|
      invariant (forall k :: 0 <= k < i ==> !After(xs[k], cutoff)) &&
        (forall k :: j <= k < |xs| ==> After(xs[k], cutoff))
    {
      var h := (i + j) / 2;
      if !After(xs[h], cutoff) {
        assert forall k :: 0 <= k < h ==> !Earlier(xs[h], xs[k]);
        i := h + 1;
      } else {
        assert forall k :: h < k < |xs| ==> !Earlier(xs[k], xs[h]);
        j := h;
      }
    }
  }

  lemma {:induction false} NewerCount(xs: seq<Status>, cutoff: int, x: Status)
    ensures multiset(Newer(xs, cutoff))[x] == if After(x, cutoff) then multiset(xs)[x] else 0
  {
    if xs != [] {
      NewerCount(xs[..|xs| - 1], cutoff, x);
      assert xs == xs[..|xs| - 1] + [xs[|xs| - 1]];
    }
  }

  lemma NewerSame(a: seq<Status>, b: seq<Status>, cutoff: int)
    requires multiset(a) == multiset(b)
    ensures multiset(Newer(a, cutoff)) == multiset(Newer(b, cutoff))
  {
    forall x
      ensures multiset(Newer(a, cutoff))[x] == multiset(Newer(b, cutoff))[x]
    {
      NewerCount(a, cutoff, x);
      NewerCount(b, cutoff, x);
    }
  }

  lemma {:induction false} NewerTail(xs: seq<Status>, cutoff: int, i: nat)
    requires i <= |xs| && (forall k :: 0 <= k < i ==> !After(xs[k], cutoff)) &&
      (forall k :: i <= k < |xs| ==> After(xs[k], cutoff))
    ensures Newer(xs, cutoff) == xs[i..]
  {
    if xs != [] {
      var n := |xs| - 1;
      NewerTail(xs[..n], cutoff, if i < n then i else n);
    }
  }

  /** Every status has a time after the cutoff. */
  predicate AllNewer(xs: seq<Status>, cutoff: int) {
    forall i :: 0 <= i < |xs| ==> After(xs[i], cutoff)
  }

  /** A node is left with exactly its newer statuses: as they were if none is old, and the newest last otherwise. */
  ghost predicate Purged(was: seq<Status>, now: seq<Status>, cutoff: int) {
    multiset(now) == multiset(Newer(was, cutoff)) && if AllNewer(was, cutoff) then now == was else Sorted(now, Earlier)
  }

  /** A status is kept, as often as it was there, exactly when its time comes after the cutoff. */
  lemma KeptExactly(was: seq<Status>, now: seq<Status>, cutoff: int, x: Status)
    requires Purged(was, now, cutoff)
    ensures multiset(now)[x] == if x.time > cutoff then multiset(was)[x] else 0
  {
    NewerCount(was, cutoff, x);
  }

  lemma OldestTells(was: seq<Status>, sorted: seq<Status>, cutoff: int)
    requires multiset(was) == multiset(sorted) && Sorted(sorted, Earlier) && sorted != []
    ensures AllNewer(was, cutoff) == After(sorted[0], cutoff)
  {
    SameMembers(was, sorted);
    assert sorted[0] in sorted;
    forall i | 0 <= i < |was|
      ensures sorted[0].time <= was[i].time
    {
      assert was[i] in was;
      var j :| 0 <= j < |sorted| && sorted[j] == was[i];
      assert j > 0 ==> !Earlier(sorted[j], sorted[0]);
    }
  }

  lemma {:induction false} AllAreNewer(was: seq<Status>, cutoff: int)
    requires AllNewer(was, cutoff)
    ensures Newer(was, cutoff) == was
  {
    NewerTail(was, cutoff, 0);
  }

  lemma KeptIsPurged(was: seq<Status>, sorted: seq<Status>, cutoff: int, i: nat)
    requires multiset(was) == multiset(sorted) && Sorted(sorted, Earlier) && sorted != [] &&
      !After(sorted[0], cutoff) && i <= |sorted|
    requires (forall k :: 0 <= k < i ==> !After(sorted[k], cutoff)) &&
      (forall k :: i <= k < |sorted| ==> After(sorted[k], cutoff))
    ensures Purged(was, sorted[i..], cutoff) && |was| == |sorted|
  {
    OldestTells(was, sorted, cutoff);
    NewerTail(sorted, cutoff, i);
    NewerSame(was, sorted, cutoff);
    SameMembers(was, sorted);
  }

  lemma EarlierSorts(xs: seq<Status>)
    ensures Sorted(Sort(xs, Earlier), Earlier) && multiset(Sort(xs, Earlier)) == multiset(xs) &&
      |Sort(xs, Earlier)| == |xs|
  {
    hide Sort, Sorted;
    SortSorts(xs, Earlier);
    SortKeeps(xs, Earlier);
    SameMembers(Sort(xs, Earlier), xs);
  }

  /** Which of a node's statuses to put back; nothing when none is old. */
  method Kept(all: seq<Status>, cutoff: int, ghost was: seq<Status>) returns (keep: Option<seq<Status>>)
    requires multiset(all) == multiset(was)
    ensures keep.None? ==> Purged(was, was, cutoff)
    ensures keep.Some? ==> Purged(was, keep.value, cutoff)
  {
    hide Newer, Sorted, Sort;
    SameMembers(all, was);
    if |all| == 0 {
      AllAreNewer(was, cutoff);
      return None;
    }
    var statuses := Sort(all, Earlier);
    EarlierSorts(all);
    OldestTells(was, statuses, cutoff);
    if After(statuses[0], cutoff) {
      AllAreNewer(was, cutoff);
      return None;
    }
    var i := FirstAfter(statuses, cutoff);
    KeptIsPurged(was, statuses, cutoff, i);
    return Some(statuses[i..]);
  }

  predicate SameAt(was: History, now: History, node: string) {
    Get(was, node) == Get(now, node)
  }

  ghost predicate OthersSame(was: History, now: History, node: string) {
    forall other :: other != node ==> SameAt(was, now, other)
  }

  lemma ReplacedOnly(was: History, node: string, xs: seq<Status>)
    ensures var now := Datastore.After(Some(was), ReplaceStatuses(node, xs)).value;
      Get(now, node) == xs && OthersSame(was, now, node)
  {
  }

  /** Purges one node; the count is what it loses. */
  method PurgeNode(ds: DataStore, node: string, cutoff: int) returns (r: Result<int>)
    requires ds.Valid()
    modifies ds
    ensures ds.Valid() && r.Ok? == old(ds.Contents()).Some?
    ensures ds.Contents().Some? == old(ds.Contents()).Some?
    ensures r.Ok? ==> var was, now := old(ds.Contents()).value, ds.Contents().value;
      OthersSame(was, now, node) && Purged(Get(was, node), Get(now, node), cutoff) &&
      r.value == |Get(was, node)| - |Get(now, node)|
  {
    hide Purged, Get;
    var all := ds.AllNodeStatuses(node);
    if all.NoStatuses? {
      return NoStatuses;
    }
    ghost var was := ds.Contents().value;
    SameMembers(all.value, Get(was, node));
    var keep := Kept(all.value, cutoff, Get(was, node));
    if keep.None? {
      return Ok(0);
    }
    ReplacedOnly(was, node, keep.value);
    hide OthersSame;
    var done := ds.ReplaceNodeStatuses(node, keep.value);
    return Ok(|all.value| - |keep.value|);
  }

  ghost predicate AllPurged(was: History, now: History, nodes: seq<string>, cutoffs: seq<int>) {
    |nodes| == |cutoffs| &&
    (forall i :: 0 <= i < |nodes| ==> Purged(Get(was, nodes[i]), Get(now, nodes[i]), cutoffs[i])) &&
    (forall node :: node !in nodes ==> SameAt(was, now, node))
  }

  lemma {:induction false} CountSame(was: History, now: History, nodes: seq<string>)
    requires forall i :: 0 <= i < |nodes| ==> SameAt(was, now, nodes[i])
    ensures Count(was, nodes) == Count(now, nodes)
  {
    if nodes != [] {
      CountSame(was, now, nodes[..|nodes| - 1]);
      assert SameAt(was, now, nodes[|nodes| - 1]);
    }
  }

  lemma OneMorePurged(was: History, mid: History, now: History, nodes: seq<string>, node: string,
      cutoffs: seq<int>, cutoff: int)
    requires node !in nodes && AllPurged(was, mid, nodes, cutoffs)
    requires OthersSame(mid, now, node) && Purged(Get(mid, node), Get(now, node), cutoff)
    ensures AllPurged(was, now, nodes + [node], cutoffs + [cutoff])
  {
    hide Purged, Get;
    assert SameAt(was, mid, node);
    forall i | 0 <= i < |nodes|
      ensures Purged(Get(was, nodes[i]), Get(now, nodes[i]), cutoffs[i])
    {
      assert nodes[i] in nodes && SameAt(mid, now, nodes[i]);
    }
    forall other | other !in nodes + [node]
      ensures SameAt(was, now, other)
    {
      assert SameAt(was, mid, other) && SameAt(mid, now, other);
    }
  }

  lemma OneMoreCounted(was: History, mid: History, now: History, nodes: seq<string>, node: string,
      cutoffs: seq<int>)
    requires node !in nodes && AllPurged(was, mid, nodes, cutoffs) && OthersSame(mid, now, node)
    ensures Count(now, nodes + [node]) == Count(mid, nodes) + |Get(now, node)|
    ensures Count(was, nodes + [node]) == Count(was, nodes) + |Get(mid, node)|
  {
    hide Purged, Get;
    assert SameAt(was, mid, node) && (nodes + [node])[..|nodes|] == nodes;
    forall i | 0 <= i < |nodes|
      ensures SameAt(mid, now, nodes[i])
    {
      assert nodes[i] in nodes;
    }
    CountSame(mid, now, nodes);
  }

  /** The given nodes are purged, and what was removed and what remains make up what there was. */
  ghost predicate Progress(was: Option<History>, now: Option<History>, nodes: seq<string>, cutoffs: seq<int>,
      removed: int) {
    was.Some? == now.Some? &&
    (was.Some? ==>
      AllPurged(was.value, now.value, nodes, cutoffs) &&
      removed + Count(now.value, nodes) == Count(was.value, nodes))
  }

  lemma NoProgress(was: Option<History>)
    ensures Progress(was, was, [], [], 0)
  {
  }

  lemma ProgressGrows(was: Option<History>, mid: Option<History>, now: Option<History>, nodes: seq<string>,
      node: string, cutoffs: seq<int>, cutoff: int, removed: int)
    requires was.Some? && now.Some? && node !in nodes && Progress(was, mid, nodes, cutoffs, removed)
    requires OthersSame(mid.value, now.value, node) && Purged(Get(mid.value, node), Get(now.value, node), cutoff)
    ensures Progress(was, now, nodes + [node], cutoffs + [cutoff],
      removed + |Get(mid.value, node)| - |Get(now.value, node)|)
  {
    hide AllPurged, Purged, OthersSame, Count, Get;
    OneMorePurged(was.value, mid.value, now.value, nodes, node, cutoffs, cutoff);
    OneMoreCounted(was.value, mid.value, now.value, nodes, node, cutoffs);
  }

  lemma NotYet(nodes: seq<string>, n: nat)
    requires Distinct(nodes) && n < |nodes|
    ensures nodes[n] !in nodes[..n] && nodes[..n + 1] == nodes[..n] + [nodes[n]]
  {
  }

  /** Purges all nodes, each with the cutoff the clock gives when it is its turn. */
  method DeleteNodeStatusesByAge(ds: DataStore, nodes: seq<string>, cutoffs: seq<int>) returns (r: Result<int>)
    requires ds.Valid() && Distinct(nodes) && |cutoffs| == |nodes|
    modifies ds
    ensures ds.Valid() && r.Ok? == (old(ds.Contents()).Some? || nodes == [])
    ensures r.Ok? ==> Progress(old(ds.Contents()), ds.Contents(), nodes, cutoffs, r.value)
    ensures !r.Ok? ==> ds.Contents() == None
  {
    hide Progress, AllPurged, Purged, OthersSame, Distinct, Get;
    NoProgress(ds.Contents());
    if |nodes| == 0 {
      return Ok(0);
    }
    var j := 0;
    ghost var start := ds.Contents();
    for n := 0 to |nodes|
      invariant ds.Valid() && (n > 0 ==> start.Some?) && ds.Contents().Some? == start.Some?
      invariant Progress(start, ds.Contents(), nodes[..n], cutoffs[..n], j)
    {
      ghost var mid := ds.Contents();
      NotYet(nodes, n);
      var one := PurgeNode(ds, nodes[n], cutoffs[n]);
      if one.NoStatuses? {
        return NoStatuses;
      }
      ProgressGrows(start, mid, ds.Contents(), nodes[..n], nodes[n], cutoffs[..n], cutoffs[n], j);
      assert cutoffs[..n + 1] == cutoffs[..n] + [cutoffs[n]];
      j := j + one.value;
    }
    assert nodes[..|nodes|] == nodes && cutoffs[..|nodes|] == cutoffs;
    return Ok(j);
  }

  /** So the latest status of a purged node, if it lost any, is the newest it kept. */
  lemma NewestIsLatest(was: seq<Status>, now: seq<Status>, cutoff: int, i: nat)
    requires Purged(was, now, cutoff) && !AllNewer(was, cutoff) && i < |now|
    ensures now[i].time <= now[|now| - 1].time && After(now[i], cutoff)
  {
    if i < |now| - 1 {
      assert !Earlier(now[|now| - 1], now[i]);
    }
    NewerCount(was, cutoff, now[i]);
    assert now[i] in multiset(now);
  }
}
