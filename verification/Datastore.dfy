/** Node statuses in the in-memory store (datastore/datastore.go): a map from ids to statuses and a list of ids per
    node, which together stand for each node's history. */
module Datastore {
  import opened Sorting
  import opened Wrappers

  datatype Status = Status(name: string, time: int)

  type History = map<string, seq<Status>>

  function Get(h: History, node: string): seq<Status> {
    if node in h then h[node] else []
  }

  predicate Greater(a: int, b: int) {
    a > b
  }

  /** One more than every id in use. */
  method GetNextID(lis: map<int, Status>) returns (id: int)
    ensures forall k :: k in lis ==> k < id
  {
    if |lis| == 0 {
      return 1;
    }
    var keys: seq<int> := [];
    var rest: set<int> := lis.Keys;
    while rest != {}
      invariant rest <= lis.Keys && lis.Keys == rest + set k | k in keys
      decreases |rest|
    {
      HasMember(rest);
      var k :| k in rest;
      keys, rest := keys + [k], rest - {k};
    }
    var sorted := Sort(keys, Greater);
    GreaterSorts(keys);
    SameMembers(sorted, keys);
    assert lis.Keys != {};
    HasMember(lis.Keys);
    id := sorted[0] + 1;
  }

  lemma HasMember(s: set<int>)
    ensures s == {} || exists k :: k in s
  {
    if forall k :: k !in s {
      assert s == {};
    }
  }

  lemma GreaterSorts(ids: seq<int>)
    ensures Sorted(Sort(ids, Greater), Greater) && multiset(Sort(ids, Greater)) == multiset(ids)
  {
    hide Sort, Sorted;
    SortSorts(ids, Greater);
    SortKeeps(ids, Greater);
  }

  // ---- What the two maps stand for ----

  predicate Ascending(ids: seq<int>) {
    forall i, j :: 0 <= i < j < |ids| ==> ids[i] < ids[j]
  }

  function IdsOf(lists: map<string, seq<int>>, node: string): seq<int> {
    if node in lists then lists[node] else []
  }

  /** The list holds a node's ids, in any order; `ids` are the same in the order they were added. */
  ghost predicate Ordered(ns: map<int, Status>, list: seq<int>, ids: seq<int>) {
    ids != [] && Ascending(ids) && multiset(list) == multiset(ids) && forall id :: id in ids ==> id in ns
  }

  ghost predicate Owned(order: map<string, seq<int>>, id: int) {
    exists node :: node in order && id in order[node]
  }

  ghost predicate Apart(order: map<string, seq<int>>, node: string, other: string) {
    forall id :: id in IdsOf(order, node) ==> id !in IdsOf(order, other)
  }

  ghost predicate AllOrdered(ns: map<int, Status>, lists: map<string, seq<int>>, order: map<string, seq<int>>) {
    forall node :: node in order ==> Ordered(ns, IdsOf(lists, node), order[node])
  }

  ghost predicate AllApart(order: map<string, seq<int>>) {
    forall node, other :: node in order && other in order && node != other ==> Apart(order, node, other)
  }

  ghost predicate Covered(ns: map<int, Status>, order: map<string, seq<int>>) {
    forall id :: id in ns ==> Owned(order, id)
  }

  /** No id is shared, and the lists cover the map exactly. */
  ghost predicate Good(ns: map<int, Status>, lists: map<string, seq<int>>, order: map<string, seq<int>>) {
    lists.Keys == order.Keys && AllOrdered(ns, lists, order) && AllApart(order) && Covered(ns, order)
  }

  ghost function StatusOf(ns: map<int, Status>, id: int): Status {
    if id in ns then ns[id] else Status("", 0)
  }

  ghost function Named(ns: map<int, Status>, ids: seq<int>): seq<Status> {
    seq(|ids|, i requires 0 <= i < |ids| => StatusOf(ns, ids[i]))
  }

  ghost function HistoryOf(ns: map<int, Status>, order: map<string, seq<int>>): History {
    map node | node in order :: Named(ns, order[node])
  }

  // ---- Adding a status ----

  lemma AppendAscends(ids: seq<int>, id: int)
    requires Ascending(ids) && forall k :: k in ids ==> k < id
    ensures Ascending(ids + [id])
  {
    assert forall i :: 0 <= i < |ids| ==> ids[i] in ids;
  }

  /** A fresh id, larger than all others, goes last. */
  lemma AddOrdered(ns: map<int, Status>, list: seq<int>, ids: seq<int>, id: int, x: Status)
    requires (ids == list == []) || Ordered(ns, list, ids)
    requires forall k :: k in ns ==> k < id
    ensures Ordered(ns[id := x], list + [id], ids + [id])
  {
    AppendAscends(ids, id);
  }

  lemma AddAllOrdered(ns: map<int, Status>, lists: map<string, seq<int>>, order: map<string, seq<int>>, node: string,
      id: int, x: Status)
    requires AllOrdered(ns, lists, order) && lists.Keys == order.Keys && forall k :: k in ns ==> k < id
    ensures AllOrdered(ns[id := x], lists[node := IdsOf(lists, node) + [id]], order[node := IdsOf(order, node) + [id]])
  {
    var ns', lists', order' := ns[id := x], lists[node := IdsOf(lists, node) + [id]],
      order[node := IdsOf(order, node) + [id]];
    forall n | n in order'
      ensures Ordered(ns', IdsOf(lists', n), order'[n])
    {
      if n == node {
        assert node in order ==> Ordered(ns, IdsOf(lists, node), order[node]);
        hide Ordered;
        AddOrdered(ns, IdsOf(lists, node), IdsOf(order, node), id, x);
      } else {
        assert Ordered(ns, IdsOf(lists, n), order[n]);
      }
    }
  }

  lemma AddAllApart(ns: map<int, Status>, lists: map<string, seq<int>>, order: map<string, seq<int>>, node: string,
      id: int)
    requires AllOrdered(ns, lists, order) && AllApart(order) && forall k :: k in ns ==> k < id
    ensures AllApart(order[node := IdsOf(order, node) + [id]])
  {
    var order' := order[node := IdsOf(order, node) + [id]];
    forall n | n in order
      ensures id !in order[n]
    {
      assert Ordered(ns, IdsOf(lists, n), order[n]);
    }
    assert id !in IdsOf(order, node);
    hide AllOrdered;
    forall n, m, k | n in order' && m in order' && n != m && k in IdsOf(order', n)
      ensures k !in IdsOf(order', m)
    {
      if k == id {
        assert n == node;
      } else {
        assert k in IdsOf(order, n) && n in order;
        assert m in order ==> Apart(order, n, m);
      }
    }
  }

  lemma AddCovered(ns: map<int, Status>, order: map<string, seq<int>>, node: string, id: int, x: Status)
    requires Covered(ns, order)
    ensures Covered(ns[id := x], order[node := IdsOf(order, node) + [id]])
  {
    var order' := order[node := IdsOf(order, node) + [id]];
    forall k | k in ns[id := x]
      ensures Owned(order', k)
    {
      if k == id {
        assert node in order' && id in order'[node];
      } else {
        assert Owned(order, k);
        var n :| n in order && k in order[n];
        assert n in order' && k in order'[n];
      }
    }
  }

  lemma NamesKept(ns: map<int, Status>, ids: seq<int>, id: int, x: Status)
    requires (forall k :: k in ids ==> k in ns) && id !in ns
    ensures Named(ns[id := x], ids) == Named(ns, ids) && Named(ns[id := x], ids + [id]) == Named(ns, ids) + [x]
  {
    assert forall i :: 0 <= i < |ids| ==> ids[i] in ids;
  }

  lemma AddHistory(ns: map<int, Status>, lists: map<string, seq<int>>, order: map<string, seq<int>>, node: string,
      id: int, x: Status)
    requires AllOrdered(ns, lists, order) && forall k :: k in ns ==> k < id
    ensures HistoryOf(ns[id := x], order[node := IdsOf(order, node) + [id]]) == AddTo(HistoryOf(ns, order), node, x)
  {
    var ns', order' := ns[id := x], order[node := IdsOf(order, node) + [id]];
    var h, h' := AddTo(HistoryOf(ns, order), node, x), HistoryOf(ns', order');
    assert id !in ns && h.Keys == h'.Keys;
    NamesKept(ns, [], id, x);
    forall n | n in order
      ensures Named(ns', order[n]) == Named(ns, order[n]) && Named(ns', order[n] + [id]) == Named(ns, order[n]) + [x]
    {
      assert Ordered(ns, IdsOf(lists, n), order[n]);
      NamesKept(ns, order[n], id, x);
    }
    assert [] + [id] == [id] && Named(ns, []) == [];
    hide Named, AllOrdered;
    assert forall n :: n in h ==> h'[n] == h[n];
  }

  /** Adding a status under a fresh id adds it to the end of the node's history. */
  lemma Added(ns: map<int, Status>, lists: map<string, seq<int>>, order: map<string, seq<int>>, node: string, id: int,
      x: Status)
    requires Good(ns, lists, order) && forall k :: k in ns ==> k < id
    ensures var order' := order[node := IdsOf(order, node) + [id]];
      Good(ns[id := x], lists[node := IdsOf(lists, node) + [id]], order') &&
      HistoryOf(ns[id := x], order') == AddTo(HistoryOf(ns, order), node, x)
  {
    hide AllOrdered, AllApart, Covered, HistoryOf;
    AddAllOrdered(ns, lists, order, node, id, x);
    AddAllApart(ns, lists, order, node, id);
    AddCovered(ns, order, node, id, x);
    AddHistory(ns, lists, order, node, id, x);
  }

  function AddTo(h: History, node: string, x: Status): History {
    h[node := Get(h, node) + [x]]
  }

  // ---- Deleting a node's statuses ----

  ghost function Without(ns: map<int, Status>, ids: seq<int>): map<int, Status> {
    map id | id in ns && id !in ids :: ns[id]
  }

  lemma GoneIds(ns: map<int, Status>, lists: map<string, seq<int>>, order: map<string, seq<int>>, node: string)
    requires AllOrdered(ns, lists, order) && lists.Keys == order.Keys
    ensures Without(ns, IdsOf(lists, node)) == Without(ns, IdsOf(order, node))
  {
    if node in order {
      assert Ordered(ns, IdsOf(lists, node), order[node]);
      SameMembers(lists[node], order[node]);
    }
  }

  /** The ids of another node stay. */
  lemma OthersStay(ns: map<int, Status>, lists: map<string, seq<int>>, order: map<string, seq<int>>, node: string,
      n: string)
    requires AllOrdered(ns, lists, order) && AllApart(order) && n in order && n != node
    ensures Ordered(Without(ns, IdsOf(order, node)), IdsOf(lists, n), order[n])
    ensures Named(Without(ns, IdsOf(order, node)), order[n]) == Named(ns, order[n])
  {
    assert Ordered(ns, IdsOf(lists, n), order[n]);
    assert node in order ==> Apart(order, n, node);
  }

  lemma RemoveCovered(ns: map<int, Status>, order: map<string, seq<int>>, node: string)
    requires Covered(ns, order)
    ensures Covered(Without(ns, IdsOf(order, node)), order - {node})
  {
    forall k | k in Without(ns, IdsOf(order, node))
      ensures Owned(order - {node}, k)
    {
      assert Owned(order, k);
      var n :| n in order && k in order[n];
      assert n in order - {node} && k in (order - {node})[n];
    }
  }

  lemma RemoveHistory(ns: map<int, Status>, lists: map<string, seq<int>>, order: map<string, seq<int>>, node: string)
    requires AllOrdered(ns, lists, order) && AllApart(order) && lists.Keys == order.Keys
    ensures var ns' := Without(ns, IdsOf(order, node));
      AllOrdered(ns', lists - {node}, order - {node}) && HistoryOf(ns', order - {node}) == HistoryOf(ns, order) - {node}
  {
    hide Ordered, Without, Named, AllApart;
    var ns', order' := Without(ns, IdsOf(order, node)), order - {node};
    forall n | n in order'
      ensures Ordered(ns', IdsOf(lists - {node}, n), order'[n]) && Named(ns', order'[n]) == Named(ns, order[n])
    {
      OthersStay(ns, lists, order, node, n);
    }
    assert HistoryOf(ns', order').Keys == (HistoryOf(ns, order) - {node}).Keys;
  }

  lemma RemoveApart(order: map<string, seq<int>>, node: string)
    requires AllApart(order)
    ensures AllApart(order - {node})
  {
    forall n, m | n in order - {node} && m in order - {node} && n != m
      ensures Apart(order - {node}, n, m)
    {
      assert Apart(order, n, m) && IdsOf(order - {node}, n) == IdsOf(order, n) &&
        IdsOf(order - {node}, m) == IdsOf(order, m);
    }
  }

  /** Deleting a node's ids deletes its history and nothing else. */
  lemma Removed(ns: map<int, Status>, lists: map<string, seq<int>>, order: map<string, seq<int>>, node: string)
    requires Good(ns, lists, order)
    ensures var ns' := Without(ns, IdsOf(lists, node));
      Good(ns', lists - {node}, order - {node}) && HistoryOf(ns', order - {node}) == HistoryOf(ns, order) - {node}
  {
    hide AllOrdered, AllApart, Covered, HistoryOf, Without;
    GoneIds(ns, lists, order, node);
    RemoveCovered(ns, order, node);
    RemoveHistory(ns, lists, order, node);
    RemoveApart(order, node);
  }

  // ---- The store ----

  datatype Result<+T> = Ok(value: T) | NoStatuses

  class DataStore {
    var ns: Option<map<int, Status>>
    var nslist: Option<map<string, seq<int>>>
    ghost var order: map<string, seq<int>>

    constructor ()
      ensures Valid() && Contents() == None
    {
      ns, nslist, order := None, None, map[];
    }

    ghost predicate Valid()
      reads this
    {
      if ns.None? then nslist.None? else nslist.Some? && Good(ns.value, nslist.value, order)
    }

    /** Each node's statuses, oldest first; nothing until the first one is set. */
    ghost function Contents(): Option<History>
      reads this
    {
      if ns.None? then None else Some(HistoryOf(ns.value, order))
    }

    method SetNodeStatus(node: string, x: Status)
      requires Valid()
      modifies this
      ensures Valid() && Contents() == After(old(Contents()), SetStatus(node, x))
    {
      hide Good, HistoryOf;
      var a, b := ns, nslist;
      if a.None? {
        EmptyGood();
        a, b, order := Some(map[]), Some(map[]), map[];
      }
      var id := GetNextID(a.value);
      Added(a.value, b.value, order, node, id, x);
      order := order[node := IdsOf(order, node) + [id]];
      ns := Some(a.value[id := x]);
      nslist := Some(b.value[node := IdsOf(b.value, node) + [id]]);
    }

    method DeleteStatuses(node: string) returns (r: Result<()>)
      requires Valid()
      modifies this
      ensures Valid() && Contents() == After(old(Contents()), DeleteStatus(node))
      ensures r.Ok? == old(Contents()).Some?
    {
      hide Good, HistoryOf;
      if ns.None? || nslist.None? {
        return NoStatuses;
      }
      Removed(ns.value, nslist.value, order, node);
      var ids, left := IdsOf(nslist.value, node), ns.value;
      for i := 0 to |ids|
        invariant left == Without(ns.value, ids[..i])
      {
        left := left - {ids[i]};
        assert ids[..i + 1] == ids[..i] + [ids[i]];
      }
      assert ids[..|ids|] == ids;
      ns, nslist := Some(left), Some(nslist.value - {node});
      order := order - {node};
      return Ok(());
    }

    method DeleteNodeStatus(node: string) returns (r: Result<()>)
      requires Valid()
      modifies this
      ensures Valid() && Contents() == After(old(Contents()), DeleteStatus(node))
      ensures r.Ok? == old(Contents()).Some?
    {
      r := DeleteStatuses(node);
    }

    method ReplaceNodeStatuses(node: string, objs: seq<Status>) returns (r: Result<()>)
      requires Valid()
      modifies this
      ensures Valid() && Contents() == After(old(Contents()), ReplaceStatuses(node, objs))
      ensures r.Ok? == old(Contents()).Some?
    {
      hide Good, HistoryOf;
      r := DeleteStatuses(node);
      if r.NoStatuses? || |objs| == 0 {
        return;
      }
      ghost var kept := Contents().value;
      var a, b := ns.value, nslist.value;
      for i := 0 to |objs|
        invariant Good(a, b, order) && ns.Some?
        invariant HistoryOf(a, order) == if i == 0 then kept else kept[node := objs[..i]]
        modifies `order
      {
        var id := GetNextID(a);
        Added(a, b, order, node, id, objs[i]);
        assert Get(if i == 0 then kept else kept[node := objs[..i]], node) + [objs[i]] == objs[..i + 1];
        order := order[node := IdsOf(order, node) + [id]];
        a, b := a[id := objs[i]], b[node := IdsOf(b, node) + [id]];
      }
      assert objs[..|objs|] == objs;
      assert kept[node := objs] == old(Contents()).value[node := objs];
      ns, nslist := Some(a), Some(b);
    }

    /** The node's history, though possibly not in order. */
    method AllNodeStatuses(node: string) returns (r: Result<seq<Status>>)
      requires Valid()
      ensures r.Ok? == Contents().Some?
      ensures r.Ok? ==> multiset(r.value) == multiset(Get(Contents().value, node))
    {
      hide Good, HistoryOf;
      if ns.None? || nslist.None? {
        return NoStatuses;
      }
      AllOf(ns.value, nslist.value, order, node);
      var ids := IdsOf(nslist.value, node);
      var arr := [];
      assert Named(ns.value, ids[..0]) == [];
      hide Named;
      for i := 0 to |ids|
        invariant arr == Named(ns.value, ids[..i])
      {
        assert ids[i] in ids;
        NamedNext(ns.value, ids, i);
        arr := arr + [ns.value[ids[i]]];
      }
      assert ids[..|ids|] == ids;
      return Ok(arr);
    }

    /** The status added last: ids are sorted in place, which the history does not notice. */
    method LatestNodeStatus(node: string) returns (r: Result<Status>)
      requires Valid()
      modifies this`nslist
      ensures Valid() && Contents() == old(Contents())
      ensures r.Ok? == (Contents().Some? && node in Contents().value)
      ensures r.Ok? ==> var h := Contents().value[node]; h != [] && r.value == h[|h| - 1]
    {
      hide Good, HistoryOf, Sort, Sorted;
      if ns.None? || nslist.None? || node !in nslist.value {
        if ns.Some? && nslist.Some? {
          NotListed(ns.value, nslist.value, order, node);
        }
        return NoStatuses;
      }
      var sorted := Sort(nslist.value[node], Greater);
      GreaterSorts(nslist.value[node]);
      LatestOf(ns.value, nslist.value, order, node, sorted);
      Resorted(ns.value, nslist.value, order, node, sorted);
      nslist := Some(nslist.value[node := sorted]);
      return Ok(ns.value[sorted[0]]);
    }
  }

  lemma NamedNext(ns: map<int, Status>, ids: seq<int>, i: nat)
    requires i < |ids| && ids[i] in ns
    ensures Named(ns, ids[..i + 1]) == Named(ns, ids[..i]) + [ns[ids[i]]]
  {
  }

  lemma EmptyGood()
    ensures Good(map[], map[], map[]) && HistoryOf(map[], map[]) == map[]
  {
  }

  lemma LargestIsLast(sorted: seq<int>, added: seq<int>)
    requires Sorted(sorted, Greater) && Ascending(added) && multiset(sorted) == multiset(added) && added != []
    ensures sorted != [] && sorted[0] == added[|added| - 1]
  {
    SameMembers(sorted, added);
    assert added[|added| - 1] in added && sorted[0] in sorted;
  }

  lemma NotListed(ns: map<int, Status>, lists: map<string, seq<int>>, order: map<string, seq<int>>, node: string)
    requires Good(ns, lists, order) && node !in lists
    ensures node !in HistoryOf(ns, order)
  {
    hide AllOrdered, AllApart, Covered;
  }

  lemma OrderedOne(ns: map<int, Status>, lists: map<string, seq<int>>, order: map<string, seq<int>>, node: string)
    requires Good(ns, lists, order) && node in lists
    ensures node in order && Ordered(ns, lists[node], order[node])
  {
    hide AllApart, Covered, Ordered;
    assert Ordered(ns, IdsOf(lists, node), order[node]);
  }

  lemma HistoryLast(ns: map<int, Status>, order: map<string, seq<int>>, node: string)
    requires node in order && order[node] != [] && forall id :: id in order[node] ==> id in ns
    ensures node in HistoryOf(ns, order)
    ensures var h, ids := HistoryOf(ns, order)[node], order[node];
      h != [] && ids[|ids| - 1] in ns && h[|h| - 1] == ns[ids[|ids| - 1]]
  {
    var ids := order[node];
    assert ids[|ids| - 1] in ids;
  }

  lemma LatestOf(ns: map<int, Status>, lists: map<string, seq<int>>, order: map<string, seq<int>>, node: string,
      sorted: seq<int>)
    requires Good(ns, lists, order) && node in lists
    requires multiset(sorted) == multiset(lists[node]) && Sorted(sorted, Greater)
    ensures sorted != [] && sorted[0] in ns && node in HistoryOf(ns, order)
    ensures var h := HistoryOf(ns, order)[node]; h != [] && ns[sorted[0]] == h[|h| - 1]
  {
    OrderedOne(ns, lists, order, node);
    hide Good, Sorted, Ascending, HistoryOf;
    LargestIsLast(sorted, order[node]);
    HistoryLast(ns, order, node);
  }

  lemma AllOf(ns: map<int, Status>, lists: map<string, seq<int>>, order: map<string, seq<int>>, node: string)
    requires Good(ns, lists, order)
    ensures multiset(Named(ns, IdsOf(lists, node))) == multiset(Get(HistoryOf(ns, order), node))
    ensures forall id :: id in IdsOf(lists, node) ==> id in ns
  {
    if node in order {
      var list, added := lists[node], order[node];
      assert Ordered(ns, IdsOf(lists, node), added);
      SameMembers(list, added);
      hide Good, Ordered, AllOrdered;
      SameNames(ns, list, added);
    }
  }

  lemma Resorted(ns: map<int, Status>, lists: map<string, seq<int>>, order: map<string, seq<int>>, node: string,
      sorted: seq<int>)
    requires Good(ns, lists, order) && node in lists && multiset(sorted) == multiset(lists[node])
    ensures Good(ns, lists[node := sorted], order)
  {
    forall n | n in order
      ensures Ordered(ns, IdsOf(lists[node := sorted], n), order[n])
    {
      assert Ordered(ns, IdsOf(lists, n), order[n]);
    }
  }

  /** Rearrangements of each other stay so without a shared element. */
  lemma DropBoth(a: seq<int>, b: seq<int>, j: nat)
    requires a != [] && j < |b| && b[j] == a[|a| - 1] && multiset(a) == multiset(b)
    ensures multiset(a[..|a| - 1]) == multiset(b[..j] + b[j + 1..])
  {
    var n := |a| - 1;
    TakenOut(a, n);
    TakenOut(b, j);
    assert a[..n] + a[n + 1..] == a[..n];
    Cancel(multiset(a[..n]), multiset(b[..j] + b[j + 1..]), b[j]);
  }

  lemma {:induction false} SameNames(ns: map<int, Status>, a: seq<int>, b: seq<int>)
    requires multiset(a) == multiset(b)
    ensures multiset(Named(ns, a)) == multiset(Named(ns, b))
    decreases |a|
  {
    SameMembers(a, b);
    if a != [] {
      var last := a[|a| - 1];
      assert last in a;
      var j :| 0 <= j < |b| && b[j] == last;
      DropBoth(a, b, j);
      SameNames(ns, a[..|a| - 1], b[..j] + b[j + 1..]);
      NameLast(ns, a);
      NameAt(ns, b, j);
    }
  }

  lemma NameLast(ns: map<int, Status>, a: seq<int>)
    requires a != []
    ensures multiset(Named(ns, a)) == multiset(Named(ns, a[..|a| - 1])) + multiset{StatusOf(ns, a[|a| - 1])}
  {
    assert Named(ns, a) == Named(ns, a[..|a| - 1]) + [StatusOf(ns, a[|a| - 1])];
  }

  lemma NameAt(ns: map<int, Status>, b: seq<int>, j: nat)
    requires j < |b|
    ensures multiset(Named(ns, b)) == multiset(Named(ns, b[..j] + b[j + 1..])) + multiset{StatusOf(ns, b[j])}
  {
    var all := Named(ns, b);
    TakenOut(all, j);
    assert all[..j] + all[j + 1..] == Named(ns, b[..j] + b[j + 1..]);
  }

  // ---- Runs ----

  datatype Op =
    | SetStatus(node: string, x: Status)
    | ReplaceStatuses(node: string, xs: seq<Status>)
    | DeleteStatus(node: string)
    | ReadLatest(node: string)
    | ReadAll(node: string)

  /** What an operation does to the histories; replacing and deleting fail while there are none. */
  function After(h: Option<History>, op: Op): Option<History> {
    match op
    case SetStatus(node, x) => Some(AddTo(if h.None? then map[] else h.value, node, x))
    case ReplaceStatuses(node, xs) =>
      if h.None? then None else Some(if xs == [] then h.value - {node} else h.value[node := xs])
    case DeleteStatus(node) => if h.None? then None else Some(h.value - {node})
    case ReadLatest(_) => h
    case ReadAll(_) => h
  }

  /** The histories after a run. */
  function AfterAll(ops: seq<Op>): Option<History> {
    if ops == [] then None else After(AfterAll(ops[..|ops| - 1]), ops[|ops| - 1])
  }

  /** Performs a run on a new store, which stands for the histories throughout. */
  method Perform(ops: seq<Op>) returns (store: DataStore)
    ensures fresh(store) && store.Valid() && store.Contents() == AfterAll(ops)
  {
    store := new DataStore();
    for i := 0 to |ops|
      invariant fresh(store) && store.Valid() && store.Contents() == AfterAll(ops[..i])
    {
      assert ops[..i + 1][..i] == ops[..i];
      match ops[i] {
        case SetStatus(node, x) => store.SetNodeStatus(node, x);
        case ReplaceStatuses(node, xs) => var r := store.ReplaceNodeStatuses(node, xs);
        case DeleteStatus(node) => var r := store.DeleteNodeStatus(node);
        case ReadLatest(node) => var r := store.LatestNodeStatus(node);
        case ReadAll(node) => var r := store.AllNodeStatuses(node);
      }
    }
    assert ops[..|ops|] == ops;
  }

  /** The status a run added to a node last, if it was not deleted since. */
  function LastAdded(ops: seq<Op>, node: string): Option<Status> {
    if ops == [] then None
    else
      var before, op := ops[..|ops| - 1], ops[|ops| - 1];
      if op.node != node || op.ReadLatest? || op.ReadAll? then LastAdded(before, node)
      else if op.SetStatus? then Some(op.x)
      else if op.ReplaceStatuses? && op.xs != [] && AfterAll(before).Some? then Some(op.xs[|op.xs| - 1])
      else None
  }

  /** After every run the latest status of a node is the one added to it last. */
  lemma {:induction false} LatestIsLastAdded(ops: seq<Op>, node: string)
    ensures var h := AfterAll(ops); var s := if h.None? then [] else Get(h.value, node);
      LastAdded(ops, node) == if s == [] then None else Some(s[|s| - 1])
  {
    if ops != [] {
      LatestIsLastAdded(ops[..|ops| - 1], node);
    }
  }
}
