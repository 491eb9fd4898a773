/** The output of shovey runs, kept in chunks under rendered keys (shovey/shovey.go). */
module Shovey {
  import opened Decimal
  import opened Lists
  import opened Sorting

  datatype Run = Run(uuid: string, node: string)

  datatype Chunk = Chunk(run: Run, outputType: string, seqNum: int, output: string, isLast: bool)

  // ---- Keys ----

  function Key(run: Run, outputType: string, n: int): string {
    run.uuid + "_" + run.node + "_" + outputType + "_" + ItoaInt(n)
  }

  function KeyOf(c: Chunk): string {
    Key(c.run, c.outputType, c.seqNum)
  }

  lemma RenderPlain(n: int)
    ensures '_' !in ItoaInt(n)
  {
    var digits := Itoa(if n < 0 then -n else n);
    forall i | 0 <= i < |digits|
      ensures digits[i] != '_'
    {
      assert IsDigit(digits[i]);
    }
  }

  lemma RenderSign(n: int)
    ensures ItoaInt(n) != "" && (ItoaInt(n)[0] == '-' <==> n < 0)
  {
    assert n >= 0 ==> IsDigit(Itoa(n)[0]);
  }

  lemma RenderInjective(m: int, n: int)
    requires ItoaInt(m) == ItoaInt(n)
    ensures m == n
  {
    RenderSign(m);
    RenderSign(n);
    if m < 0 {
      assert ItoaInt(m)[1..] == Itoa(-m) && ItoaInt(n)[1..] == Itoa(-n);
      ItoaInjective(-m, -n);
    } else {
      ItoaInjective(m, n);
    }
  }

  lemma NoneAfter(a: string, b: string)
    requires '_' !in b
    ensures (a + "_" + b)[|a|] == '_' && forall k :: |a| < k < |a + "_" + b| ==> (a + "_" + b)[k] != '_'
  {
    assert forall k :: |a| < k < |a + "_" + b| ==> (a + "_" + b)[k] == b[k - |a| - 1];
  }

  /** Cutting at the last underscore is unambiguous. */
  lemma LastUnderscore(a: string, b: string, c: string, d: string)
    requires a + "_" + b == c + "_" + d && '_' !in b && '_' !in d
    ensures a == c && b == d
  {
    var s := a + "_" + b;
    NoneAfter(a, b);
    NoneAfter(c, d);
    assert |a| == |c|;
    assert s[..|a|] == a && s[..|a|] == c && s[|a| + 1..] == b && s[|a| + 1..] == d;
  }

  /** The number can be read off any key. */
  lemma NumberInKey(r: Run, t: string, m: int, r': Run, t': string, n: int)
    requires Key(r, t, m) == Key(r', t', n)
    ensures m == n && r.uuid + "_" + r.node + "_" + t == r'.uuid + "_" + r'.node + "_" + t'
  {
    RenderPlain(m);
    RenderPlain(n);
    LastUnderscore(r.uuid + "_" + r.node + "_" + t, ItoaInt(m), r'.uuid + "_" + r'.node + "_" + t', ItoaInt(n));
    RenderInjective(m, n);
  }

  /** One output type is something, an underscore, and the other. */
  predicate Continues(t: string, t': string) {
    |t'| < |t| && t[|t| - |t'| - 1] == '_' && t[|t| - |t'|..] == t'
  }

  predicate Apart(t: string, t': string) {
    !Continues(t, t') && !Continues(t', t)
  }

  lemma ContinuesIs(t: string, t': string)
    ensures Continues(t, t') <==> exists x :: t == x + "_" + t'
  {
    if Continues(t, t') {
      assert t == t[..|t| - |t'| - 1] + "_" + t';
    }
    if x :| t == x + "_" + t' {
      assert t[|x|] == '_' && t[|x| + 1..] == t';
    }
  }

  /** Where two endings of one text meet: they are the same, or the longer one continues the shorter. */
  lemma Endings(a: string, t: string, b: string, t': string)
    requires a + "_" + t == b + "_" + t'
    ensures (a == b && t == t') || Continues(t, t') || Continues(t', t)
  {
    var s := a + "_" + t;
    assert s[|a|] == '_' && s[|a| + 1..] == t;
    assert (b + "_" + t')[|b|] == '_' && (b + "_" + t')[|b| + 1..] == t';
    if |t| == |t'| {
      assert s[..|a|] == a && (b + "_" + t')[..|b|] == b;
    } else if |t'| < |t| {
      assert t[|t| - |t'| - 1] == s[|b|] && t[|t| - |t'|..] == s[|b| + 1..];
    } else {
      assert t'[|t'| - |t| - 1] == s[|a|] && t'[|t'| - |t|..] == s[|a| + 1..];
    }
  }

  lemma WithoutId(u: string, x: string, u': string, x': string)
    requires |u| == |u'| && u + "_" + x == u' + "_" + x'
    ensures u == u' && x == x'
  {
    var s := u + "_" + x;
    assert s[..|u|] == u && s[..|u|] == u' && s[|u| + 1..] == x && s[|u| + 1..] == x';
  }

  lemma Associated(u: string, n: string, t: string)
    ensures u + "_" + n + "_" + t == u + "_" + (n + "_" + t)
  {
  }

  /** Equal keys of run ids of one length are of the same chunk, or of output types one of which continues the other. */
  lemma EqualKeys(r: Run, t: string, m: int, r': Run, t': string, n: int)
    requires Key(r, t, m) == Key(r', t', n) && |r.uuid| == |r'.uuid|
    ensures m == n && ((r == r' && t == t') || !Apart(t, t'))
  {
    hide Key, Continues;
    NumberInKey(r, t, m, r', t', n);
    Associated(r.uuid, r.node, t);
    Associated(r'.uuid, r'.node, t');
    WithoutId(r.uuid, r.node + "_" + t, r'.uuid, r'.node + "_" + t');
    Endings(r.node, t, r'.node, t');
  }

  lemma Regrouped(u: string, n: string, a: string, b: string, r: string)
    ensures u + "_" + n + "_" + (a + "_" + b) + "_" + r == u + "_" + (n + "_" + a) + "_" + b + "_" + r
  {
    var x := u + "_" + n;
    assert x + "_" + (a + "_" + b) == x + "_" + a + "_" + b;
    assert u + "_" + (n + "_" + a) == x + "_" + a;
  }

  /** Every underscore in an output type can be taken for one in a node's name. */
  lemma UnderscoresCollide(uuid: string, node: string, a: string, b: string, n: int)
    ensures Key(Run(uuid, node), a + "_" + b, n) == Key(Run(uuid, node + "_" + a), b, n)
  {
    hide ItoaInt;
    Regrouped(uuid, node, a, b, ItoaInt(n));
  }

  /** Some key of one output type is also a key of the other, for another run, type or number. */
  ghost predicate Collide(length: nat, t: string, t': string) {
    exists r: Run, m, r': Run, n :: |r.uuid| == length && |r'.uuid| == length && Key(r, t, m) == Key(r', t', n) &&
                          (r != r' || t != t' || m != n)
  }

  lemma ContinuedCollide(length: nat, t: string, t': string)
    requires Continues(t, t')
    ensures Collide(length, t, t') && Collide(length, t', t)
  {
    hide Key;
    ContinuesIs(t, t');
    var x :| t == x + "_" + t';
    var uuid := seq(length, _ => '0');
    UnderscoresCollide(uuid, "web", x, t', 0);
    var r, r' := Run(uuid, "web"), Run(uuid, "web" + "_" + x);
    assert t != t' && Key(r, t, 0) == Key(r', t', 0);
  }

  /** With run ids of one length, output types collide exactly when one is something, an underscore, and the other. */
  lemma CollideExactly(length: nat, t: string, t': string)
    ensures Collide(length, t, t') <==> Continues(t, t') || Continues(t', t)
  {
    hide Key, Continues;
    if Collide(length, t, t') {
      var r: Run, m, r': Run, n :| |r.uuid| == length && |r'.uuid| == length && Key(r, t, m) == Key(r', t', n) &&
                         (r != r' || t != t' || m != n);
      EqualKeys(r, t, m, r', t', n);
    } else if Continues(t, t') {
      ContinuedCollide(length, t, t');
    } else if Continues(t', t) {
      ContinuedCollide(length, t', t);
    }
  }

  /** So keys of run ids of one length and output types without underscores tell everything apart. */
  lemma KeyInjective(r: Run, t: string, m: int, r': Run, t': string, n: int)
    requires Key(r, t, m) == Key(r', t', n) && |r.uuid| == |r'.uuid| && '_' !in t && '_' !in t'
    ensures r == r' && t == t' && m == n
  {
    hide Key;
    EqualKeys(r, t, m, r', t', n);
  }

  // ---- The store ----

  type Store = map<string, Chunk>

  /** Every chunk is under its own key. */
  ghost predicate Filed(store: Store) {
    forall k :: k in store ==> KeyOf(store[k]) == k
  }

  datatype Id = Id(run: Run, outputType: string, seqNum: int)

  function IdOf(c: Chunk): Id {
    Id(c.run, c.outputType, c.seqNum)
  }

  /** What adding a chunk does: a second one under the same key is refused. */
  function Put(store: Store, c: Chunk): Store {
    if KeyOf(c) in store then store else store[KeyOf(c) := c]
  }

  function PutAll(chunks: seq<Chunk>): Store {
    if chunks == [] then map[] else Put(PutAll(chunks[..|chunks| - 1]), chunks[|chunks| - 1])
  }

  class Streams {
    var store: Store

    constructor ()
      ensures store == map[]
    {
      store := map[];
    }

    method AddStreamOutput(run: Run, output: string, outputType: string, seqNum: int, isLast: bool) returns (ok: bool)
      requires Filed(store)
      modifies this
      ensures Filed(store)
      ensures ok == (Key(run, outputType, seqNum) !in old(store))
      ensures store == Put(old(store), Chunk(run, outputType, seqNum, output, isLast))
      ensures ok ==> store == old(store)[run.uuid + "_" + run.node + "_" + outputType + "_" + ItoaInt(seqNum) :=
        Chunk(run, outputType, seqNum, output, isLast)]
      ensures !ok ==> store == old(store)
    {
      var key := Key(run, outputType, seqNum);
      if key in store {
        return false;
      }
      store := store[key := Chunk(run, outputType, seqNum, output, isLast)];
      return true;
    }

    method AddAll(chunks: seq<Chunk>)
      requires store == map[]
      modifies this
      ensures Filed(store) && store == PutAll(chunks)
    {
      for i := 0 to |chunks|
        invariant Filed(store) && store == PutAll(chunks[..i])
      {
        var c := chunks[i];
        assert chunks[..i + 1][..i] == chunks[..i];
        var ok := AddStreamOutput(c.run, c.output, c.outputType, c.seqNum, c.isLast);
      }
      assert chunks[..|chunks|] == chunks;
    }

    /** The chunks from a number on, up to the first that is missing.  Only finitely many are there. */
    method GetStreamOutput(run: Run, outputType: string, seqNum: int) returns (chunks: seq<Chunk>)
      ensures Reads(store, run, outputType, seqNum, chunks)
    {
      hide Key;
      chunks := [];
      var i := seqNum;
      while Key(run, outputType, i) in store
        invariant i == seqNum + |chunks|
        invariant forall k :: 0 <= k < |chunks| ==> Under(store, run, outputType, seqNum + k, chunks[k])
        decreases |store| - |chunks|
      {
        chunks := chunks + [store[Key(run, outputType, i)]];
        i := i + 1;
        FewerThanAll(store, run, outputType, seqNum, chunks);
      }
    }

    method CombineStreamOutput(run: Run, outputType: string, seqNum: int) returns (combined: string)
      requires Filed(store)
      ensures exists chunks :: Reads(store, run, outputType, seqNum, chunks) && combined == Text(chunks)
      ensures forall chunks :: Reads(store, run, outputType, seqNum, chunks) ==> InSequence(combined, chunks)
    {
      hide Key, Reads, Filed;
      var chunks := GetStreamOutput(run, outputType, seqNum);
      var stream := Sort(chunks, Before);
      BeforeSorts(chunks);
      AlreadySorted(store, run, outputType, seqNum, chunks);
      SortedIsSame(chunks, stream);
      combined := "";
      for i := 0 to |stream|
        invariant combined == Text(stream[..i])
      {
        assert stream[..i + 1][..i] == stream[..i];
        combined := combined + stream[i].output;
      }
      assert stream[..|stream|] == stream;
      TextInSequence(chunks);
      forall read | Reads(store, run, outputType, seqNum, read)
        ensures read == chunks
      {
        OneReading(store, run, outputType, seqNum, read, chunks);
      }
    }

    /** From the chunks as they arrive to the text of one stream: in whatever order they were sent, the text is that of
        the chunks of this run and type by number, up to the first that was not sent. */
    method Deliver(arrived: seq<Chunk>, run: Run, outputType: string, seqNum: int) returns (combined: string)
      requires store == map[] && AllProper(arrived) && DistinctIds(arrived) && ProperReader(arrived, run, outputType)
      modifies this
      ensures exists stream :: StreamOf(stream, arrived, run, outputType, seqNum) && InSequence(combined, stream)
      ensures forall sent, stream ::
        multiset(sent) == multiset(arrived) && StreamOf(stream, sent, run, outputType, seqNum) ==>
          InSequence(combined, stream)
    {
      hide Key, PutAll, AllProper, ProperReader, DistinctIds, Reads, Filed, StreamOf;
      AddAll(arrived);
      combined := CombineStreamOutput(run, outputType, seqNum);
      ghost var read :| Reads(store, run, outputType, seqNum, read) && combined == Text(read);
      ReadsWhatWasAdded(arrived, run, outputType, seqNum, read);
      TextInSequence(read);
      forall sent, stream | multiset(sent) == multiset(arrived) && StreamOf(stream, sent, run, outputType, seqNum)
        ensures InSequence(combined, stream)
      {
        OneStream(arrived, read, sent, stream, run, outputType, seqNum);
      }
    }
  }

  predicate Under(store: Store, run: Run, outputType: string, n: int, c: Chunk) {
    Key(run, outputType, n) in store && store[Key(run, outputType, n)] == c
  }

  /** The longest gap-free run of chunks that starts at a number. */
  ghost predicate Reads(store: Store, run: Run, outputType: string, seqNum: int, chunks: seq<Chunk>) {
    (forall k :: 0 <= k < |chunks| ==> Under(store, run, outputType, seqNum + k, chunks[k])) &&
    Key(run, outputType, seqNum + |chunks|) !in store
  }

  ghost function Keys(run: Run, outputType: string, seqNum: int, n: nat): (keys: set<string>)
    ensures |keys| == n
    ensures forall key :: key in keys ==> exists k :: seqNum <= k < seqNum + n && key == Key(run, outputType, k)
  {
    if n == 0 then {}
    else
      var keys, key := Keys(run, outputType, seqNum, n - 1), Key(run, outputType, seqNum + n - 1);
      assert key !in keys by {
        if key in keys {
          var k :| seqNum <= k < seqNum + n - 1 && key == Key(run, outputType, k);
          NumberInKey(run, outputType, k, run, outputType, seqNum + n - 1);
        }
      }
      keys + {key}
  }

  /** A store cannot hold more chunks of a stream than it has keys. */
  lemma FewerThanAll(store: Store, run: Run, outputType: string, seqNum: int, chunks: seq<Chunk>)
    requires forall k :: 0 <= k < |chunks| ==> Under(store, run, outputType, seqNum + k, chunks[k])
    ensures |chunks| <= |store|
  {
    hide Key;
    var keys := Keys(run, outputType, seqNum, |chunks|);
    forall key | key in keys
      ensures key in store.Keys
    {
      var k :| seqNum <= k < seqNum + |chunks| && key == Key(run, outputType, k);
      assert Under(store, run, outputType, seqNum + (k - seqNum), chunks[k - seqNum]);
    }
    SubsetSize(keys, store.Keys);
  }

  predicate Before(c: Chunk, d: Chunk) {
    c.seqNum < d.seqNum
  }

  lemma BeforeSorts(chunks: seq<Chunk>)
    ensures Sorted(Sort(chunks, Before), Before) && multiset(Sort(chunks, Before)) == multiset(chunks)
  {
    hide Sort, Sorted;
    SortSorts(chunks, Before);
    SortKeeps(chunks, Before);
  }

  function Text(chunks: seq<Chunk>): string {
    if chunks == [] then "" else Text(chunks[..|chunks| - 1]) + chunks[|chunks| - 1].output
  }

  /** Where the output of the chunk at a position begins. */
  function Offset(chunks: seq<Chunk>, k: nat): nat
    requires k <= |chunks|
  {
    if k == 0 then 0 else Offset(chunks, k - 1) + |chunks[k - 1].output|
  }

  /** The output of each chunk stands right behind those before it, and there is nothing else. */
  ghost predicate InSequence(text: string, chunks: seq<Chunk>) {
    |text| == Offset(chunks, |chunks|) && forall k :: 0 <= k < |chunks| ==> StandsAt(text, Offset(chunks, k), chunks[k])
  }

  predicate StandsAt(text: string, at: nat, c: Chunk) {
    at + |c.output| <= |text| && text[at..at + |c.output|] == c.output
  }

  lemma {:induction false} OffsetStays(chunks: seq<Chunk>, c: Chunk, k: nat)
    requires k <= |chunks|
    ensures Offset(chunks + [c], k) == Offset(chunks, k)
    decreases k
  {
    if k > 0 {
      OffsetStays(chunks, c, k - 1);
    }
  }

  lemma StandsLonger(text: string, at: nat, c: Chunk, more: string)
    requires StandsAt(text, at, c)
    ensures StandsAt(text + more, at, c)
  {
    assert (text + more)[at..at + |c.output|] == text[at..at + |c.output|];
  }

  lemma OneMoreInSequence(text: string, chunks: seq<Chunk>, c: Chunk)
    requires InSequence(text, chunks)
    ensures InSequence(text + c.output, chunks + [c])
  {
    var all, longer := chunks + [c], text + c.output;
    OffsetStays(chunks, c, |chunks|);
    assert |longer| == Offset(all, |all|) && StandsAt(longer, |text|, c);
    hide StandsAt;
    forall k | 0 <= k < |all|
      ensures StandsAt(longer, Offset(all, k), all[k])
    {
      if k < |chunks| {
        OffsetStays(chunks, c, k);
        StandsLonger(text, Offset(chunks, k), chunks[k], c.output);
      }
    }
  }

  lemma {:induction false} TextInSequence(chunks: seq<Chunk>)
    ensures InSequence(Text(chunks), chunks)
  {
    hide InSequence;
    if chunks == [] {
      EmptyInSequence();
    } else {
      var init, last := chunks[..|chunks| - 1], chunks[|chunks| - 1];
      TextInSequence(init);
      OneMoreInSequence(Text(init), init, last);
      assert chunks == init + [last];
    }
  }

  lemma EmptyInSequence()
    ensures InSequence("", [])
  {
  }

  lemma OneReading(store: Store, run: Run, outputType: string, seqNum: int, a: seq<Chunk>, b: seq<Chunk>)
    requires Reads(store, run, outputType, seqNum, a) && Reads(store, run, outputType, seqNum, b)
    ensures a == b
  {
    hide Key;
    assert |a| == |b| by {
      hide Reads;
      ReadsHave(store, run, outputType, seqNum, a, |b|);
      ReadsHave(store, run, outputType, seqNum, b, |a|);
    }
    forall k | 0 <= k < |a|
      ensures a[k] == b[k]
    {
      assert Under(store, run, outputType, seqNum + k, a[k]) && Under(store, run, outputType, seqNum + k, b[k]);
    }
  }

  lemma ReadsHave(store: Store, run: Run, outputType: string, seqNum: int, read: seq<Chunk>, k: nat)
    requires Reads(store, run, outputType, seqNum, read)
    ensures k < |read| ==> Key(run, outputType, seqNum + k) in store
    ensures Key(run, outputType, seqNum + |read|) !in store
  {
    hide Key;
    assert k < |read| ==> Under(store, run, outputType, seqNum + k, read[k]);
  }

  predicate Rising(chunks: seq<Chunk>) {
    forall i, j :: 0 <= i < j < |chunks| ==> chunks[i].seqNum < chunks[j].seqNum
  }

  lemma AlreadySorted(store: Store, run: Run, outputType: string, seqNum: int, chunks: seq<Chunk>)
    requires Filed(store) && Reads(store, run, outputType, seqNum, chunks)
    ensures Rising(chunks)
  {
    hide Key;
    forall k | 0 <= k < |chunks|
      ensures chunks[k].seqNum == seqNum + k
    {
      assert Under(store, run, outputType, seqNum + k, chunks[k]);
      NumberInKey(run, outputType, seqNum + k, chunks[k].run, chunks[k].outputType, chunks[k].seqNum);
    }
  }

  lemma LastAgrees(a: seq<Chunk>, b: seq<Chunk>)
    requires Rising(a) && Sorted(b, Before) && multiset(a) == multiset(b) && a != []
    ensures |a| == |b| && a[|a| - 1] == b[|b| - 1]
  {
    assert |multiset(a)| == |a| && |multiset(b)| == |b|;
    var x, y := a[|a| - 1], b[|b| - 1];
    assert x in multiset(a) && y in multiset(b);
    var i :| 0 <= i < |b| && b[i] == x;
    var j :| 0 <= j < |a| && a[j] == y;
    assert i < |b| - 1 ==> !Before(y, b[i]);
  }

  /** A sorted rearrangement of chunks that rise already is those chunks. */
  lemma {:induction false} SortedIsSame(a: seq<Chunk>, b: seq<Chunk>)
    requires Rising(a) && Sorted(b, Before) && multiset(a) == multiset(b)
    ensures a == b
  {
    assert |multiset(a)| == |a| && |multiset(b)| == |b|;
    if a != [] {
      LastAgrees(a, b);
      var n := |a| - 1;
      assert a == a[..n] + [a[n]] && b == b[..n] + [a[n]];
      Cancel(multiset(a[..n]), multiset(b[..n]), a[n]);
      SortedIsSame(a[..n], b[..n]);
    }
  }

  // ---- Arrival order ----

  const UUID_LENGTH := 36

  /** Run ids have one length, and no output type continues another, as in "stdout" and "stderr" or "std_out" and
      "std_err". */
  ghost predicate AllProper(chunks: seq<Chunk>) {
    (forall i :: 0 <= i < |chunks| ==> |chunks[i].run.uuid| == UUID_LENGTH) &&
    (forall i, j :: 0 <= i < |chunks| && 0 <= j < |chunks| ==> Apart(chunks[i].outputType, chunks[j].outputType))
  }

  /** The run and the type asked for are of the same kind. */
  ghost predicate ProperReader(chunks: seq<Chunk>, run: Run, outputType: string) {
    |run.uuid| == UUID_LENGTH && forall i :: 0 <= i < |chunks| ==> Apart(chunks[i].outputType, outputType)
  }

  ghost predicate DistinctIds(chunks: seq<Chunk>) {
    forall i, j :: 0 <= i < j < |chunks| ==> IdOf(chunks[i]) != IdOf(chunks[j])
  }

  lemma SameKeySameId(c: Chunk, d: Chunk)
    requires |c.run.uuid| == |d.run.uuid| && Apart(c.outputType, d.outputType) && KeyOf(c) == KeyOf(d)
    ensures IdOf(c) == IdOf(d)
  {
    hide Key;
    EqualKeys(c.run, c.outputType, c.seqNum, d.run, d.outputType, d.seqNum);
  }

  /** The store holds the chunks that were added, each under its key, and no others. */
  ghost predicate HoldsExactly(store: Store, chunks: seq<Chunk>) {
    (forall i :: 0 <= i < |chunks| ==> KeyOf(chunks[i]) in store && store[KeyOf(chunks[i])] == chunks[i]) &&
    (forall k :: k in store ==> store[k] in chunks && KeyOf(store[k]) == k)
  }

  lemma {:induction false} AllAreStored(chunks: seq<Chunk>)
    requires AllProper(chunks) && DistinctIds(chunks)
    ensures HoldsExactly(PutAll(chunks), chunks)
  {
    hide KeyOf, Put, Apart;
    if chunks != [] {
      var n := |chunks| - 1;
      AllAreStored(chunks[..n]);
      hide HoldsExactly;
      forall i | 0 <= i < n
        ensures KeyOf(chunks[..n][i]) != KeyOf(chunks[n])
      {
        if KeyOf(chunks[i]) == KeyOf(chunks[n]) {
          SameKeySameId(chunks[i], chunks[n]);
        }
      }
      assert chunks == chunks[..n] + [chunks[n]];
      OneMoreStored(PutAll(chunks[..n]), chunks[..n], chunks[n]);
    }
  }

  lemma OneMoreStored(store: Store, chunks: seq<Chunk>, c: Chunk)
    requires HoldsExactly(store, chunks) && forall i :: 0 <= i < |chunks| ==> KeyOf(chunks[i]) != KeyOf(c)
    ensures HoldsExactly(Put(store, c), chunks + [c])
  {
    hide KeyOf;
    assert KeyOf(c) !in store;
    assert (chunks + [c])[|chunks|] == c;
  }

  lemma HeldAlike(s: Store, t: Store, a: seq<Chunk>, b: seq<Chunk>)
    requires HoldsExactly(s, a) && HoldsExactly(t, b) && forall c :: c in a <==> c in b
    ensures forall k :: k in s ==> k in t && t[k] == s[k]
  {
    hide KeyOf;
    forall k | k in s
      ensures k in t && t[k] == s[k]
    {
      assert s[k] in b;
      var i :| 0 <= i < |b| && b[i] == s[k];
      assert KeyOf(b[i]) in t;
    }
  }

  /** Chunks added in any order make the same store. */
  lemma OrderDoesNotMatter(a: seq<Chunk>, b: seq<Chunk>)
    requires AllProper(a) && DistinctIds(a) && AllProper(b) && DistinctIds(b) && multiset(a) == multiset(b)
    ensures PutAll(a) == PutAll(b)
  {
    hide HoldsExactly, PutAll;
    AllAreStored(a);
    AllAreStored(b);
    SameMembers(a, b);
    HeldAlike(PutAll(a), PutAll(b), a, b);
    HeldAlike(PutAll(b), PutAll(a), b, a);
  }

  /** The chunks of a run and type with the numbers from seqNum on, up to the first there is none of. */
  ghost predicate StreamOf(stream: seq<Chunk>, chunks: seq<Chunk>, run: Run, outputType: string, seqNum: int) {
    (forall k :: 0 <= k < |stream| ==> stream[k] in chunks && IdOf(stream[k]) == Id(run, outputType, seqNum + k)) &&
    (forall c :: c in chunks ==> IdOf(c) != Id(run, outputType, seqNum + |stream|))
  }

  ghost predicate Has(chunks: seq<Chunk>, id: Id) {
    exists c :: c in chunks && IdOf(c) == id
  }

  lemma StreamHas(stream: seq<Chunk>, chunks: seq<Chunk>, run: Run, outputType: string, seqNum: int, k: nat)
    requires StreamOf(stream, chunks, run, outputType, seqNum)
    ensures k < |stream| ==> Has(chunks, Id(run, outputType, seqNum + k))
    ensures !Has(chunks, Id(run, outputType, seqNum + |stream|))
  {
    assert k < |stream| ==> stream[k] in chunks;
  }

  /** There is only one such stream, whatever order the chunks came in. */
  lemma OneStream(a: seq<Chunk>, x: seq<Chunk>, b: seq<Chunk>, y: seq<Chunk>, run: Run, outputType: string,
      seqNum: int)
    requires DistinctIds(a) && multiset(a) == multiset(b)
    requires StreamOf(x, a, run, outputType, seqNum) && StreamOf(y, b, run, outputType, seqNum)
    ensures x == y
  {
    SameMembers(a, b);
    assert |x| == |y| by {
      StreamHas(x, a, run, outputType, seqNum, |y|);
      StreamHas(y, b, run, outputType, seqNum, |x|);
    }
    forall k | 0 <= k < |x|
      ensures x[k] == y[k]
    {
      var i :| 0 <= i < |a| && a[i] == x[k];
      assert y[k] in a;
      var j :| 0 <= j < |a| && a[j] == y[k];
      assert IdOf(a[i]) == IdOf(a[j]);
    }
  }

  /** What is read back: the chunks of this very run and type with the numbers from seqNum on, up to the first that
      was not added. */
  lemma ReadsWhatWasAdded(chunks: seq<Chunk>, run: Run, outputType: string, seqNum: int, read: seq<Chunk>)
    requires AllProper(chunks) && DistinctIds(chunks)
    requires ProperReader(chunks, run, outputType)
    requires Reads(PutAll(chunks), run, outputType, seqNum, read)
    ensures StreamOf(read, chunks, run, outputType, seqNum)
  {
    hide Key, PutAll, AllProper, ProperReader, DistinctIds, HoldsExactly, Reads, Under;
    AllAreStored(chunks);
    var store := PutAll(chunks);
    ReadsEach(store, run, outputType, seqNum, read);
    forall k | 0 <= k < |read|
      ensures read[k] in chunks && IdOf(read[k]) == Id(run, outputType, seqNum + k)
    {
      var c := read[k];
      FoundIsRight(store, chunks, run, outputType, seqNum + k, c);
    }
    forall c | c in chunks
      ensures IdOf(c) != Id(run, outputType, seqNum + |read|)
    {
      KeptByKey(store, chunks, c);
    }
  }

  lemma ReadsEach(store: Store, run: Run, outputType: string, seqNum: int, read: seq<Chunk>)
    requires Reads(store, run, outputType, seqNum, read)
    ensures forall k :: 0 <= k < |read| ==> Under(store, run, outputType, seqNum + k, read[k])
    ensures Key(run, outputType, seqNum + |read|) !in store
  {
    hide Key;
  }

  lemma KeptByKey(store: Store, chunks: seq<Chunk>, c: Chunk)
    requires HoldsExactly(store, chunks) && c in chunks
    ensures Key(c.run, c.outputType, c.seqNum) in store
  {
    hide Key;
    var i :| 0 <= i < |chunks| && chunks[i] == c;
    assert KeyOf(chunks[i]) in store;
  }

  lemma FoundIsRight(store: Store, chunks: seq<Chunk>, run: Run, outputType: string, n: int, c: Chunk)
    requires HoldsExactly(store, chunks) && Under(store, run, outputType, n, c)
    requires AllProper(chunks) && ProperReader(chunks, run, outputType)
    ensures c in chunks && IdOf(c) == Id(run, outputType, n)
  {
    hide Key, Apart;
    EqualKeys(c.run, c.outputType, c.seqNum, run, outputType, n);
  }
}
