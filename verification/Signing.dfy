/** Signing request headers with a private key and checking them with the public one
    (authentication/go-chef/chef/authentication.go, authentication/authentication.go and
    chefcrypto/chefcrypto.go). */
module Signing {
  import opened NumberTheory
  import opened Wrappers
  import opened Bytes
  import opened Rsa
  import opened Decimal

  /** The modulus' length in bytes. */
  function KeyBytes(n: nat): nat {
    (BitLen(n) + 7) / 8
  }

  /** The number of bytes it takes to write the modulus. */
  lemma KeyBytesAre(n: nat)
    requires n > 0
    ensures KeyBytes(n) > 0 && Pow(256, KeyBytes(n) - 1) <= n < Pow(256, KeyBytes(n))
  {
    hide Pow, BitLen;
    ByteLength(n);
    BitLenBounds(n);
    TwoToTheEighth();
    var k := KeyBytes(n);
    assert BitLen(n) <= 8 * k;
    PowMul(2, 8, k);
    PowMonotone(BitLen(n), 8 * k);
  }

  function Filler(count: nat): seq<Byte> {
    seq(count, _ => 255)
  }

  /** Block type 01 of section 8.1 of RFC 2313. */
  function Padded(k: nat, data: seq<Byte>): (em: seq<Byte>)
    requires |data| + 11 <= k
    ensures |em| == k
  {
    [0, 1] + Filler(k - |data| - 3) + [0] + data
  }

  /** A zero, the block type, the filler, a zero and the data. */
  lemma BlockIs(k: nat, data: seq<Byte>)
    requires |data| + 11 <= k
    ensures var em := Padded(k, data);
      em[0] == 0 && em[1] == 1 && (forall i :: 2 <= i < k - |data| - 1 ==> em[i] == 255) &&
      em[k - |data| - 1] == 0 && em[k - |data|..] == data
  {
  }

  method Pad(k: nat, data: seq<Byte>) returns (em: array<Byte>)
    requires |data| + 11 <= k
    ensures fresh(em) && em[..] == Padded(k, data)
    ensures em.Length == k && em[0] == 0 && em[1] == 1 && em[k - |data| - 1] == 0 && em[k - |data|..] == data
    ensures forall i :: 2 <= i < k - |data| - 1 ==> em[i] == 255
  {
    var tLen := |data|;
    em := new Byte[k](_ => 0);
    em[1] := 1;
    for i := 2 to k - tLen - 1
      invariant em[0] == 0 && em[1] == 1
      invariant forall j :: 2 <= j < i ==> em[j] == 255
      invariant forall j :: i <= j < k ==> em[j] == 0
    {
      em[i] := 255;
    }
    ghost var head := em[..k - tLen];
    for i := 0 to tLen
      invariant em[..k - tLen] == head
      invariant forall j :: 0 <= j < i ==> em[k - tLen + j] == data[j]
    {
      em[k - tLen + i] := data[i];
    }
    assert head == [0, 1] + Filler(k - tLen - 3) + [0];
    assert em[k - tLen..] == data;
    assert em[..] == em[..k - tLen] + em[k - tLen..];
    BlockIs(k, data);
    forall i | 0 <= i < k
      ensures em[i] == Padded(k, data)[i]
    {
      assert em[..][i] == em[i];
    }
  }

  /** The padded block is always below the modulus: its first byte is zero and the modulus' is not. */
  lemma BlockBelow(n: nat, data: seq<Byte>)
    requires n > 0 && |data| + 11 <= KeyBytes(n)
    ensures 0 < FromBytes(Padded(KeyBytes(n), data)) < n
    ensures ToBytes(FromBytes(Padded(KeyBytes(n), data))) == Padded(KeyBytes(n), data)[1..]
  {
    var em := Padded(KeyBytes(n), data);
    assert em == [0] + em[1..];
    LeadingZero(em[1..]);
    FromBytesPositive(em[1..]);
    FromBytesBelow(em[1..]);
    ByteLength(n);
    ToFromBytes(em[1..]);
  }

  /** `TooLong` is the error; `Nothing` is the return of neither a signature nor an error. */
  datatype SignResult = TooLong | Nothing | Signed(sig: seq<Byte>)

  method PrivateEncrypt(key: PrivateKey, data: seq<Byte>) returns (r: SignResult)
    requires ValidKey(key)
    ensures key.pub.n > 0
    ensures r.TooLong? <==> |data| + 11 > KeyBytes(key.pub.n)
    ensures !r.TooLong? ==>
      r == Signed(ToBytes(Exp(FromBytes(Padded(KeyBytes(key.pub.n), data)), key.d, key.pub.n)))
  {
    hide ValidKey, Padded, FromBytes, ToBytes, Exp;
    var k: int := KeyBytes(key.pub.n);
    if |data| > k - 11 {
      ModulusPositive(key);
      return TooLong;
    }
    var em := Pad(k, data);
    var c := FromBytes(em[..]);
    var m := PrivateExp(key, c);
    BlockBelow(key.pub.n, data);
    ExpNat(c, key.d, key.pub.n);
    r := if c > key.pub.n then Nothing else Signed(ToBytes(m));
  }

  lemma ModulusPositive(key: PrivateKey)
    requires ValidKey(key)
    ensures key.pub.n > 0
  {
    ProductPositive(key.primes);
  }

  lemma ExpNat(c: nat, d: nat, n: nat)
    requires n > 0
    ensures Exp(c, d, n) >= 0
  {
  }

  // ---- Cutting the encoded signature into numbered headers ----

  function Joined(chunks: seq<string>): string {
    if chunks == [] then "" else Joined(chunks[..|chunks| - 1]) + chunks[|chunks| - 1]
  }

  method Base64BlockEncode(content: seq<Byte>, limit: nat) returns (chunks: seq<string>)
    requires limit > 0 || content != []
    ensures Joined(chunks) == Encode(content)
    ensures var size := if limit == 0 then |Encode(content)| else limit;
      (forall i :: 0 <= i < |chunks| ==> 0 < |chunks[i]| <= size) &&
      (forall i :: 0 <= i < |chunks| - 1 ==> |chunks[i]| == size)
  {
    hide Encode;
    EncodeNonEmpty(content);
    var encoded := Encode(content);
    var size := if limit == 0 then |encoded| else limit;
    var count := |encoded| / size;
    DivisionFacts(|encoded|, size);
    chunks := [];
    var index := 0;
    for i := 0 to count
      invariant index == i * size <= |encoded|
      invariant Joined(chunks) == encoded[..index]
      invariant forall k :: 0 <= k < |chunks| ==> |chunks[k]| == size
    {
      NextChunkFits(|encoded|, size, count, i);
      JoinedAppend(chunks, encoded[index..index + size]);
      chunks := chunks + [encoded[index..index + size]];
      assert encoded[..index] + encoded[index..index + size] == encoded[..index + size];
      index := index + size;
    }
    if |encoded| % size != 0 {
      JoinedAppend(chunks, encoded[index..]);
      chunks := chunks + [encoded[index..]];
    }
  }

  lemma JoinedAppend(chunks: seq<string>, chunk: string)
    ensures Joined(chunks + [chunk]) == Joined(chunks) + chunk
  {
    assert (chunks + [chunk])[..|chunks|] == chunks;
  }

  /** Joining is one after the other. */
  lemma {:induction false} JoinedParts(a: seq<string>, b: seq<string>)
    ensures Joined([]) == "" && Joined(a + b) == Joined(a) + Joined(b)
  {
    if b == [] {
      assert a + b == a;
    } else {
      JoinedParts(a, b[..|b| - 1]);
      assert (a + b)[..|a + b| - 1] == a + b[..|b| - 1];
    }
  }

  lemma JoinedOne(chunk: string)
    ensures Joined([chunk]) == chunk
  {
    JoinedAppend([], chunk);
  }

  lemma EncodeNonEmpty(content: seq<Byte>)
    ensures content != [] ==> Encode(content) != ""
  {
  }

  lemma DivisionFacts(len: nat, size: nat)
    requires size > 0
    ensures var count := len / size; len % size == len - count * size && 0 <= len - count * size < size
  {
    assert len == (len / size) * size + len % size;
  }

  lemma NextChunkFits(len: nat, size: nat, count: nat, i: nat)
    requires size > 0 && i < count && count * size <= len
    ensures i * size + size <= len && (i + 1) * size == i * size + size
  {
    assert (i + 1) * size <= count * size;
  }

  const PREFIX := "X-Ops-Authorization-"

  function HeaderName(i: nat): string {
    PREFIX + Itoa(i)
  }

  /** The header the chunk at the given position goes into. */
  function ChunkName(i: nat): string {
    HeaderName(i + 1)
  }

  function Lower(c: char): char {
    if 'A' <= c <= 'Z' then (c - 'A') + 'a' else c
  }

  function LeadingDigits(s: string): (r: string)
    ensures AllDigits(r) && r <= s
  {
    if s == "" || !IsDigit(s[0]) then "" else [s[0]] + LeadingDigits(s[1..])
  }

  /** Whether the name matches `(?i)^X-Ops-Authorization-(\\d+)`, and the number it carries. */
  function AuthNumber(name: string): Option<nat> {
    if |name| < |PREFIX| || (exists i :: 0 <= i < |PREFIX| && Lower(name[i]) != Lower(PREFIX[i])) then None
    else
      var digits := LeadingDigits(name[|PREFIX|..]);
      if digits == "" then None else Some(Atoi(digits))
  }

  lemma {:induction false} LeadingAll(s: string)
    requires AllDigits(s)
    ensures LeadingDigits(s) == s
  {
    if s != "" {
      LeadingAll(s[1..]);
    }
  }

  lemma AuthNumberOfName(i: nat)
    ensures AuthNumber(HeaderName(i)) == Some(i)
  {
    hide Itoa;
    var name := HeaderName(i);
    assert name[|PREFIX|..] == Itoa(i);
    LeadingAll(Itoa(i));
    AtoiItoa(i);
  }

  /** The same letters, whether capital or small. */
  predicate SameLetters(a: string, b: string) {
    |a| == |b| && forall i :: 0 <= i < |a| ==>
      a[i] == b[i] || ('A' <= a[i] <= 'Z' && b[i] as int == a[i] as int + 32) ||
      ('A' <= b[i] <= 'Z' && a[i] as int == b[i] as int + 32)
  }

  /** The name of a header that carries a part of the signature, with a number right after it. */
  predicate IsSignature(name: string) {
    |name| > 20 && SameLetters(name[..20], "X-Ops-Authorization-") && '0' <= name[20] <= '9'
  }

  lemma LowerIsSame(a: char, b: char)
    ensures Lower(a) == Lower(b) <==>
      a == b || ('A' <= a <= 'Z' && b as int == a as int + 32) || ('A' <= b <= 'Z' && a as int == b as int + 32)
  {
  }

  lemma PrefixIs(name: string)
    requires |name| >= 20
    ensures SameLetters(name[..20], "X-Ops-Authorization-") <==>
      forall i :: 0 <= i < 20 ==> Lower(name[i]) == Lower(PREFIX[i])
  {
    forall i | 0 <= i < 20
      ensures Lower(name[i]) == Lower(PREFIX[i]) <==>
        name[i] == PREFIX[i] || ('A' <= name[i] <= 'Z' && PREFIX[i] as int == name[i] as int + 32) ||
        ('A' <= PREFIX[i] <= 'Z' && name[i] as int == PREFIX[i] as int + 32)
    {
      LowerIsSame(name[i], PREFIX[i]);
    }
    hide Lower;
    assert PREFIX == "X-Ops-Authorization-";
    assert forall i :: 0 <= i < 20 ==> name[..20][i] == name[i];
  }

  /** Exactly those names have a number. */
  lemma NumberedExactly(name: string)
    ensures AuthNumber(name).Some? <==> IsSignature(name)
  {
    if |name| >= 20 {
      PrefixIs(name);
      assert |PREFIX| == 20;
      hide Lower, SameLetters;
      var rest := name[20..];
      assert rest != "" ==> rest[0] == name[20];
      assert LeadingDigits(rest) != "" <==> rest != "" && IsDigit(rest[0]);
    }
  }

  lemma {:induction false} DigitsEnd(digits: string, rest: string)
    requires AllDigits(digits) && (rest == "" || !IsDigit(rest[0]))
    ensures LeadingDigits(digits + rest) == digits
  {
    if digits == "" {
      assert digits + rest == rest;
    } else {
      DigitsEnd(digits[1..], rest);
      assert (digits + rest)[1..] == digits[1..] + rest;
    }
  }

  /** The number is the one written after the name, in any letter case and whatever follows its digits. */
  lemma NumberIsWritten(name: string, i: nat, rest: string)
    requires SameLetters(name, "X-Ops-Authorization-") && (rest == "" || !('0' <= rest[0] <= '9'))
    ensures AuthNumber(name + Itoa(i) + rest) == Some(i)
  {
    hide Itoa;
    var whole := name + Itoa(i) + rest;
    assert |name| == 20 && whole[..20] == name && whole[20..] == Itoa(i) + rest;
    PrefixIs(whole);
    DigitsEnd(Itoa(i), rest);
    AtoiItoa(i);
  }

  /** The numbers of the signature headers. */
  ghost function Numbers(headers: map<string, string>): set<nat> {
    set name | name in headers && AuthNumber(name).Some? :: AuthNumber(name).value
  }

  /** For each number, the value of some header that carries it. */
  ghost predicate Picks(headers: map<string, string>, store: map<nat, string>) {
    store.Keys == Numbers(headers) &&
    forall i :: i in store ==>
      exists name :: name in headers && AuthNumber(name) == Some(i) && headers[name] == store[i]
  }

  datatype Assembled = NoHeaders | Malformed | Panics | Text(text: string)

  ghost predicate Numbered(numbers: set<nat>, count: nat) {
    forall k :: k in numbers <==> 1 <= k <= count
  }

  function InOrder(store: map<nat, string>, count: nat): string
    requires forall k :: 1 <= k <= count ==> k in store
  {
    if count == 0 then "" else InOrder(store, count - 1) + store[count]
  }

  /** Collects the values of the signature headers by number, in the arbitrary order of a map. */
  method Collect(headers: map<string, string>) returns (store: map<nat, string>)
    ensures Picks(headers, store)
  {
    store := map[];
    var todo := headers.Keys;
    while todo != {}
      invariant todo <= headers.Keys
      invariant forall name :: name in headers.Keys - todo && AuthNumber(name).Some? ==> AuthNumber(name).value in store
      invariant forall i :: i in store ==>
        exists name :: name in headers && AuthNumber(name) == Some(i) && headers[name] == store[i]
    {
      var k :| k in todo;
      todo := todo - {k};
      var number := AuthNumber(k);
      if number.Some? {
        store := store[number.value := headers[k]];
      }
    }
  }

  ghost function Interval(count: nat): (r: set<nat>)
    ensures forall k :: k in r <==> 1 <= k <= count
    ensures |r| == count
  {
    if count == 0 then {} else Interval(count - 1) + {count}
  }

  lemma {:induction false} SameSize(a: set<nat>, b: set<nat>)
    requires a <= b && |a| >= |b|
    ensures a == b
  {
    if a != {} {
      var x :| x in a;
      SameSize(a - {x}, b - {x});
    }
  }

  /** As many numbers as there are places, none outside them: each place has one. */
  lemma NoGaps(numbers: set<nat>)
    requires forall k :: k in numbers ==> 1 <= k <= |numbers|
    ensures Numbered(numbers, |numbers|)
  {
    SameSize(numbers, Interval(|numbers|));
  }

  lemma {:induction false} JoinedInOrder(store: map<nat, string>, s: seq<string>)
    requires forall k :: 1 <= k <= |s| ==> k in store && s[k - 1] == store[k]
    ensures Joined(s) == InOrder(store, |s|)
  {
    if s != [] {
      JoinedInOrder(store, s[..|s| - 1]);
    }
  }

  /** The text is the values of the numbered headers in the order of their numbers. */
  ghost predicate Spells(headers: map<string, string>, text: string) {
    exists store :: Picks(headers, store) && Numbered(store.Keys, |store|) && text == InOrder(store, |store|)
  }

  /** Puts each value in the place its number names. */
  method Place(store: map<nat, string>) returns (r: Assembled)
    requires |store| > 0
    ensures !r.NoHeaders?
    ensures r.Text? <==> Numbered(store.Keys, |store|)
    ensures r.Text? ==> r.text == InOrder(store, |store|)
    ensures r.Malformed? ==> exists k :: k in store.Keys && k > |store|
    ensures r.Panics? ==> 0 in store.Keys
  {
    var limit := |store|;
    var sH := new string[limit](_ => "");
    var todo := store.Keys;
    while todo != {}
      invariant todo <= store.Keys
      invariant forall k :: k in store.Keys && k !in todo ==> 1 <= k <= limit && sH[k - 1] == store[k]
    {
      var k :| k in todo;
      todo := todo - {k};
      if k > limit {
        return Malformed;
      }
      if k == 0 {
        return Panics;
      }
      sH[k - 1] := store[k];
    }
    assert |store.Keys| == limit;
    NoGaps(store.Keys);
    JoinedInOrder(store, sH[..]);
    r := Text(Joined(sH[..]));
  }

  /** The headers are one for each value, numbered from 1, in any letter case, and others that carry no part. */
  ghost predicate PartsAre(headers: map<string, string>, values: seq<string>) {
    (forall i :: 0 <= i < |values| ==> HasPart(headers, i)) &&
    (forall name :: name in headers && IsSignature(name) ==>
      exists i :: 0 <= i < |values| && NamesPart(name, i) && headers[name] == values[i])
  }

  ghost predicate HasPart(headers: map<string, string>, i: nat) {
    exists name :: name in headers && NamesPart(name, i)
  }

  /** The name of the header for the value at a position. */
  ghost predicate NamesPart(name: string, i: nat) {
    |name| >= 20 && SameLetters(name[..20], "X-Ops-Authorization-") && name[20..] == Itoa(i + 1)
  }

  lemma NameHasNumber(name: string, i: nat)
    requires NamesPart(name, i)
    ensures AuthNumber(name) == Some(i + 1)
  {
    hide Itoa, AuthNumber;
    NumberIsWritten(name[..20], i + 1, "");
    assert name == name[..20] + Itoa(i + 1) + "";
  }

  lemma NoneIsSignature(headers: map<string, string>)
    ensures Numbers(headers) == {} <==> forall name :: name in headers ==> !IsSignature(name)
  {
    hide AuthNumber, IsSignature;
    forall name | name in headers
      ensures AuthNumber(name).Some? <==> IsSignature(name)
    {
      NumberedExactly(name);
    }
    if Numbers(headers) == {} {
      forall name | name in headers
        ensures AuthNumber(name).None?
      {
        OneNumber(headers, name);
      }
    }
  }

  lemma OneNumber(headers: map<string, string>, name: string)
    requires name in headers
    ensures AuthNumber(name).Some? ==> Numbers(headers) != {}
  {
    if AuthNumber(name).Some? {
      assert AuthNumber(name).value in Numbers(headers);
    }
  }

  /** A header with a number carries the part of that number. */
  lemma HeldPart(headers: map<string, string>, values: seq<string>, name: string)
    requires PartsAre(headers, values) && name in headers && AuthNumber(name).Some?
    ensures CarriesPart(headers, values, name)
  {
    hide AuthNumber, IsSignature, NamesPart;
    NumberedExactly(name);
    assert IsSignature(name);
    var i :| 0 <= i < |values| && NamesPart(name, i) && headers[name] == values[i];
    NameHasNumber(name, i);
  }

  ghost predicate CarriesPart(headers: map<string, string>, values: seq<string>, name: string)
    requires name in headers && AuthNumber(name).Some?
  {
    1 <= AuthNumber(name).value <= |values| && headers[name] == values[AuthNumber(name).value - 1]
  }

  lemma HeldNumber(headers: map<string, string>, values: seq<string>, i: nat)
    requires PartsAre(headers, values) && i < |values|
    ensures i + 1 in Numbers(headers)
  {
    hide AuthNumber, IsSignature, NamesPart;
    assert HasPart(headers, i);
    var name :| name in headers && NamesPart(name, i);
    NameHasNumber(name, i);
  }

  /** The headers that have a number are exactly the parts. */
  lemma HeldNumbers(headers: map<string, string>, values: seq<string>)
    requires PartsAre(headers, values)
    ensures Numbers(headers) == Interval(|values|)
  {
    hide AuthNumber, PartsAre, Interval;
    forall k | k in Numbers(headers)
      ensures 1 <= k <= |values|
    {
      var name :| name in headers && AuthNumber(name) == Some(k);
      HeldPart(headers, values, name);
    }
    forall k: nat | 1 <= k <= |values|
      ensures k in Numbers(headers)
    {
      HeldNumber(headers, values, k - 1);
    }
  }

  lemma HeldSpelling(headers: map<string, string>, values: seq<string>, text: string)
    requires PartsAre(headers, values) && Spells(headers, text)
    ensures text == Joined(values)
  {
    hide AuthNumber, PartsAre, Numbers, Picks, InOrder, Joined, Interval;
    HeldNumbers(headers, values);
    var store: map<nat, string> :| Picks(headers, store) && Numbered(store.Keys, |store|) &&
      text == InOrder(store, |store|);
    forall name | name in headers && AuthNumber(name).Some?
      ensures CarriesPart(headers, values, name)
    {
      HeldPart(headers, values, name);
    }
    PickedChunks(values, headers, store);
    JoinedInOrder(store, values);
  }

  /** From such headers the values come out joined in the order of their numbers. */
  lemma HeldText(headers: map<string, string>, values: seq<string>)
    requires values != [] && PartsAre(headers, values)
    ensures Numbers(headers) != {} && Numbered(Numbers(headers), |Numbers(headers)|)
    ensures forall text :: Spells(headers, text) ==> text == Joined(values)
  {
    hide PartsAre, Numbers, Spells, Joined, Interval;
    HeldNumbers(headers, values);
    assert 1 in Numbers(headers);
    forall text | Spells(headers, text)
      ensures text == Joined(values)
    {
      HeldSpelling(headers, values, text);
    }
  }

  method AssembleSignedHeader(headers: map<string, string>) returns (r: Assembled)
    ensures r.NoHeaders? <==> Numbers(headers) == {}
    ensures r.Text? <==> Numbers(headers) != {} && Numbered(Numbers(headers), |Numbers(headers)|)
    ensures r.Text? ==> Spells(headers, r.text)
    ensures r.Malformed? ==> exists k :: k in Numbers(headers) && k > |Numbers(headers)|
    ensures r.Panics? ==> 0 in Numbers(headers)
    ensures r.NoHeaders? <==> forall name :: name in headers ==> !IsSignature(name)
    ensures forall values :: values != [] && PartsAre(headers, values) ==> r == Text(Joined(values))
  {
    NoneIsSignature(headers);
    forall values: seq<string> | values != [] && PartsAre(headers, values)
      ensures Numbers(headers) != {} && Numbered(Numbers(headers), |Numbers(headers)|)
      ensures forall text :: Spells(headers, text) ==> text == Joined(values)
    {
      HeldText(headers, values);
    }
    hide Numbers, PartsAre, IsSignature;
    var store := Collect(headers);
    assert store.Keys == Numbers(headers) && |store.Keys| == |store|;
    hide Picks, Numbered, InOrder;
    if |store| == 0 {
      return NoHeaders;
    }
    r := Place(store);
  }

  // ---- Checking ----

  /** How far the padding reaches: past the first 0xff that a zero follows, looked for from index 2 on. */
  function SkipFrom(dec: seq<Byte>, i: nat): nat
    decreases |dec| - i
  {
    if i + 1 >= |dec| then 0
    else if dec[i] == 255 && dec[i + 1] == 0 then i + 2
    else SkipFrom(dec, i + 1)
  }

  lemma {:induction false} SkipInside(dec: seq<Byte>, i: nat)
    ensures SkipFrom(dec, i) <= |dec|
    decreases |dec| - i
  {
    if i + 1 < |dec| {
      SkipInside(dec, i + 1);
    }
  }

  /** Raising to the public exponent; what remains after the padding. */
  method HeaderDecrypt(pub: PublicKey, text: string) returns (r: Option<seq<Byte>>)
    requires pub.n > 0
    ensures Decode(text).None? ==> r.None?
    ensures Decode(text).Some? ==>
      var dec := ToBytes(Exp(FromBytes(Decode(text).value), pub.e, pub.n));
      SkipFrom(dec, 2) <= |dec| && r == Some(dec[SkipFrom(dec, 2)..])
  {
    hide Decode, Exp, FromBytes, ToBytes;
    var decoded := Decode(text);
    if decoded.None? {
      return None;
    }
    var dec := ToBytes(Exp(FromBytes(decoded.value), pub.e, pub.n));
    var skip := 0;
    var i := 2;
    while i < |dec|
      invariant 2 <= i
      invariant i <= |dec| ==> SkipFrom(dec, 2) == SkipFrom(dec, i)
      invariant i > |dec| ==> i == 2
    {
      if i + 1 >= |dec| {
        break;
      }
      if dec[i] == 255 && dec[i + 1] == 0 {
        skip := i + 2;
        break;
      }
      i := i + 1;
    }
    SkipInside(dec, 2);
    r := Some(dec[skip..]);
  }

  lemma {:induction false} SkipFiller(dec: seq<Byte>, i: nat, last: nat)
    requires i <= last && last + 1 < |dec|
    requires (forall j :: i <= j <= last ==> dec[j] == 255) && dec[last + 1] == 0
    ensures SkipFrom(dec, i) == last + 2
    decreases last - i
  {
    if i < last {
      SkipFiller(dec, i + 1, last);
    }
  }

  /** What unpadding leaves of a padded block is the data. */
  lemma Unpadded(k: nat, data: seq<Byte>)
    requires |data| + 11 <= k
    ensures var dec := Padded(k, data)[1..];
      SkipFrom(dec, 2) == |dec| - |data| && dec[SkipFrom(dec, 2)..] == data
  {
    var em := Padded(k, data);
    var dec := em[1..];
    SkipFiller(dec, 2, k - |data| - 3);
    assert dec[k - |data| - 1..] == data;
  }

  // ---- From one end to the other ----

  /** The chunks stand in the headers numbered from 1; every other header is as it was. */
  ghost predicate Carries(others: map<string, string>, chunks: seq<string>, headers: map<string, string>) {
    (forall i :: 0 <= i < |chunks| ==> ChunkName(i) in headers && headers[ChunkName(i)] == chunks[i]) &&
    (forall name :: name in headers ==> name in others || IsChunkName(name, |chunks|)) &&
    (forall name :: name in others ==>
      name in headers && (headers[name] == others[name] || IsChunkName(name, |chunks|)))
  }

  ghost predicate IsChunkName(name: string, count: nat) {
    exists i :: 0 <= i < count && name == ChunkName(i)
  }

  lemma NamesDiffer(i: nat, j: nat)
    requires i != j
    ensures ChunkName(i) != ChunkName(j)
  {
    AuthNumberOfName(i + 1);
    AuthNumberOfName(j + 1);
  }

  lemma OneMoreName(name: string, i: nat)
    ensures IsChunkName(name, i + 1) <==> IsChunkName(name, i) || name == ChunkName(i)
  {
    hide ChunkName;
    if IsChunkName(name, i) {
      var j :| 0 <= j < i && name == ChunkName(j);
      assert j < i + 1;
    }
  }

  /** The part at a position stands under its number. */
  predicate PartIn(headers: map<string, string>, i: nat, part: string) {
    var name := "X-Ops-Authorization-" + Itoa(i + 1);
    name in headers && headers[name] == part
  }

  lemma NamesSpelled(others: map<string, string>, chunks: seq<string>, headers: map<string, string>)
    requires Carries(others, chunks, headers)
    ensures forall i :: 0 <= i < |chunks| ==> PartIn(headers, i, chunks[i])
  {
    hide Itoa, IsChunkName;
    forall i | 0 <= i < |chunks|
      ensures PartIn(headers, i, chunks[i])
    {
      assert ChunkName(i) in headers;
    }
  }

  method SetHeaders(others: map<string, string>, chunks: seq<string>) returns (headers: map<string, string>)
    ensures Carries(others, chunks, headers)
    ensures forall i :: 0 <= i < |chunks| ==> PartIn(headers, i, chunks[i])
  {
    hide ChunkName, Itoa;
    headers := others;
    for i := 0 to |chunks|
      invariant Carries(others, chunks[..i], headers)
    {
      forall j | 0 <= j < i
        ensures ChunkName(j) != ChunkName(i)
      {
        NamesDiffer(j, i);
      }
      headers := headers[ChunkName(i) := chunks[i]];
      forall name
        ensures IsChunkName(name, i + 1) <==> IsChunkName(name, i) || name == ChunkName(i)
      {
        OneMoreName(name, i);
      }
    }
    assert chunks[..|chunks|] == chunks;
    NamesSpelled(others, chunks, headers);
  }

  lemma ChunkNumber(i: nat)
    ensures AuthNumber(ChunkName(i)) == Some(i + 1)
  {
    AuthNumberOfName(i + 1);
  }

  lemma CarriedNumbers(others: map<string, string>, chunks: seq<string>, headers: map<string, string>)
    requires Carries(others, chunks, headers) && forall name :: name in others ==> AuthNumber(name).None?
    ensures Numbered(Numbers(headers), |chunks|) && |Numbers(headers)| == |chunks|
    ensures forall name :: name in headers && AuthNumber(name).Some? ==>
      1 <= AuthNumber(name).value <= |chunks| && headers[name] == chunks[AuthNumber(name).value - 1]
  {
    hide ChunkName, AuthNumber;
    forall i: nat
      ensures AuthNumber(ChunkName(i)) == Some(i + 1)
    {
      ChunkNumber(i);
    }
    forall k: nat | 1 <= k <= |chunks|
      ensures k in Numbers(headers)
    {
      assert ChunkName(k - 1) in headers;
    }
    assert Numbers(headers) == Interval(|chunks|);
  }

  /** Reassembling gives the joined chunks, whatever order the headers come in. */
  lemma CarriedText(others: map<string, string>, chunks: seq<string>, headers: map<string, string>, text: string)
    requires Carries(others, chunks, headers) && forall name :: name in others ==> AuthNumber(name).None?
    requires Spells(headers, text)
    ensures text == Joined(chunks)
  {
    hide AuthNumber, Numbers, Carries, InOrder, Picks;
    CarriedNumbers(others, chunks, headers);
    var store: map<nat, string> :| Picks(headers, store) && Numbered(store.Keys, |store|) &&
      text == InOrder(store, |store|);
    PickedChunks(chunks, headers, store);
    JoinedInOrder(store, chunks);
  }

  lemma PickedChunks(chunks: seq<string>, headers: map<string, string>, store: map<nat, string>)
    requires Picks(headers, store) && Numbered(Numbers(headers), |chunks|) && |Numbers(headers)| == |chunks|
    requires forall name :: name in headers && AuthNumber(name).Some? ==>
      1 <= AuthNumber(name).value <= |chunks| && headers[name] == chunks[AuthNumber(name).value - 1]
    ensures |store| == |chunks| && forall k :: 1 <= k <= |chunks| ==> k in store && chunks[k - 1] == store[k]
  {
    hide AuthNumber, Numbers;
    assert |store.Keys| == |chunks|;
    forall k | 1 <= k <= |chunks|
      ensures k in store && chunks[k - 1] == store[k]
    {
      assert k in store.Keys;
      var name :| name in headers && AuthNumber(name) == Some(k) && headers[name] == store[k];
    }
  }

  lemma SignatureNotEmpty(key: PrivateKey, c: nat)
    requires ValidKey(key) && 0 < c < key.pub.n
    ensures ToBytes(Exp(c, key.d, key.pub.n)) != []
  {
    Inverse(key, c);
    var m := Exp(c, key.d, key.pub.n);
    if m == 0 {
      ZeroStays(key);
    }
  }

  lemma ZeroStays(key: PrivateKey)
    requires ValidKey(key)
    ensures key.pub.n > 0 && Exp(0, key.pub.e, key.pub.n) == 0
  {
    ModulusPositive(key);
    assert key.pub.e > 0 by {
      var k := InverseExponent(key.primes[0], key.pub.e * key.d);
      assert 0 <= k * (key.primes[0] - 1);
    }
    assert Pow(0, key.pub.e) == 0;
  }

  /** Signing and then checking is the identity on all data the key has room for: padding, exponentiating, encoding,
      cutting into headers, reassembling among any other headers, exponentiating back and unpadding. */
  method SignAndCheck(key: PrivateKey, data: seq<Byte>, others: map<string, string>) returns (r: Option<seq<Byte>>)
    requires ValidKey(key) && |data| + 11 <= KeyBytes(key.pub.n)
    requires forall name :: name in others ==> AuthNumber(name).None?
    ensures r == Some(data)
  {
    hide ValidKey, AuthNumber, Padded, Exp, FromBytes, ToBytes, Encode, Decode, Carries, Spells, Joined, Numbers,
      KeyBytes;
    var signed := PrivateEncrypt(key, data);
    ghost var c := FromBytes(Padded(KeyBytes(key.pub.n), data));
    BlockBelow(key.pub.n, data);
    SignatureNotEmpty(key, c);
    var chunks := Base64BlockEncode(signed.sig, 60);
    EncodeNonEmpty(signed.sig);
    assert chunks != [] by {
      JoinedNothing(chunks);
    }
    var headers := SetHeaders(others, chunks);
    CarriedNumbers(others, chunks, headers);
    var assembled := AssembleSignedHeader(headers);
    NumberedNotEmpty(Numbers(headers), |chunks|);
    CarriedText(others, chunks, headers, assembled.text);
    r := HeaderDecrypt(key.pub, assembled.text);
    Base64RoundTrip(signed.sig);
    FromToBytes(Exp(c, key.d, key.pub.n));
    Inverse(key, c);
    Unpadded(KeyBytes(key.pub.n), data);
  }

  lemma JoinedNothing(chunks: seq<string>)
    ensures chunks == [] ==> Joined(chunks) == ""
  {
  }

  lemma NumberedNotEmpty(numbers: set<nat>, count: nat)
    requires Numbered(numbers, count) && count > 0
    ensures numbers != {}
  {
    assert 1 in numbers;
  }
}
