/** RSA private-key exponentiation with any number of primes
    (authentication/go-chef/chef/authentication.go), as section 5.2.1 of RFC 8017 describes it. */
module Rsa {
  import opened NumberTheory
  import opened Wrappers

  datatype CrtValue = CrtValue(exp: nat, coeff: int, r: nat)

  datatype Precomputed = Precomputed(dp: nat, dq: nat, qinv: int, crt: seq<CrtValue>)

  datatype PublicKey = PublicKey(n: nat, e: nat)

  datatype PrivateKey = PrivateKey(pub: PublicKey, d: nat, primes: seq<nat>, precomputed: Option<Precomputed>)

  function Product(s: seq<nat>): nat {
    if s == [] then 1 else Times(Product(s[..|s| - 1]), s[|s| - 1])
  }

  /** `Exp(b, e, m)` of math/big for a positive modulus. */
  function Exp(b: nat, e: nat, m: nat): (r: nat)
    requires m > 0
    ensures r < m && Cong(m, r, Pow(b, e))
  {
    PowNonNegative(b, e);
    CongMod(m, Pow(b, e));
    Pow(b, e) % m
  }

  ghost predicate DistinctPrimes(primes: seq<nat>) {
    (forall i :: 0 <= i < |primes| ==> Prime(primes[i])) &&
    (forall i, j :: 0 <= i < j < |primes| ==> primes[i] != primes[j])
  }

  /** The exponent, inverse and product kept for each prime after the second. */
  ghost predicate ValidCrt(key: PrivateKey, v: CrtValue, j: nat)
    requires j < |key.primes| && key.primes[j] > 1
  {
    v.exp == key.d % (key.primes[j] - 1) && v.r == Product(key.primes[..j]) && Cong(key.primes[j], v.r * v.coeff, 1)
  }

  ghost predicate ValidPrecomputed(key: PrivateKey, pre: Precomputed)
    requires |key.primes| >= 2 && forall i :: 0 <= i < |key.primes| ==> key.primes[i] > 1
  {
    pre.dp == key.d % (key.primes[0] - 1) && pre.dq == key.d % (key.primes[1] - 1) &&
    Cong(key.primes[0], key.primes[1] * pre.qinv, 1) &&
    |pre.crt| == |key.primes| - 2 &&
    forall i :: 0 <= i < |pre.crt| ==> ValidCrt(key, pre.crt[i], i + 2)
  }

  /** An RSA key: distinct odd primes, their product as modulus, and exponents inverse to each other
      modulo every p - 1. */
  ghost predicate ValidKey(key: PrivateKey) {
    |key.primes| >= 2 && DistinctPrimes(key.primes) && (forall i :: 0 <= i < |key.primes| ==> key.primes[i] > 2) &&
    key.pub.n == Product(key.primes) &&
    (forall i :: 0 <= i < |key.primes| ==> Cong(key.primes[i] - 1, key.pub.e * key.d, 1)) &&
    (key.precomputed.Some? ==> ValidPrecomputed(key, key.precomputed.value))
  }

  /** x stands, modulo each of the first primes, where c^d does. */
  ghost predicate Residues(key: PrivateKey, c: nat, x: int, count: nat)
    requires count <= |key.primes|
  {
    forall j :: 0 <= j < count ==> Cong(key.primes[j], x, Pow(c, key.d))
  }

  // ---- Products of distinct primes ----

  lemma ProductExtend(s: seq<nat>, i: nat)
    requires i < |s|
    ensures Product(s[..i + 1]) == Product(s[..i]) * s[i]
  {
    assert s[..i + 1][..i] == s[..i];
  }

  lemma PositiveTimes(a: int, b: int)
    requires a > 0 && b > 0
    ensures Times(a, b) > 0
  {
  }

  lemma {:induction false} ProductPositive(s: seq<nat>)
    requires forall i :: 0 <= i < |s| ==> s[i] > 0
    ensures Product(s) > 0
  {
    if s != [] {
      ProductPositive(s[..|s| - 1]);
      PositiveTimes(Product(s[..|s| - 1]), s[|s| - 1]);
    }
  }

  lemma {:induction false} FactorDivides(s: seq<nat>, i: nat)
    requires i < |s|
    ensures Divides(s[i], Product(s))
  {
    var last := |s| - 1;
    if i == last {
      Multiple(s[last], Product(s[..last]));
    } else {
      FactorDivides(s[..last], i);
      DividesMul(s[i], Product(s[..last]), s[last]);
    }
  }

  lemma PrimesDoNotDivide(p: int, q: int)
    requires Prime(p) && Prime(q) && p != q
    ensures !Divides(p, q)
  {
    if Divides(p, q) {
      var k :| q == Times(p, k);
      MultipleOutside(p, k);
    }
  }

  /** A prime divides no product of other primes. */
  lemma {:induction false} PrimeAndOthers(p: nat, s: seq<nat>)
    requires Prime(p) && forall i :: 0 <= i < |s| ==> Prime(s[i]) && s[i] != p
    ensures !Divides(p, Product(s))
  {
    if s == [] {
      NotDividesOne(p);
    } else {
      var last := |s| - 1;
      PrimeAndOthers(p, s[..last]);
      PrimesDoNotDivide(p, s[last]);
      if Divides(p, Product(s)) {
        Euclid(p, Product(s[..last]), s[last]);
      }
    }
  }

  lemma NotDividesOne(p: int)
    requires p > 1
    ensures !Divides(p, 1)
  {
    if Divides(p, 1) {
      var k :| 1 == Times(p, k);
      MultipleOutside(p, k);
    }
  }

  /** Numbers congruent modulo each of distinct primes are congruent modulo their product. */
  lemma {:induction false} CongProduct(primes: seq<nat>, a: int, b: int)
    requires DistinctPrimes(primes) && forall i :: 0 <= i < |primes| ==> Cong(primes[i], a, b)
    ensures Cong(Product(primes), a, b)
  {
    if primes == [] {
      Multiple(1, a - b);
    } else {
      var last := |primes| - 1;
      CongProduct(primes[..last], a, b);
      PrimeAndOthers(primes[last], primes[..last]);
      DividesProduct(Product(primes[..last]), primes[last], a - b);
    }
  }

  /** A prime that does not divide r: what both divide, their product divides. */
  lemma DividesProduct(r: int, p: int, n: int)
    requires Prime(p) && !Divides(p, r) && Divides(r, n) && Divides(p, n)
    ensures Divides(r * p, n)
  {
    var k :| n == Times(r, k);
    assert Divides(p, r * k);
    Euclid(p, r, k);
    var j :| k == Times(p, j);
    assert r * (p * j) == (r * p) * j;
    Multiple(r * p, j);
  }

  /** At most one number below the product has given residues. */
  lemma CrtUnique(primes: seq<nat>, a: int, b: int)
    requires DistinctPrimes(primes)
    requires 0 <= a < Product(primes) && 0 <= b < Product(primes)
    requires forall i :: 0 <= i < |primes| ==> Cong(primes[i], a, b)
    ensures a == b
  {
    CongProduct(primes, a, b);
    CongBelow(Product(primes), a, b);
  }

  // ---- The exponentiation ----

  /** With exponents inverse modulo p - 1, the reduced private exponent is not zero. */
  lemma ReducedExponent(p: nat, d: nat, e: nat)
    requires p > 2 && Cong(p - 1, e * d, 1)
    ensures d % (p - 1) > 0
  {
    if d % (p - 1) == 0 {
      assert d == (p - 1) * (d / (p - 1));
      Multiple(p - 1, d / (p - 1));
      DividesMul(p - 1, d, e);
      DividesSum(p - 1, e * d, e * d - 1);
      NotDividesOne(p - 1);
    }
  }

  /** Exponentiating with the exponent kept for a prime gives the residue of c^d. */
  lemma KeptExponent(key: PrivateKey, c: nat, j: nat, exp: nat, r: int)
    requires ValidKey(key) && j < |key.primes| && exp == key.d % (key.primes[j] - 1)
    requires Cong(key.primes[j], r, Pow(c, exp))
    ensures Cong(key.primes[j], r, Pow(c, key.d))
  {
    var p := key.primes[j];
    ReducedExponent(p, key.d, key.pub.e);
    ExponentReduced(p, c, key.d);
    CongTrans(p, r, Pow(c, exp), Pow(c, key.d));
  }

  /** One step of the recombination: adding the right multiple of r keeps the residues it had and sets the next. */
  lemma CrtStep(p: int, r: int, coeff: int, m: int, t: int, h: int)
    requires p > 0 && Cong(p, r * coeff, 1) && Cong(p, h, (t - m) * coeff)
    ensures Cong(p, m + h * r, t)
  {
    CongSelf(p, r);
    CongMul(p, h, (t - m) * coeff, r, r);
    CongSelf(p, t - m);
    CongMul(p, t - m, t - m, r * coeff, 1);
    assert ((t - m) * coeff) * r == (t - m) * (r * coeff);
    CongTrans(p, h * r, (t - m) * (r * coeff), (t - m) * 1);
    CongSelf(p, m);
    CongAdd(p, m, m, h * r, t - m);
  }

  lemma OldResidue(q: int, r: int, m: int, h: int, t: int)
    requires Divides(q, r) && Cong(q, m, t)
    ensures Cong(q, m + h * r, t)
  {
    DividesMul(q, r, h);
    DividesSum(q, m - t, h * r);
  }

  /** The sum stays below the product of the primes so far. */
  lemma CrtBelow(m: int, h: int, r: int, p: int)
    requires 0 <= m < r && 0 <= h < p
    ensures 0 <= m + h * r < r * p
  {
    assert h * r >= 0 by {
      if h > 0 {
        MultipleOutside(r, h);
      }
    }
    assert (p - 1 - h) * r >= 0 by {
      if p - 1 - h > 0 {
        MultipleOutside(r, p - 1 - h);
      }
    }
    assert (p - 1 - h) * r == p * r - r - h * r;
  }

  /** Garner's recombination for one more prime. */
  lemma CrtExtends(key: PrivateKey, c: nat, j: nat, r: nat, coeff: int, m: int, t: int, h: int)
    requires ValidKey(key) && 0 < j < |key.primes| && r == Product(key.primes[..j])
    requires 0 <= m < r && Residues(key, c, m, j)
    requires Cong(key.primes[j], r * coeff, 1) && Cong(key.primes[j], t, Pow(c, key.d))
    requires 0 <= h < key.primes[j] && Cong(key.primes[j], h, (t - m) * coeff)
    ensures 0 <= m + h * r < Product(key.primes[..j + 1]) && Residues(key, c, m + h * r, j + 1)
  {
    var p := key.primes[j];
    ProductExtend(key.primes, j);
    CrtBelow(m, h, r, p);
    CrtStep(p, r, coeff, m, t, h);
    CongTrans(p, m + h * r, t, Pow(c, key.d));
    forall i | 0 <= i < j
      ensures Cong(key.primes[i], m + h * r, Pow(c, key.d))
    {
      FactorDivides(key.primes[..j], i);
      OldResidue(key.primes[i], r, m, h, Pow(c, key.d));
    }
  }

  /** The value the recombination must give: the only one below the modulus with the residues of c^d. */
  lemma CrtIsDirect(key: PrivateKey, c: nat, m: int)
    requires ValidKey(key) && 0 <= m < key.pub.n && Residues(key, c, m, |key.primes|)
    ensures m == Exp(c, key.d, key.pub.n)
  {
    var n := key.pub.n;
    var x := Exp(c, key.d, n);
    forall i | 0 <= i < |key.primes|
      ensures Cong(key.primes[i], m, x)
    {
      var p := key.primes[i];
      FactorDivides(key.primes, i);
      DividesTrans(p, n, x - Pow(c, key.d));
      CongSym(p, x, Pow(c, key.d));
      CongTrans(p, m, Pow(c, key.d), x);
    }
    CrtUnique(key.primes, m, x);
  }

  lemma DividesTrans(a: int, b: int, c: int)
    requires Divides(a, b) && Divides(b, c)
    ensures Divides(a, c)
  {
    var k :| c == Times(b, k);
    DividesMul(a, b, k);
  }

  /** The first two primes, recombined the other way round; d may still be negative after one addition of p. */
  lemma FirstTwo(key: PrivateKey, c: nat, t: int, m2: int, d: int, h: int)
    requires ValidKey(key) && key.precomputed.Some?
    requires Cong(key.primes[0], t, Pow(c, key.d)) && Cong(key.primes[1], m2, Pow(c, key.d))
    requires 0 <= m2 < key.primes[1] && 0 <= h < key.primes[0]
    requires d == t - m2 || d == t - m2 + key.primes[0]
    requires Cong(key.primes[0], h, d * key.precomputed.value.qinv)
    ensures 0 <= m2 + h * key.primes[1] < Product(key.primes[..2]) && Residues(key, c, m2 + h * key.primes[1], 2)
  {
    hide Cong, Pow, Product;
    var p, q, qinv := key.primes[0], key.primes[1], key.precomputed.value.qinv;
    ProductOfTwo(key.primes);
    CrtBelow(m2, h, q, p);
    FirstResidue(p, q, qinv, t, m2, d, h);
    CongTrans(p, m2 + h * q, t, Pow(c, key.d));
    Multiple(q, 1);
    OldResidue(q, q, m2, h, Pow(c, key.d));
  }

  lemma ProductOfTwo(s: seq<nat>)
    requires |s| >= 2
    ensures Product(s[..2]) == s[1] * s[0]
  {
    ProductExtend(s, 0);
    ProductExtend(s, 1);
    assert s[..0] == [];
  }

  lemma FirstResidue(p: int, q: int, qinv: int, t: int, m2: int, d: int, h: int)
    requires p > 0 && Cong(p, q * qinv, 1) && (d == t - m2 || d == t - m2 + p) && Cong(p, h, d * qinv)
    ensures Cong(p, m2 + h * q, t)
  {
    assert Cong(p, d, t - m2) by {
      Multiple(p, 0);
      Multiple(p, 1);
    }
    hide Cong;
    CongSelf(p, qinv);
    CongMul(p, d, t - m2, qinv, qinv);
    CongTrans(p, h, d * qinv, (t - m2) * qinv);
    CrtStep(p, q, qinv, m2, t, h);
  }

  /** One turn of the loop over the remaining primes. */
  lemma NextPrime(key: PrivateKey, c: nat, i: nat, m: int, t: int, h: int)
    requires ValidKey(key) && key.precomputed.Some? && i < |key.precomputed.value.crt|
    requires 0 <= m < Product(key.primes[..i + 2]) && Residues(key, c, m, i + 2)
    requires Cong(key.primes[i + 2], t, Pow(c, key.precomputed.value.crt[i].exp))
    requires h == ((t - m) * key.precomputed.value.crt[i].coeff) % key.primes[i + 2]
    ensures 0 <= m + h * key.precomputed.value.crt[i].r < Product(key.primes[..i + 3])
    ensures Residues(key, c, m + h * key.precomputed.value.crt[i].r, i + 3)
  {
    var values := key.precomputed.value.crt[i];
    assert ValidCrt(key, values, i + 2);
    CongMod(key.primes[i + 2], (t - m) * values.coeff);
    KeptExponent(key, c, i + 2, values.exp, t);
    CrtExtends(key, c, i + 2, values.r, values.coeff, m, t, h);
  }

  /** c^d modulo the key's modulus, through the primes when their values are at hand. */
  method PrivateExp(key: PrivateKey, c: nat) returns (m: int)
    requires ValidKey(key)
    ensures key.pub.n > 0 && m == Exp(c, key.d, key.pub.n)
  {
    hide Cong, Pow, Product, Residues, DistinctPrimes, ValidCrt;
    ProductPositive(key.primes);
    if key.precomputed.None? {
      return Exp(c, key.d, key.pub.n);
    }
    var pre := key.precomputed.value;
    var p, q := key.primes[0], key.primes[1];
    m := Exp(c, pre.dp, p);
    ghost var t := m;
    var m2: int := Exp(c, pre.dq, q);
    m := m - m2;
    if m < 0 {
      m := m + p;
    }
    ghost var diff := m;
    m := m * pre.qinv;
    m := m % p;
    CongMod(p, diff * pre.qinv);
    KeptExponent(key, c, 0, pre.dp, t);
    KeptExponent(key, c, 1, pre.dq, m2);
    FirstTwo(key, c, t, m2, diff, m);
    m := m * q;
    m := m + m2;
    for i := 0 to |pre.crt|
      invariant 0 <= m < Product(key.primes[..i + 2]) && Residues(key, c, m, i + 2)
    {
      var values := pre.crt[i];
      var prime := key.primes[i + 2];
      m2 := Exp(c, values.exp, prime);
      ghost var t := m2;
      m2 := m2 - m;
      m2 := m2 * values.coeff;
      m2 := m2 % prime;
      if m2 < 0 {
        m2 := m2 + prime;
      }
      NextPrime(key, c, i, m, t, m2);
      m2 := m2 * values.r;
      m := m + m2;
    }
    assert key.primes[..|key.primes|] == key.primes;
    CrtIsDirect(key, c, m);
  }

  lemma InverseExponent(p: nat, ed: nat) returns (k: nat)
    requires p > 2 && Cong(p - 1, ed, 1)
    ensures ed == 1 + k * (p - 1)
  {
    assert Divides(p - 1, ed - 1);
    var j :| ed - 1 == Times(p - 1, j);
    MultipleOutside(p - 1, j);
    k := j;
  }

  /** Raising to the private and then to the public exponent gives every number below the modulus back. */
  lemma Inverse(key: PrivateKey, c: nat)
    requires ValidKey(key) && c < key.pub.n
    ensures Exp(Exp(c, key.d, key.pub.n), key.pub.e, key.pub.n) == c
  {
    var n, d, e := key.pub.n, key.d, key.pub.e;
    var s := Exp(c, d, n);
    var x := Exp(s, e, n);
    CongPow(n, s, Pow(c, d), e);
    PowMul(c, d, e);
    CongTrans(n, x, Pow(s, e), Pow(c, d * e));
    forall i | 0 <= i < |key.primes|
      ensures Cong(key.primes[i], x, c)
    {
      var p := key.primes[i];
      FactorDivides(key.primes, i);
      DividesTrans(p, n, x - Pow(c, d * e));
      assert e * d == d * e;
      var k := InverseExponent(p, d * e);
      FermatCycle(p, c, k);
      CongTrans(p, x, Pow(c, d * e), c);
    }
    CrtUnique(key.primes, x, c);
  }
}
