/** The arithmetic behind RSA: congruences, primes, powers, Fermat's little theorem. */
module NumberTheory {

  function Times(a: int, b: int): int {
    a * b
  }

  ghost predicate Divides(d: int, n: int) {
    exists k :: n == Times(d, k)
  }

  /** a and b leave the same remainder modulo m. */
  ghost predicate Cong(m: int, a: int, b: int) {
    Divides(m, a - b)
  }

  ghost predicate Prime(p: int) {
    p > 1 && forall d :: 1 < d < p ==> !Divides(d, p)
  }

  function Pow(b: int, e: nat): int {
    if e == 0 then 1 else b * Pow(b, e - 1)
  }

  lemma Multiple(d: int, k: int)
    ensures Divides(d, d * k)
  {
    assert d * k == Times(d, k);
  }

  lemma DividesSum(d: int, a: int, b: int)
    requires Divides(d, a) && Divides(d, b)
    ensures Divides(d, a + b) && Divides(d, a - b)
  {
    var j :| a == Times(d, j);
    var k :| b == Times(d, k);
    assert a + b == Times(d, j + k) && a - b == Times(d, j - k);
  }

  lemma DividesMul(d: int, a: int, c: int)
    requires Divides(d, a)
    ensures Divides(d, a * c) && Divides(d, c * a)
  {
    var j :| a == Times(d, j);
    assert a * c == d * (j * c);
    Multiple(d, j * c);
  }

  lemma CongSelf(m: int, a: int)
    ensures Cong(m, a, a)
  {
    Multiple(m, 0);
  }

  lemma CongSym(m: int, a: int, b: int)
    requires Cong(m, a, b)
    ensures Cong(m, b, a)
  {
    Multiple(m, 0);
    DividesSum(m, 0, a - b);
  }

  lemma CongTrans(m: int, a: int, b: int, c: int)
    requires Cong(m, a, b) && Cong(m, b, c)
    ensures Cong(m, a, c)
  {
    DividesSum(m, a - b, b - c);
  }

  lemma CongAdd(m: int, a: int, b: int, c: int, d: int)
    requires Cong(m, a, b) && Cong(m, c, d)
    ensures Cong(m, a + c, b + d) && Cong(m, a - c, b - d)
  {
    DividesSum(m, a - b, c - d);
    assert (a + c) - (b + d) == (a - b) + (c - d) && (a - c) - (b - d) == (a - b) - (c - d);
  }

  lemma CongMul(m: int, a: int, b: int, c: int, d: int)
    requires Cong(m, a, b) && Cong(m, c, d)
    ensures Cong(m, a * c, b * d)
  {
    DividesMul(m, a - b, c);
    DividesMul(m, c - d, b);
    DividesSum(m, (a - b) * c, (c - d) * b);
    assert a * c - b * d == (a - b) * c + (c - d) * b;
  }

  lemma {:induction false} CongPow(m: int, a: int, b: int, e: nat)
    requires Cong(m, a, b)
    ensures Cong(m, Pow(a, e), Pow(b, e))
  {
    if e == 0 {
      CongSelf(m, 1);
    } else {
      CongPow(m, a, b, e - 1);
      CongMul(m, a, b, Pow(a, e - 1), Pow(b, e - 1));
    }
  }

  lemma CongMod(m: int, a: int)
    requires m > 0
    ensures Cong(m, a % m, a) && Cong(m, a, a % m)
  {
    assert a == m * (a / m) + a % m;
    Multiple(m, a / m);
    assert a - a % m == m * (a / m);
    CongSym(m, a, a % m);
  }

  /** Congruent numbers below the modulus are equal. */
  lemma CongBelow(m: int, a: int, b: int)
    requires Cong(m, a, b) && 0 <= a < m && 0 <= b < m
    ensures a == b
  {
    var k :| a - b == Times(m, k);
    MultipleOutside(m, k);
  }

  lemma MultipleOutside(m: int, k: int)
    requires m > 0
    ensures k >= 1 ==> m * k >= m
    ensures k <= -1 ==> m * k <= -m
  {
    if k <= -1 {
      assert m * (-k) >= m;
    }
  }

  lemma {:induction false} PowAdd(b: int, e: nat, f: nat)
    ensures Pow(b, e + f) == Pow(b, e) * Pow(b, f)
  {
    if e > 0 {
      PowAdd(b, e - 1, f);
      assert b * (Pow(b, e - 1) * Pow(b, f)) == (b * Pow(b, e - 1)) * Pow(b, f);
    }
  }

  lemma {:induction false} PowMul(b: int, e: nat, f: nat)
    ensures Pow(Pow(b, e), f) == Pow(b, e * f)
  {
    if f > 0 {
      PowMul(b, e, f - 1);
      PowAdd(b, e, e * (f - 1));
      assert e + e * (f - 1) == e * f;
    }
  }

  lemma {:induction false} PowPositive(b: int, e: nat)
    requires b > 0
    ensures Pow(b, e) > 0
  {
    if e > 0 {
      PowPositive(b, e - 1);
    }
  }

  lemma {:induction false} PowNonNegative(b: int, e: nat)
    requires b >= 0
    ensures Pow(b, e) >= 0
  {
    if e > 0 {
      PowNonNegative(b, e - 1);
    }
  }

  lemma RemainderBelow(p: int, a: int)
    requires Prime(p) && 1 < a < p
    ensures 0 < p % a < a
  {
    if p % a == 0 {
      assert p == a * (p / a);
      Multiple(a, p / a);
    }
  }

  /** Euclid's lemma for a factor below the prime: replace it by ever smaller remainders of p. */
  lemma {:induction false} EuclidBelow(p: int, a: int, b: int)
    requires Prime(p) && 0 < a < p && Divides(p, a * b)
    ensures Divides(p, b)
    decreases a
  {
    if a > 1 {
      var q, r := p / a, p % a;
      RemainderBelow(p, a);
      assert r == p - q * a;
      Multiple(p, b);
      DividesMul(p, a * b, q);
      DividesSum(p, p * b, (a * b) * q);
      assert r * b == p * b - (a * b) * q by {
        assert r * b == (p - q * a) * b;
        assert (q * a) * b == (a * b) * q;
      }
      EuclidBelow(p, r, b);
    }
  }

  /** A prime that divides a product divides one of its factors. */
  lemma Euclid(p: int, a: int, b: int)
    requires Prime(p) && Divides(p, a * b) && !Divides(p, a)
    ensures Divides(p, b)
  {
    CongMod(p, a);
    var r := a % p;
    assert r != 0;
    CongSelf(p, b);
    CongMul(p, r, a, b, b);
    DividesSum(p, r * b - a * b, a * b);
    assert r * b - a * b + a * b == r * b;
    EuclidBelow(p, r, b);
  }

  // ---- Fermat's little theorem, by the binomial theorem ----

  function Choose(n: nat, k: nat): nat {
    if k == 0 then 1 else if n == 0 then 0 else Choose(n - 1, k) + Choose(n - 1, k - 1)
  }

  lemma {:induction false} ChooseAbove(n: nat, k: nat)
    requires k > n
    ensures Choose(n, k) == 0
  {
    if n > 0 {
      ChooseAbove(n - 1, k);
      ChooseAbove(n - 1, k - 1);
    }
  }

  lemma {:induction false} ChooseAll(n: nat)
    ensures Choose(n, n) == 1
  {
    if n > 0 {
      ChooseAbove(n - 1, n);
      ChooseAll(n - 1);
    }
  }

  lemma AbsorptionStep(n: int, k: int, x: int, y: int, z: int, w: int)
    requires k * x == (n - 1) * z && (k - 1) * y == (n - 1) * w && y == z + w
    ensures k * (x + y) == n * y
  {
    calc {
      k * (x + y);
      k * x + (k - 1) * y + y;
      (n - 1) * z + (n - 1) * w + y;
      (n - 1) * (z + w) + y;
      n * y;
    }
  }

  lemma {:induction false} Absorption(n: nat, k: nat)
    requires n > 0 && k > 0
    ensures k * Choose(n, k) == n * Choose(n - 1, k - 1)
  {
    if n == 1 && k > 1 {
      ChooseAbove(1, k);
      ChooseAbove(0, k - 1);
    } else if n > 1 && k == 1 {
      Absorption(n - 1, 1);
    } else if n > 1 {
      Absorption(n - 1, k);
      Absorption(n - 1, k - 1);
      AbsorptionStep(n, k, Choose(n - 1, k), Choose(n - 1, k - 1), Choose(n - 2, k - 1), Choose(n - 2, k - 2));
    }
  }

  /** The first terms of (1 + a)^n. */
  function Binomial(a: int, n: nat, m: nat): int {
    Choose(n, m) * Pow(a, m) + if m == 0 then 0 else Binomial(a, n, m - 1)
  }

  lemma TermStep(a: int, x: int, y: int, p: int, b: int, c: int)
    ensures (x + y) * (a * p) + (b + a * c) == (x * (a * p) + b) + a * (y * p + c)
  {
    calc {
      (x + y) * (a * p) + (b + a * c);
      x * (a * p) + y * (a * p) + b + a * c;
      { assert y * (a * p) == a * (y * p); }
      x * (a * p) + a * (y * p) + b + a * c;
      { assert a * (y * p + c) == a * (y * p) + a * c; }
      (x * (a * p) + b) + a * (y * p + c);
    }
  }

  lemma {:induction false} BinomialStep(a: int, n: nat, m: nat)
    ensures Binomial(a, n + 1, m) == Binomial(a, n, m) + if m == 0 then 0 else a * Binomial(a, n, m - 1)
  {
    if m > 0 {
      BinomialStep(a, n, m - 1);
      var b := Binomial(a, n, m - 1);
      var c := if m == 1 then 0 else Binomial(a, n, m - 2);
      TermStep(a, Choose(n, m), Choose(n, m - 1), Pow(a, m - 1), b, c);
    }
  }

  lemma {:induction false} BinomialTheorem(a: int, n: nat)
    ensures Binomial(a, n, n) == Pow(1 + a, n)
  {
    if n == 0 {
      assert Choose(0, 0) == 1 && Pow(a, 0) == 1;
    } else {
      assert Pow(1 + a, n) == (1 + a) * Pow(1 + a, n - 1);
      hide Binomial, Pow;
      BinomialTheorem(a, n - 1);
      BinomialStep(a, n - 1, n);
      NothingBeyond(a, n - 1);
      OneMoreFactor(a, Pow(1 + a, n - 1));
    }
  }

  lemma OneMoreFactor(a: int, x: int)
    ensures (1 + a) * x == x + a * x
  {
  }

  lemma NothingBeyond(a: int, n: nat)
    ensures Binomial(a, n, n + 1) == Binomial(a, n, n)
  {
    hide Choose, Pow;
    ChooseAbove(n, n + 1);
  }

  lemma PrimeDividesChoose(p: nat, k: nat)
    requires Prime(p) && 0 < k < p
    ensures Divides(p, Choose(p, k))
  {
    Absorption(p, k);
    Multiple(p, Choose(p - 1, k - 1));
    EuclidBelow(p, k, Choose(p, k));
  }

  lemma {:induction false} InnerTermsVanish(a: int, p: nat, m: nat)
    requires Prime(p) && m < p
    ensures Cong(p, Binomial(a, p, m), 1)
  {
    if m == 0 {
      CongSelf(p, 1);
    } else {
      InnerTermsVanish(a, p, m - 1);
      PrimeDividesChoose(p, m);
      DividesMul(p, Choose(p, m), Pow(a, m));
      DividesSum(p, Choose(p, m) * Pow(a, m), Binomial(a, p, m - 1) - 1);
    }
  }

  /** a^p and a leave the same remainder modulo p. */
  lemma {:induction false} Fermat(p: nat, a: nat)
    requires Prime(p)
    ensures Cong(p, Pow(a, p), a)
  {
    if a == 0 {
      assert Pow(0, p) == 0;
      CongSelf(p, 0);
    } else {
      var b := a - 1;
      Fermat(p, b);
      InnerTermsVanish(b, p, p - 1);
      OuterTerm(b, p);
      hide Pow, Binomial, Prime, Cong;
      CongAdd(p, Pow(b, p), b, Binomial(b, p, p - 1), 1);
    }
  }

  /** The last term of the binomial theorem, apart. */
  lemma OuterTerm(b: int, p: nat)
    requires p > 0
    ensures Pow(b + 1, p) == Pow(b, p) + Binomial(b, p, p - 1)
  {
    hide Pow, Choose;
    BinomialTheorem(b, p);
    ChooseAll(p);
  }

  /** a^(1 + k(p-1)) is a again modulo p. */
  lemma {:induction false} FermatCycle(p: nat, a: nat, k: nat)
    requires Prime(p)
    ensures Cong(p, Pow(a, 1 + k * (p - 1)), a)
  {
    if k == 0 {
      assert Pow(a, 1) == a;
      CongSelf(p, a);
    } else {
      FermatCycle(p, a, k - 1);
      var e := 1 + (k - 1) * (p - 1);
      assert 1 + k * (p - 1) == e + (p - 1);
      PowAdd(a, e, p - 1);
      CongSelf(p, Pow(a, p - 1));
      CongMul(p, Pow(a, e), a, Pow(a, p - 1), Pow(a, p - 1));
      assert a * Pow(a, p - 1) == Pow(a, p);
      Fermat(p, a);
      CongTrans(p, Pow(a, e) * Pow(a, p - 1), Pow(a, p), a);
    }
  }

  /** Reducing a positive exponent modulo p - 1 does not change the power modulo p. */
  lemma ExponentReduced(p: nat, a: nat, d: nat)
    requires Prime(p) && p > 2 && d % (p - 1) > 0
    ensures Cong(p, Pow(a, d % (p - 1)), Pow(a, d))
  {
    var r, k := d % (p - 1), d / (p - 1);
    assert d == (r - 1) + (1 + k * (p - 1));
    assert k >= 0;
    PowAdd(a, r - 1, 1 + k * (p - 1));
    FermatCycle(p, a, k);
    CongSelf(p, Pow(a, r - 1));
    CongMul(p, Pow(a, r - 1), Pow(a, r - 1), Pow(a, 1 + k * (p - 1)), a);
    assert Pow(a, r) == Pow(a, r - 1) * a;
    CongSym(p, Pow(a, d), Pow(a, r));
  }
}
