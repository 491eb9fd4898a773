/** Decimal numerals, as strconv and fmt write and read them. */
module Decimal {

  predicate IsDigit(c: char) {
    '0' <= c <= '9'
  }

  predicate AllDigits(s: string) {
    forall i :: 0 <= i < |s| ==> IsDigit(s[i])
  }

  function DigitChar(d: int): (c: char)
    requires 0 <= d < 10
    ensures IsDigit(c) && DigitValue(c) == d && (c == '0' <==> d == 0)
  {
    '0' + d as char
  }

  function DigitValue(c: char): (d: int)
    requires IsDigit(c)
    ensures 0 <= d < 10
  {
    (c - '0') as int
  }

  /** %d of a natural number. */
  function Itoa(n: nat): (s: string)
    ensures s != "" && AllDigits(s)
  {
    if n < 10 then [DigitChar(n)] else Itoa(n / 10) + [DigitChar(n % 10)]
  }

  /** %d of an int. */
  function ItoaInt(n: int): string {
    if n >= 0 then Itoa(n) else "-" + Itoa(-n)
  }

  /** The number a string of digits stands for. */
  function Atoi(s: string): nat
    requires AllDigits(s)
  {
    if s == "" then 0 else Atoi(s[..|s| - 1]) * 10 + DigitValue(s[|s| - 1])
  }

  lemma {:induction false} AtoiItoa(n: nat)
    ensures Atoi(Itoa(n)) == n
  {
    var s := Itoa(n);
    if n < 10 {
      assert s[..0] == "";
    } else {
      AtoiItoa(n / 10);
      assert s[..|s| - 1] == Itoa(n / 10);
    }
  }

  /** Digits count for ten times those after them, and only zero starts with one. */
  lemma Numerals(a: string, c: char, n: nat)
    requires AllDigits(a) && IsDigit(c)
    ensures Atoi(a + [c]) == Atoi(a) * 10 + (c as int - '0' as int)
    ensures Itoa(n)[0] == '0' <==> n == 0
  {
    assert (a + [c])[..|a|] == a;
    FirstDigit(n);
  }

  lemma {:induction false} FirstDigit(n: nat)
    ensures Itoa(n)[0] == '0' <==> n == 0
  {
    if n >= 10 {
      FirstDigit(n / 10);
    }
  }

  lemma ItoaInjective(m: nat, n: nat)
    requires Itoa(m) == Itoa(n)
    ensures m == n
  {
    AtoiItoa(m);
    AtoiItoa(n);
  }
}
