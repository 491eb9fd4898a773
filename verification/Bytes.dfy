/** Byte strings as math/big and encoding/base64 read and write them. */
module Bytes {
  import opened NumberTheory
  import opened Wrappers

  type Byte = x: int | 0 <= x < 256

  /** Big-endian value; `SetBytes`. */
  function FromBytes(b: seq<Byte>): nat {
    if b == [] then 0 else FromBytes(b[..|b| - 1]) * 256 + b[|b| - 1]
  }

  /** Big-endian digits without leading zeros; `Bytes`. */
  function ToBytes(n: nat): seq<Byte> {
    if n == 0 then [] else ToBytes(n / 256) + [n % 256]
  }

  lemma {:induction false} FromToBytes(n: nat)
    ensures FromBytes(ToBytes(n)) == n
  {
    if n > 0 {
      FromToBytes(n / 256);
      assert ToBytes(n)[..|ToBytes(n)| - 1] == ToBytes(n / 256);
    }
  }

  lemma {:induction false} FromBytesPositive(b: seq<Byte>)
    requires b != [] && b[0] != 0
    ensures FromBytes(b) > 0
  {
    if |b| > 1 {
      FromBytesPositive(b[..|b| - 1]);
    }
  }

  /** The last byte is the remainder. */
  lemma LastByte(n: nat, m: nat, x: Byte)
    requires n == m * 256 + x && n > 0
    ensures ToBytes(n) == ToBytes(m) + [x]
  {
    assert n / 256 == m && n % 256 == x;
  }

  lemma {:induction false} ToFromBytes(b: seq<Byte>)
    requires b == [] || b[0] != 0
    ensures ToBytes(FromBytes(b)) == b
  {
    if b != [] {
      FromBytesPositive(b);
      ToFromBytes(b[..|b| - 1]);
      LastByte(FromBytes(b), FromBytes(b[..|b| - 1]), b[|b| - 1]);
      assert b == b[..|b| - 1] + [b[|b| - 1]];
    }
  }

  lemma {:induction false} LeadingZero(b: seq<Byte>)
    ensures FromBytes([0] + b) == FromBytes(b)
  {
    if b == [] {
      assert [0][..0] == [];
      assert FromBytes([0]) == FromBytes([]) * 256 + 0;
      assert [0] + b == [0];
    } else {
      LeadingZero(b[..|b| - 1]);
      assert ([0] + b)[..|b|] == [0] + b[..|b| - 1];
    }
  }

  /** The first byte counts most. */
  lemma {:induction false} BigEndian(a: seq<Byte>, b: seq<Byte>)
    ensures FromBytes(a + b) == FromBytes(a) * Pow(256, |b|) + FromBytes(b)
  {
    if b == [] {
      assert a + b == a;
    } else {
      var init := b[..|b| - 1];
      BigEndian(a, init);
      assert (a + b)[..|a + b| - 1] == a + init;
      assert FromBytes(a) * Pow(256, |b|) == FromBytes(a) * Pow(256, |init|) * 256;
    }
  }

  lemma OneByte(x: Byte)
    ensures FromBytes([x]) == x
  {
    assert [x][..0] == [];
  }

  lemma {:induction false} FromBytesBelow(b: seq<Byte>)
    ensures FromBytes(b) < Pow(256, |b|)
  {
    if b != [] {
      FromBytesBelow(b[..|b| - 1]);
    }
  }

  /** The number of bits of n. */
  function BitLen(n: nat): nat {
    if n == 0 then 0 else 1 + BitLen(n / 2)
  }

  lemma {:induction false} BitLenBounds(n: nat)
    requires n > 0
    ensures BitLen(n) > 0 && Pow(2, BitLen(n) - 1) <= n < Pow(2, BitLen(n))
  {
    if n > 1 {
      BitLenBounds(n / 2);
    }
  }

  lemma {:induction false} PowMonotone(e: nat, f: nat)
    requires e <= f
    ensures Pow(2, e) <= Pow(2, f)
  {
    if e < f {
      PowMonotone(e, f - 1);
      PowPositive(2, f - 1);
    }
  }

  /** A number of k bytes is at least 256^(k-1). */
  lemma ByteLength(n: nat)
    requires n > 0
    ensures var k := (BitLen(n) + 7) / 8; k > 0 && Pow(256, k - 1) <= n
  {
    hide *;
    BitLenBounds(n);
    WholeBytes(BitLen(n));
    BelowBits((BitLen(n) + 7) / 8 - 1, BitLen(n) - 1);
  }

  lemma BelowBits(bytes: nat, bits: nat)
    requires 8 * bytes <= bits
    ensures Pow(256, bytes) <= Pow(2, bits)
  {
    hide *;
    TwoToTheEighth();
    PowMul(2, 8, bytes);
    PowMonotone(8 * bytes, bits);
  }

  lemma WholeBytes(bits: nat)
    requires bits > 0
    ensures var k := (bits + 7) / 8; k > 0 && 8 * (k - 1) <= bits - 1
  {
  }

  lemma TwoToTheEighth()
    ensures Pow(2, 8) == 256
  {
    assert Pow(2, 4) == 16;
    PowAdd(2, 4, 4);
  }

  // ---- Base64, the standard encoding with padding ----

  function Digit(v: int): (c: char)
    requires 0 <= v < 64
    ensures c != '=' && c != '\n' && c != '\r' && Value(c) == Some(v)
  {
    if v < 26 then 'A' + v as char
    else if v < 52 then 'a' + (v - 26) as char
    else if v < 62 then '0' + (v - 52) as char
    else if v == 62 then '+' else '/'
  }

  function Value(c: char): (r: Option<int>)
    ensures r.Some? ==> 0 <= r.value < 64
  {
    if 'A' <= c <= 'Z' then Some((c - 'A') as int)
    else if 'a' <= c <= 'z' then Some((c - 'a') as int + 26)
    else if '0' <= c <= '9' then Some((c - '0') as int + 52)
    else if c == '+' then Some(62)
    else if c == '/' then Some(63)
    else None
  }

  /** `EncodeToString`: four digits for every three bytes, the last group padded. */
  function Encode(b: seq<Byte>): string {
    if b == [] then ""
    else if |b| == 1 then [Digit(b[0] / 4), Digit(b[0] % 4 * 16), '=', '=']
    else if |b| == 2 then [Digit(b[0] / 4), Digit(b[0] % 4 * 16 + b[1] / 16), Digit(b[1] % 16 * 4), '=']
    else [Digit(b[0] / 4), Digit(b[0] % 4 * 16 + b[1] / 16), Digit(b[1] % 16 * 4 + b[2] / 64),
      Digit(b[2] % 64)] + Encode(b[3..])
  }

  function WithoutNewlines(s: string): string {
    if s == "" then "" else
      (if s[0] == '\n' || s[0] == '\r' then "" else [s[0]]) + WithoutNewlines(s[1..])
  }

  /** `DecodeString`: newlines are ignored; padding ends the text; anything else is corrupt. */
  function Decode(s: string): Option<seq<Byte>> {
    DecodeGroups(WithoutNewlines(s))
  }

  function DecodeGroups(s: string): Option<seq<Byte>> {
    if s == "" then Some([])
    else if |s| < 4 then None
    else if Value(s[0]).None? || Value(s[1]).None? then None
    else
      var a, b := Value(s[0]).value, Value(s[1]).value;
      if s[2] == '=' then
        if s[3] == '=' && |s| == 4 then Some([a * 4 + b / 16]) else None
      else if Value(s[2]).None? then None
      else
        var c := Value(s[2]).value;
        if s[3] == '=' then
          if |s| == 4 then Some([a * 4 + b / 16, b % 16 * 16 + c / 4]) else None
        else if Value(s[3]).None? then None
        else
          var d := Value(s[3]).value;
          var rest := DecodeGroups(s[4..]);
          if rest.None? then None else Some([a * 4 + b / 16, b % 16 * 16 + c / 4, c % 4 * 64 + d] + rest.value)
  }

  /** The digits of the alphabet of RFC 4648, in their order. */
  lemma Alphabet(v: int)
    requires 0 <= v < 64
    ensures v < 26 ==> Digit(v) as int == 'A' as int + v
    ensures 26 <= v < 52 ==> Digit(v) as int == 'a' as int + v - 26
    ensures 52 <= v < 62 ==> Digit(v) as int == '0' as int + v - 52
    ensures Digit(62) == '+' && Digit(63) == '/'
  {
  }

  /** Three bytes are four digits of the same number. */
  lemma SameNumber(x: Byte, y: Byte, z: Byte, rest: seq<Byte>)
    ensures var s := Encode([x, y, z] + rest);
      |s| >= 4 && s[4..] == Encode(rest) && (forall i :: 0 <= i < 4 ==> Value(s[i]).Some?) &&
      ((Value(s[0]).value * 64 + Value(s[1]).value) * 64 + Value(s[2]).value) * 64 + Value(s[3]).value ==
        (x * 256 + y) * 256 + z
  {
    hide Encode, Value;
    EncodeThree(x, y, z, rest);
  }

  lemma ShortOnes(x: Byte, y: Byte)
    ensures Encode([x]) == [Digit(x / 4), Digit(x % 4 * 16), '=', '=']
    ensures Encode([x, y]) == [Digit(x / 4), Digit(x % 4 * 16 + y / 16), Digit(y % 16 * 4), '=']
  {
    hide Digit;
  }

  /** One or two bytes are filled up with zero bits, and their text with = signs. */
  lemma FilledUp(x: Byte, y: Byte)
    ensures Encode([x]) == Encode([x, 0, 0])[..2] + "==" && Encode([x, y]) == Encode([x, y, 0])[..3] + "="
  {
    assert Encode([]) == "";
    hide Digit, Encode;
    ShortOnes(x, y);
    ThreeOnly(x, 0, 0);
    ThreeOnly(x, y, 0);
    assert 0 / 16 == 0 && 0 / 64 == 0;
  }

  lemma ThreeOnly(x: Byte, y: Byte, z: Byte)
    ensures Encode([x, y, z]) ==
      [Digit(x / 4), Digit(x % 4 * 16 + y / 16), Digit(y % 16 * 4 + z / 64), Digit(z % 64)]
  {
    assert Encode([]) == "";
    hide Digit, Encode;
    EncodeThree(x, y, z, []);
    assert [x, y, z] + [] == [x, y, z];
  }

  /** Padding stands at the very end only, once or twice. */
  predicate Pads(s: string, i: nat)
    requires i < |s|
  {
    s[i] == '=' && (i == |s| - 1 || (i == |s| - 2 && s[|s| - 1] == '='))
  }

  /** Groups of four digits, the last padded or not. */
  predicate WellFormed(s: string) {
    |s| % 4 == 0 && forall i :: 0 <= i < |s| ==> Value(s[i]).Some? || Pads(s, i)
  }

  /** Exactly such text can be decoded, newlines aside. */
  lemma DecodesExactly(s: string)
    ensures Decode(s).Some? <==> WellFormed(WithoutNewlines(s))
  {
    GroupsDecode(WithoutNewlines(s));
  }

  lemma {:induction false} GroupsDecode(s: string)
    ensures DecodeGroups(s).Some? <==> WellFormed(s)
  {
    hide Value;
    if |s| > 4 {
      GroupsDecode(s[4..]);
      LaterGroups(s);
    } else if |s| == 4 {
      OneGroup(s);
    }
  }

  lemma NotADigit()
    ensures Value('=').None?
  {
  }

  lemma OneGroup(s: string)
    requires |s| == 4
    ensures DecodeGroups(s).Some? <==> WellFormed(s)
  {
    NotADigit();
    hide Value;
    assert s[4..] == "" && DecodeGroups("") == Some([]);
    assert WellFormed(s) <==> (Value(s[0]).Some? || Pads(s, 0)) && (Value(s[1]).Some? || Pads(s, 1)) &&
                              (Value(s[2]).Some? || Pads(s, 2)) && (Value(s[3]).Some? || Pads(s, 3));
  }

  predicate FourDigits(s: string)
    requires |s| >= 4
  {
    Value(s[0]).Some? && Value(s[1]).Some? && Value(s[2]).Some? && Value(s[3]).Some?
  }

  lemma LaterGroups(s: string)
    requires |s| > 4
    ensures WellFormed(s) <==> WellFormed(s[4..]) && FourDigits(s)
    ensures DecodeGroups(s).Some? <==> DecodeGroups(s[4..]).Some? && FourDigits(s)
  {
    hide *;
    LaterDecode(s);
    if WellFormed(s) {
      LaterWellFormed(s);
    }
    if WellFormed(s[4..]) && FourDigits(s) {
      EarlierWellFormed(s);
    }
  }

  lemma LaterDecode(s: string)
    requires |s| > 4
    ensures DecodeGroups(s).Some? <==> DecodeGroups(s[4..]).Some? && FourDigits(s)
  {
    NotADigit();
    hide Value;
  }

  lemma LaterWellFormed(s: string)
    requires |s| > 4 && WellFormed(s)
    ensures WellFormed(s[4..]) && FourDigits(s)
  {
    NotADigit();
    hide Value;
    var t := s[4..];
    assert |s| >= 8;
    assert !Pads(s, 0) && !Pads(s, 1) && !Pads(s, 2) && !Pads(s, 3);
    forall i | 0 <= i < |t|
      ensures Value(t[i]).Some? || Pads(t, i)
    {
      assert t[i] == s[i + 4] && t[|t| - 1] == s[|s| - 1] && (Value(s[i + 4]).Some? || Pads(s, i + 4));
    }
  }

  lemma EarlierWellFormed(s: string)
    requires |s| > 4 && WellFormed(s[4..]) && FourDigits(s)
    ensures WellFormed(s)
  {
    hide Value;
    var t := s[4..];
    forall i | 0 <= i < |s|
      ensures Value(s[i]).Some? || Pads(s, i)
    {
      if i >= 4 {
        assert s[i] == t[i - 4] && t[|t| - 1] == s[|s| - 1] && (Value(t[i - 4]).Some? || Pads(t, i - 4));
      }
    }
  }

  lemma {:induction false} EncodeHasNoNewlines(b: seq<Byte>)
    ensures forall i :: 0 <= i < |Encode(b)| ==> Encode(b)[i] != '\n' && Encode(b)[i] != '\r'
  {
    if |b| > 2 {
      EncodeHasNoNewlines(b[3..]);
    }
  }

  lemma {:induction false} NothingRemoved(s: string)
    requires forall i :: 0 <= i < |s| ==> s[i] != '\n' && s[i] != '\r'
    ensures WithoutNewlines(s) == s
  {
    if s != "" {
      NothingRemoved(s[1..]);
    }
  }

  /** The bits of three bytes, regrouped by six and back. */
  lemma Regrouped(x: Byte, y: Byte, z: Byte)
    ensures var a, b, c, d := x / 4, x % 4 * 16 + y / 16, y % 16 * 4 + z / 64, z % 64;
      a * 4 + b / 16 == x && b % 16 * 16 + c / 4 == y && c % 4 * 64 + d == z
  {
  }

  lemma DecodeFull(a: int, b: int, c: int, d: int, rest: string)
    requires 0 <= a < 64 && 0 <= b < 64 && 0 <= c < 64 && 0 <= d < 64
    ensures DecodeGroups([Digit(a), Digit(b), Digit(c), Digit(d)] + rest) ==
      var r := DecodeGroups(rest);
      if r.None? then None else Some([a * 4 + b / 16, b % 16 * 16 + c / 4, c % 4 * 64 + d] + r.value)
  {
    hide Digit, Value;
    assert ([Digit(a), Digit(b), Digit(c), Digit(d)] + rest)[4..] == rest;
  }

  lemma EncodeThree(x: Byte, y: Byte, z: Byte, rest: seq<Byte>)
    ensures Encode([x, y, z] + rest) ==
      [Digit(x / 4), Digit(x % 4 * 16 + y / 16), Digit(y % 16 * 4 + z / 64), Digit(z % 64)] + Encode(rest)
  {
    hide Digit;
    assert ([x, y, z] + rest)[3..] == rest;
  }

  lemma NextThree(x: Byte, y: Byte, z: Byte, rest: seq<Byte>)
    requires DecodeGroups(Encode(rest)) == Some(rest)
    ensures DecodeGroups(Encode([x, y, z] + rest)) == Some([x, y, z] + rest)
  {
    hide Encode, DecodeGroups, Digit;
    EncodeThree(x, y, z, rest);
    DecodeFull(x / 4, x % 4 * 16 + y / 16, y % 16 * 4 + z / 64, z % 64, Encode(rest));
    Regrouped(x, y, z);
  }

  lemma LastTwo(x: Byte, y: Byte)
    ensures DecodeGroups(Encode([x, y])) == Some([x, y])
  {
    hide Digit, Value;
    Regrouped(x, y, 0);
  }

  lemma NoneLeft()
    ensures DecodeGroups(Encode([])) == Some([])
  {
  }

  lemma LastOne(x: Byte)
    ensures DecodeGroups(Encode([x])) == Some([x])
  {
    hide Digit, Value;
    Regrouped(x, 0, 0);
  }

  lemma {:induction false} GroupsRoundTrip(b: seq<Byte>)
    ensures DecodeGroups(Encode(b)) == Some(b)
  {
    hide Encode, DecodeGroups;
    if |b| > 2 {
      GroupsRoundTrip(b[3..]);
      NextThree(b[0], b[1], b[2], b[3..]);
      assert b == [b[0], b[1], b[2]] + b[3..];
    } else if |b| == 2 {
      LastTwo(b[0], b[1]);
      assert b == [b[0], b[1]];
    } else if |b| == 1 {
      LastOne(b[0]);
      assert b == [b[0]];
    } else {
      NoneLeft();
    }
  }

  /** Decoding gives back what was encoded. */
  lemma Base64RoundTrip(b: seq<Byte>)
    ensures Decode(Encode(b)) == Some(b)
  {
    EncodeHasNoNewlines(b);
    NothingRemoved(Encode(b));
    GroupsRoundTrip(b);
  }
}
