/** Fixed-width JVM integers and their decimal text: `Long`/`Int` ranges and
    wrap-around, truncating `/` and `%`, `toString()`, `"%02d"` and
    `String.toLongOrNull()` (ASCII digits). */
module Decimal {
  import opened Wrappers

  const LONG_MIN: int := -0x8000_0000_0000_0000
  const LONG_MAX: int := 0x7FFF_FFFF_FFFF_FFFF
  const INT_MIN: int := -0x8000_0000
  const INT_MAX: int := 0x7FFF_FFFF

  predicate IsLong(n: int) { LONG_MIN <= n <= LONG_MAX }
  predicate IsInt(n: int) { INT_MIN <= n <= INT_MAX }

  /** Two's-complement wrap-around of a 64-bit `Long` operation. */
  function WrapLong(n: int): (r: int)
    ensures IsLong(r)
    ensures (r - n) % 0x1_0000_0000_0000_0000 == 0
    ensures IsLong(n) ==> r == n
  {
    (n - LONG_MIN) % 0x1_0000_0000_0000_0000 + LONG_MIN
  }

  /** Two's-complement wrap-around of a 32-bit `Int` operation. */
  function WrapInt(n: int): (r: int)
    ensures IsInt(r)
    ensures (r - n) % 0x1_0000_0000 == 0
    ensures IsInt(n) ==> r == n
  {
    (n - INT_MIN) % 0x1_0000_0000 + INT_MIN
  }

  /** JVM integer division `a / b`: rounds toward zero. */
  function TDiv(a: int, b: int): (q: int)
    requires b != 0
    ensures a >= 0 && b > 0 ==> q == a / b
  {
    if a >= 0 then (if b > 0 then a / b else -(a / -b))
    else (if b > 0 then -(-a / b) else -a / -b)
  }

  /** JVM remainder `a % b`: takes the sign of `a`. */
  function TRem(a: int, b: int): (r: int)
    requires b != 0
    ensures a == TDiv(a, b) * b + r
    ensures a >= 0 ==> 0 <= r < (if b > 0 then b else -b)
    ensures a < 0 ==> -(if b > 0 then b else -b) < r <= 0
  {
    a - TDiv(a, b) * b
  }

  predicate IsDigit(c: char) { '0' <= c <= '9' }

  predicate AllDigits(s: string) {
    forall i :: 0 <= i < |s| ==> IsDigit(s[i])
  }

  function DigitChar(d: nat): (c: char)
    requires d < 10
    ensures IsDigit(c) && c as int - '0' as int == d
  {
    ('0' as int + d) as char
  }

  function DigitValue(c: char): nat
    requires IsDigit(c)
  {
    c as int - '0' as int
  }

  /** The value of a string of decimal digits ("" is 0). */
  function DigitsValue(s: string): nat
    requires AllDigits(s)
  {
    if |s| == 0 then 0 else DigitsValue(s[..|s| - 1]) * 10 + DigitValue(s[|s| - 1])
  }

  /** Decimal digits of `n`, no leading zeros ("0" for zero). */
  function NatToString(n: nat): (s: string)
    ensures |s| >= 1 && AllDigits(s)
    ensures |s| > 1 ==> s[0] != '0'
  {
    if n < 10 then [DigitChar(n)] else NatToString(n / 10) + [DigitChar(n % 10)]
  }

  /** `Long.toString()` / `Int.toString()` / `"%d"`. */
  function LongToString(n: int): (s: string)
    ensures |s| >= 1
    ensures n < 0 <==> s[0] == '-'
  {
    if n < 0 then "-" + NatToString(-n) else NatToString(n)
  }

  /** `"%02d"`: zero-padded to width 2; a '-' sign already makes width 2. */
  function Pad2(n: int): (s: string)
    ensures |s| >= 2
    ensures 0 <= n < 100 ==> |s| == 2 && AllDigits(s) && DigitsValue(s) == n
  {
    if 0 <= n < 10 then
      var t := "0" + NatToString(n);
      assert t[..1] == "0" && t[1] == DigitChar(n);
      assert DigitsValue(t[..1]) == 0;
      t
    else if n < 0 then "-" + NatToString(-n)
    else
      DigitsOfNatToString(n);
      NatToString(n)
  }

  /** `String.toLongOrNull()`: optional '+' or '-', then one or more digits,
      value within the `Long` range; anything else is null. */
  function ParseLong(s: string): (r: Option<int>)
    ensures r.Some? ==> IsLong(r.value)
  {
    if |s| == 0 then None
    else
      var negative := s[0] == '-';
      var digits := if s[0] == '-' || s[0] == '+' then s[1..] else s;
      if |digits| == 0 || !AllDigits(digits) then None
      else
        var m: int := DigitsValue(digits);
        var v := if negative then -m else m;
        if IsLong(v) then Some(v) else None
  }

  lemma {:induction false} DigitsOfNatToString(n: nat)
    ensures DigitsValue(NatToString(n)) == n
  {
    if n >= 10 {
      DigitsOfNatToString(n / 10);
      var s := NatToString(n);
      assert s[..|s| - 1] == NatToString(n / 10);
    }
  }

  /** `toLongOrNull` reads back every `Long` that `toString` prints. */
  lemma LongRoundTrip(n: int)
    requires IsLong(n)
    ensures ParseLong(LongToString(n)) == Some(n)
  {
    if n < 0 {
      var t := NatToString(-n);
      assert LongToString(n) == "-" + t;
      assert ("-" + t)[1..] == t;
      DigitsOfNatToString(-n);
    } else {
      var t := NatToString(n);
      assert IsDigit(t[0]);
      DigitsOfNatToString(n);
    }
  }

  /** Values of digit strings: a leading zero changes nothing; appending a digit scales by 10. */
  lemma {:induction false} DigitsValueAppend(s: string, t: string)
    requires AllDigits(s) && AllDigits(t)
    ensures AllDigits(s + t)
    ensures DigitsValue(s + t) == DigitsValue(s) * Pow10(|t|) + DigitsValue(t)
    decreases |t|
  {
    if |t| > 0 {
      var u, t' := s + t, t[..|t| - 1];
      assert u[..|u| - 1] == s + t' && u[|u| - 1] == t[|t| - 1];
      DigitsValueAppend(s, t');
      ShiftDigit(DigitsValue(s), Pow10(|t'|), DigitsValue(t'), DigitValue(t[|t| - 1]));
    } else {
      assert s + t == s;
    }
  }

  lemma ShiftDigit(a: int, p: int, b: int, d: int)
    ensures (a * p + b) * 10 + d == a * (10 * p) + (b * 10 + d)
  {
  }

  function Pow10(k: nat): (r: nat)
    ensures r >= 1
  {
    if k == 0 then 1 else 10 * Pow10(k - 1)
  }

  lemma {:induction false} DigitsValueBound(s: string)
    requires AllDigits(s)
    ensures DigitsValue(s) < Pow10(|s|)
  {
    if |s| > 0 {
      DigitsValueBound(s[..|s| - 1]);
    }
  }

  /** A short unsigned digit string parses to its value. */
  lemma ParseDigits(s: string)
    requires 1 <= |s| <= 18 && AllDigits(s)
    ensures ParseLong(s) == Some(DigitsValue(s))
  {
    DigitsValueBound(s);
    Pow10Monotone(|s|, 18);
    assert Pow10(1) == 10;
    assert Pow10(2) == 100;
    assert Pow10(3) == 1000;
    assert Pow10(4) == 10000;
    assert Pow10(5) == 100000;
    assert Pow10(6) == 1000000;
    assert Pow10(7) == 10000000;
    assert Pow10(8) == 100000000;
    assert Pow10(9) == 1000000000;
    assert Pow10(10) == 10000000000;
    assert Pow10(11) == 100000000000;
    assert Pow10(12) == 1000000000000;
    assert Pow10(13) == 10000000000000;
    assert Pow10(14) == 100000000000000;
    assert Pow10(15) == 1000000000000000;
    assert Pow10(16) == 10000000000000000;
    assert Pow10(17) == 100000000000000000;
    assert Pow10(18) == 1000000000000000000;
  }

  lemma {:induction false} Pow10Monotone(a: nat, b: nat)
    requires a <= b
    ensures Pow10(a) <= Pow10(b)
    decreases b
  {
    if a < b {
      Pow10Monotone(a, b - 1);
    }
  }

  /** `a * m >= m` for a positive multiple, by repeated addition. */
  lemma {:induction false} MulAtLeast(a: int, m: int)
    requires a >= 1 && m > 0
    ensures a * m >= m
  {
    if a > 1 {
      MulAtLeast(a - 1, m);
      assert a * m == (a - 1) * m + m;
    }
  }

  /** Division with remainder has one answer: `x == q * m + r` with `0 <= r < m` fixes `x % m`. */
  lemma ModUnique(x: int, q: int, r: int, m: int)
    requires m > 0 && 0 <= r < m && x == q * m + r
    ensures x % m == r
  {
    var q' := x / m;
    var r' := x % m;
    assert x == q' * m + r';
    assert q * m - q' * m == r' - r;
    assert (q - q') * m == q * m - q' * m;
    if q > q' {
      MulAtLeast(q - q', m);
    } else if q < q' {
      MulAtLeast(q' - q, m);
    }
  }

}
