/** `java.lang.String.hashCode()`: the polynomial hash over UTF-16 code units
    with base 31, computed in 32-bit `Int` arithmetic that wraps around. */
module JavaHash {
  import opened Decimal

  /** The UTF-16 code units of one character (a surrogate pair above U+FFFF). */
  function CodeUnits(c: char): (u: seq<int>)
    ensures 1 <= |u| <= 2
    ensures forall i :: 0 <= i < |u| ==> 0 <= u[i] < 0x1_0000
  {
    var v := c as int;
    if v < 0x1_0000 then [v]
    else [0xD800 + (v - 0x1_0000) / 0x400, 0xDC00 + (v - 0x1_0000) % 0x400]
  }

  /** The UTF-16 encoding of a string: what a JVM `String` stores. */
  function Utf16(s: string): (u: seq<int>)
    ensures |s| <= |u| <= 2 * |s|
    ensures forall i :: 0 <= i < |u| ==> 0 <= u[i] < 0x1_0000
  {
    if |s| == 0 then [] else Utf16(s[..|s| - 1]) + CodeUnits(s[|s| - 1])
  }

  /** Horner evaluation with `h = 31 * h + unit` in wrapping `Int` arithmetic. */
  function HashUnits(u: seq<int>): (h: int)
    ensures IsInt(h)
  {
    if |u| == 0 then 0 else WrapInt(31 * HashUnits(u[..|u| - 1]) + u[|u| - 1])
  }

  function HashCode(s: string): (h: int)
    ensures IsInt(h)
  {
    HashUnits(Utf16(s))
  }

  /** The exact (unbounded) polynomial `u[0]*31^(n-1) + ... + u[n-1]`. */
  function Poly(u: seq<int>): int {
    if |u| == 0 then 0 else 31 * Poly(u[..|u| - 1]) + u[|u| - 1]
  }

  /** Wrapping forgets multiples of 2^32. */
  lemma WrapIntCongruent(a: int, b: int)
    requires (a - b) % 0x1_0000_0000 == 0
    ensures WrapInt(a) == WrapInt(b)
  {
    var m := 0x1_0000_0000;
    var k := (a - b) / m;
    assert a - b == k * m;
    var q := (b - INT_MIN) / m;
    var r := (b - INT_MIN) % m;
    assert a - INT_MIN == (q + k) * m + r;
    ModUnique(a - INT_MIN, q + k, r, m);
  }

  /** The documented formula: the hash is the exact polynomial reduced to a 32-bit `Int`. */
  lemma {:induction false} HashIsWrappedPolynomial(u: seq<int>)
    ensures HashUnits(u) == WrapInt(Poly(u))
  {
    if |u| > 0 {
      var p, c := u[..|u| - 1], u[|u| - 1];
      HashIsWrappedPolynomial(p);
      ScaleCongruent(WrapInt(Poly(p)), Poly(p), c);
      WrapIntCongruent(31 * WrapInt(Poly(p)) + c, 31 * Poly(p) + c);
    }
  }

  /** One Horner step keeps two values congruent modulo 2^32. */
  lemma ScaleCongruent(a: int, b: int, c: int)
    requires (a - b) % 0x1_0000_0000 == 0
    ensures ((31 * a + c) - (31 * b + c)) % 0x1_0000_0000 == 0
  {
    var k := (a - b) / 0x1_0000_0000;
    assert a - b == k * 0x1_0000_0000;
    assert (31 * a + c) - (31 * b + c) == (31 * k) * 0x1_0000_0000;
    ModUnique((31 * a + c) - (31 * b + c), 31 * k, 0, 0x1_0000_0000);
  }
}
