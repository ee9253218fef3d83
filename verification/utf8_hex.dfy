/** The UTF-8 bytes of a string and their spelling as lower-case hex, two digits per byte. */
module Utf8Hex {
  import opened Wrappers
  import opened Tracks

  // ---------------------------------------------------------------- UTF-8

  predicate IsContinuation(b: Byte) { 0x80 <= b < 0xC0 }

  /** The UTF-8 bytes of one scalar value. */
  function Utf8Char(c: char): (bs: seq<Byte>)
    ensures 1 <= |bs| <= 4
    ensures |bs| == 1 <==> c as int < 0x80
    ensures |bs| == 1 ==> bs[0] == c as int
    ensures forall i :: 1 <= i < |bs| ==> IsContinuation(bs[i])
  {
    var cp := c as int;
    if cp < 0x80 then [cp]
    else if cp < 0x800 then [0xC0 + cp / 64, 0x80 + cp % 64]
    else if cp < 0x10000 then [0xE0 + cp / 4096, 0x80 + (cp / 64) % 64, 0x80 + cp % 64]
    else [0xF0 + cp / 262144, 0x80 + (cp / 4096) % 64, 0x80 + (cp / 64) % 64, 0x80 + cp % 64]
  }

  /** `toByteArray()`. */
  function Utf8(s: string): (bs: seq<Byte>)
    ensures |s| <= |bs| <= 4 * |s|
    decreases |s|
  {
    if |s| == 0 then [] else Utf8Char(s[0]) + Utf8(s[1..])
  }

  /** A scalar value: below 0x110000 and not a surrogate. */
  predicate IsScalar(n: int) {
    0 <= n < 0xD800 || 0xE000 <= n < 0x11_0000
  }

  /** Reads one character from the front: its value and how many bytes it took, or None for a
      malformed or over-long sequence. */
  function DecodeOne(bs: seq<Byte>): (r: Option<(char, nat)>)
    requires |bs| > 0
    ensures r.Some? ==> 1 <= r.value.1 <= |bs|
  {
    var b0: int := bs[0];
    if b0 < 0x80 then Some((b0 as char, 1))
    else if 0xC0 <= b0 < 0xE0 && |bs| >= 2 && IsContinuation(bs[1]) then
      var n := Join2(b0 - 0xC0, bs[1] - 0x80);
      if n >= 0x80 then Some((n as char, 2)) else None
    else if 0xE0 <= b0 < 0xF0 && |bs| >= 3 && IsContinuation(bs[1]) && IsContinuation(bs[2]) then
      var n := Join2(Join2(b0 - 0xE0, bs[1] - 0x80), bs[2] - 0x80);
      if n >= 0x800 && IsScalar(n) then Some((n as char, 3)) else None
    else if 0xF0 <= b0 < 0xF8 && |bs| >= 4 && IsContinuation(bs[1]) && IsContinuation(bs[2])
            && IsContinuation(bs[3]) then
      var n := Join2(Join2(Join2(b0 - 0xF0, bs[1] - 0x80), bs[2] - 0x80), bs[3] - 0x80);
      if n >= 0x10000 && IsScalar(n) then Some((n as char, 4)) else None
    else None
  }

  /** Appends six payload bits. */
  function Join2(hi: int, lo: int): int { hi * 64 + lo }

  /** Decodes a whole byte sequence, or None when any part is malformed. */
  function DecodeUtf8(bs: seq<Byte>): Option<string>
    decreases |bs|
  {
    if |bs| == 0 then Some([])
    else
      match DecodeOne(bs)
      case None => None
      case Some((c, k)) =>
        match DecodeUtf8(bs[k..])
        case None => None
        case Some(rest) => Some([c] + rest)
  }

  /** Splitting off the low six bits and joining them back gives the value again. */
  lemma Split6(n: nat)
    ensures 0 <= n % 64 < 64 && Join2(n / 64, n % 64) == n
  {
  }

  /** One character's bytes read back as that character, whatever follows. */
  lemma DecodeOneChar(c: char, rest: seq<Byte>)
    ensures DecodeOne(Utf8Char(c) + rest) == Some((c, |Utf8Char(c)|))
  {
    var cp := c as int;
    if cp < 0x80 {
      assert (Utf8Char(c) + rest)[0] == cp;
    } else if cp < 0x800 {
      DecodeTwo(c, rest);
    } else if cp < 0x10000 {
      DecodeThree(c, rest);
    } else {
      DecodeFour(c, rest);
    }
  }

  lemma DecodeTwo(c: char, rest: seq<Byte>)
    requires 0x80 <= c as int < 0x800
    ensures DecodeOne(Utf8Char(c) + rest) == Some((c, 2))
  {
    var bs := Utf8Char(c) + rest;
    var cp := c as int;
    Split6(cp);
    assert bs[0] as int - 0xC0 == cp / 64 && bs[1] as int - 0x80 == cp % 64;
  }

  lemma DecodeThree(c: char, rest: seq<Byte>)
    requires 0x800 <= c as int < 0x10000
    ensures DecodeOne(Utf8Char(c) + rest) == Some((c, 3))
  {
    var bs := Utf8Char(c) + rest;
    var cp := c as int;
    Split6(cp);
    Split6(cp / 64);
    assert cp / 64 / 64 == cp / 4096;
    assert bs[0] as int - 0xE0 == cp / 4096;
    assert bs[1] as int - 0x80 == (cp / 64) % 64 && bs[2] as int - 0x80 == cp % 64;
  }

  lemma DecodeFour(c: char, rest: seq<Byte>)
    requires 0x10000 <= c as int
    ensures DecodeOne(Utf8Char(c) + rest) == Some((c, 4))
  {
    var bs := Utf8Char(c) + rest;
    var cp := c as int;
    Split6(cp);
    Split6(cp / 64);
    Split6(cp / 4096);
    assert cp / 64 / 64 == cp / 4096;
    assert cp / 4096 / 64 == cp / 262144;
    assert bs[0] as int - 0xF0 == cp / 262144;
    assert bs[1] as int - 0x80 == (cp / 4096) % 64;
    assert bs[2] as int - 0x80 == (cp / 64) % 64 && bs[3] as int - 0x80 == cp % 64;
  }

  /** Decoding undoes `toByteArray()`. */
  lemma {:induction false} Utf8RoundTrip(s: string)
    ensures DecodeUtf8(Utf8(s)) == Some(s)
    decreases |s|
  {
    if |s| > 0 {
      var head := Utf8Char(s[0]);
      var tail := Utf8(s[1..]);
      DecodeOneChar(s[0], tail);
      assert (head + tail)[|head|..] == tail;
      Utf8RoundTrip(s[1..]);
      assert s == [s[0]] + s[1..];
    }
  }

  // ---------------------------------------------------------------- hex

  const HEX_DIGITS: string := "0123456789abcdef"

  predicate IsLowerHex(c: char) { '0' <= c <= '9' || 'a' <= c <= 'f' }

  function HexDigit(n: nat): (c: char)
    requires n < 16
    ensures IsLowerHex(c)
  {
    HEX_DIGITS[n]
  }

  function HexValue(c: char): (r: Option<nat>)
    ensures r.Some? <==> IsLowerHex(c)
    ensures r.Some? ==> r.value < 16
  {
    if '0' <= c <= '9' then Some(c as int - '0' as int)
    else if 'a' <= c <= 'f' then Some(c as int - 'a' as int + 10)
    else None
  }

  lemma HexDigitValue(n: nat)
    requires n < 16
    ensures HexValue(HexDigit(n)) == Some(n)
  {
  }

  /** A `ByteArray` element: the JVM's signed byte for an unsigned one. */
  function Signed(b: Byte): (v: int)
    ensures -128 <= v < 128
    ensures v % 256 == b
  {
    if b >= 128 then b - 256 else b
  }

  /** `"%02x".format(byte)`: a negative byte is printed as its value plus 256, always two
      lower-case digits. */
  function FormatByte(v: int): (s: string)
    requires -128 <= v < 128
    ensures |s| == 2 && IsLowerHex(s[0]) && IsLowerHex(s[1])
  {
    var u := if v < 0 then v + 256 else v;
    [HexDigit(u / 16), HexDigit(u % 16)]
  }

  /** The bytes spelled as lower-case hex, two zero-padded digits each, with no separator. */
  function Hex(bs: seq<Byte>): (s: string)
    ensures |s| == 2 * |bs|
    ensures forall i :: 0 <= i < |s| ==> IsLowerHex(s[i])
    decreases |bs|
  {
    if |bs| == 0 then "" else FormatByte(Signed(bs[0])) + Hex(bs[1..])
  }

  /** Reads pairs of lower-case hex digits back into bytes. */
  function Unhex(s: string): Option<seq<Byte>>
    decreases |s|
  {
    if |s| == 0 then Some([])
    else if |s| == 1 then None
    else
      match (HexValue(s[0]), HexValue(s[1]), Unhex(s[2..]))
      case (Some(hi), Some(lo), Some(rest)) => Some([hi * 16 + lo] + rest)
      case _ => None
  }

  /** Two digits in front add one byte to what the rest reads as. */
  lemma UnhexCons(hi: nat, lo: nat, t: string)
    requires hi < 16 && lo < 16
    ensures Unhex([HexDigit(hi), HexDigit(lo)] + t) ==
              if Unhex(t).Some? then Some([hi * 16 + lo] + Unhex(t).value) else None
  {
    var s := [HexDigit(hi), HexDigit(lo)] + t;
    HexDigitValue(hi);
    HexDigitValue(lo);
    assert s[0] == HexDigit(hi) && s[1] == HexDigit(lo) && s[2..] == t;
  }

  lemma FormatUnsigned(u: Byte)
    ensures FormatByte(Signed(u)) == [HexDigit(u / 16), HexDigit(u % 16)]
  {
    var v := Signed(u);
    assert (if v < 0 then v + 256 else v) == u as int;
  }

  /** The hex spelling reads back to the very bytes, those at or above 0x80 included. */
  lemma {:induction false} HexRoundTrip(bs: seq<Byte>)
    ensures Unhex(Hex(bs)) == Some(bs)
    decreases |bs|
  {
    if |bs| > 0 {
      var u := bs[0];
      FormatUnsigned(u);
      assert Hex(bs) == [HexDigit(u / 16), HexDigit(u % 16)] + Hex(bs[1..]);
      HexRoundTrip(bs[1..]);
      UnhexCons(u / 16, u % 16, Hex(bs[1..]));
      assert (u / 16) * 16 + u % 16 == u;
      assert bs == [u] + bs[1..];
    }
  }
}
