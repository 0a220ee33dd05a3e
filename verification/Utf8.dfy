/** Decoding one rune of a byte string the way utf8.DecodeRuneInString does, and unicode.IsSpace. */
module Utf8 {

  const RUNE_ERROR := 0xFFFD

  /** A continuation byte (UTF8-tail in section 4 of RFC 3629). */
  predicate IsTail(b: int) {
    0x80 <= b <= 0xBF
  }

  /** The least and greatest second byte the lead byte admits; (1, 0) when it is no lead byte. */
  function SecondRange(lead: int): (int, int) {
    if 0xC2 <= lead <= 0xDF then (0x80, 0xBF)
    else if lead == 0xE0 then (0xA0, 0xBF)
    else if lead == 0xED then (0x80, 0x9F)
    else if 0xE1 <= lead <= 0xEF then (0x80, 0xBF)
    else if lead == 0xF0 then (0x90, 0xBF)
    else if 0xF1 <= lead <= 0xF3 then (0x80, 0xBF)
    else if lead == 0xF4 then (0x80, 0x8F)
    else (1, 0)
  }

  /** How many bytes the lead byte announces. */
  function Announced(lead: int): nat {
    if lead < 0x80 then 1 else if lead < 0xE0 then 2 else if lead < 0xF0 then 3 else 4
  }

  function ByteAt(s: string, i: nat): int {
    if i < |s| then s[i] as int else 0
  }

  /** The rune at the start of `s` and its width; anything malformed is one byte of RUNE_ERROR. */
  function DecodeRune(s: string): (r: (int, nat))
    requires s != ""
    ensures 1 <= r.1 <= 4 && r.1 <= |s|
  {
    var b0, b1, b2, b3 := ByteAt(s, 0), ByteAt(s, 1), ByteAt(s, 2), ByteAt(s, 3);
    var n := Announced(b0);
    if n == 1 then (b0, 1)
    else if !(SecondRange(b0).0 <= b1 <= SecondRange(b0).1) then (RUNE_ERROR, 1)
    else if n == 2 then ((b0 - 0xC0) * 0x40 + (b1 - 0x80), 2)
    else if !IsTail(b2) then (RUNE_ERROR, 1)
    else if n == 3 then ((b0 - 0xE0) * 0x1000 + (b1 - 0x80) * 0x40 + (b2 - 0x80), 3)
    else if !IsTail(b3) then (RUNE_ERROR, 1)
    else ((b0 - 0xF0) * 0x4_0000 + (b1 - 0x80) * 0x1000 + (b2 - 0x80) * 0x40 + (b3 - 0x80), 4)
  }

  /** unicode.IsSpace */
  predicate IsSpace(r: int) {
    0x09 <= r <= 0x0D || r == 0x20 || r == 0x85 || r == 0xA0 || r == 0x1680 ||
    0x2000 <= r <= 0x200A || r == 0x2028 || r == 0x2029 || r == 0x202F || r == 0x205F || r == 0x3000
  }

  // ----- the decoder inverts the encoding of RFC 3629 -----------------------------------------

  predicate IsScalar(r: int) {
    0 <= r < 0xD800 || 0xE000 <= r < 0x11_0000
  }

  function Encode(r: int): string
    requires IsScalar(r)
  {
    if r < 0x80 then [r as char]
    else if r < 0x800 then [(0xC0 + r / 0x40) as char, (0x80 + r % 0x40) as char]
    else if r < 0x1_0000 then
      [(0xE0 + r / 0x1000) as char, (0x80 + r / 0x40 % 0x40) as char, (0x80 + r % 0x40) as char]
    else
      [(0xF0 + r / 0x4_0000) as char, (0x80 + r / 0x1000 % 0x40) as char,
       (0x80 + r / 0x40 % 0x40) as char, (0x80 + r % 0x40) as char]
  }

  lemma Decode2(s: string, r: int)
    requires 0x80 <= r < 0x800 && |s| >= 2
    requires ByteAt(s, 0) == 0xC0 + r / 0x40 && ByteAt(s, 1) == 0x80 + r % 0x40
    ensures DecodeRune(s) == (r, 2)
  {
  }

  lemma Digits3(r: int)
    requires 0 <= r
    ensures r == r / 0x1000 * 0x1000 + r / 0x40 % 0x40 * 0x40 + r % 0x40
  {
    assert r / 0x40 / 0x40 == r / 0x1000;
  }

  lemma Digits4(r: int)
    requires 0 <= r
    ensures r == r / 0x4_0000 * 0x4_0000 + r / 0x1000 % 0x40 * 0x1000 + r / 0x40 % 0x40 * 0x40 + r % 0x40
  {
    Digits3(r);
    assert r / 0x1000 / 0x40 == r / 0x4_0000;
  }

  lemma Decode3(s: string, r: int)
    requires 0x800 <= r < 0x1_0000 && IsScalar(r) && |s| >= 3
    requires ByteAt(s, 0) == 0xE0 + r / 0x1000 && ByteAt(s, 1) == 0x80 + r / 0x40 % 0x40
    requires ByteAt(s, 2) == 0x80 + r % 0x40
    ensures DecodeRune(s) == (r, 3)
  {
    Digits3(r);
    Read3(s, r / 0x1000, r / 0x40 % 0x40, r % 0x40);
  }

  lemma Read3(s: string, h: int, m: int, l: int)
    requires 0 <= h < 0x10 && 0 <= m < 0x40 && 0 <= l < 0x40 && |s| >= 3
    requires ByteAt(s, 0) == 0xE0 + h && ByteAt(s, 1) == 0x80 + m && ByteAt(s, 2) == 0x80 + l
    requires h == 0 ==> m >= 0x20
    requires h == 0xD ==> m < 0x20
    ensures DecodeRune(s) == (h * 0x1000 + m * 0x40 + l, 3)
  {
  }

  lemma Decode4(s: string, r: int)
    requires 0x1_0000 <= r < 0x11_0000 && |s| >= 4
    requires ByteAt(s, 0) == 0xF0 + r / 0x4_0000 && ByteAt(s, 1) == 0x80 + r / 0x1000 % 0x40
    requires ByteAt(s, 2) == 0x80 + r / 0x40 % 0x40 && ByteAt(s, 3) == 0x80 + r % 0x40
    ensures DecodeRune(s) == (r, 4)
  {
    Digits4(r);
    Read4(s, r / 0x4_0000, r / 0x1000 % 0x40, r / 0x40 % 0x40, r % 0x40);
  }

  lemma Read4(s: string, h: int, m: int, k: int, l: int)
    requires 0 <= h <= 4 && 0 <= m < 0x40 && 0 <= k < 0x40 && 0 <= l < 0x40 && |s| >= 4
    requires ByteAt(s, 0) == 0xF0 + h && ByteAt(s, 1) == 0x80 + m
    requires ByteAt(s, 2) == 0x80 + k && ByteAt(s, 3) == 0x80 + l
    requires h == 0 ==> m >= 0x10
    requires h == 4 ==> m < 0x10
    ensures DecodeRune(s) == (h * 0x4_0000 + m * 0x1000 + k * 0x40 + l, 4)
  {
  }

  /** A well-formed rune is decoded as itself, whatever follows it. */
  lemma DecodeEncode(r: int, rest: string)
    requires IsScalar(r)
    ensures DecodeRune(Encode(r) + rest) == (r, |Encode(r)|)
  {
    var e := Encode(r);
    var s := e + rest;
    assert s[0] == e[0];
    if r < 0x80 {
    } else if r < 0x800 {
      assert s[1] == e[1];
      Decode2(s, r);
    } else if r < 0x1_0000 {
      assert s[1] == e[1] && s[2] == e[2];
      Decode3(s, r);
    } else {
      assert s[1] == e[1] && s[2] == e[2] && s[3] == e[3];
      Decode4(s, r);
    }
  }

  lemma Quotient(h: int, l: int)
    requires 0 <= l < 0x40
    ensures (h * 0x40 + l) / 0x40 == h && (h * 0x40 + l) % 0x40 == l
  {
  }

  lemma Written3(s: string, h: int, m: int, l: int)
    requires |s| == 3 && 0 <= h < 0x10 && 0 <= m < 0x40 && 0 <= l < 0x40
    requires (h == 0 ==> m >= 0x20) && (h == 0xD ==> m < 0x20)
    requires s[0] as int == 0xE0 + h && s[1] as int == 0x80 + m && s[2] as int == 0x80 + l
    ensures var r := h * 0x1000 + m * 0x40 + l; IsScalar(r) && s == Encode(r)
  {
    var r := h * 0x1000 + m * 0x40 + l;
    Quotient(h * 0x40 + m, l);
    Quotient(h, m);
    assert r / 0x1000 == r / 0x40 / 0x40;
  }

  lemma Written4(s: string, h: int, m: int, k: int, l: int)
    requires |s| == 4 && 0 <= h <= 4 && 0 <= m < 0x40 && 0 <= k < 0x40 && 0 <= l < 0x40
    requires (h == 0 ==> m >= 0x10) && (h == 4 ==> m < 0x10)
    requires s[0] as int == 0xF0 + h && s[1] as int == 0x80 + m
    requires s[2] as int == 0x80 + k && s[3] as int == 0x80 + l
    ensures var r := h * 0x4_0000 + m * 0x1000 + k * 0x40 + l; IsScalar(r) && s == Encode(r)
  {
    var r := h * 0x4_0000 + m * 0x1000 + k * 0x40 + l;
    Quotient(h * 0x1000 + m * 0x40 + k, l);
    Quotient(h * 0x40 + m, k);
    Quotient(h, m);
    assert r / 0x1000 == r / 0x40 / 0x40;
    assert r / 0x4_0000 == r / 0x1000 / 0x40;
  }

  /** And nothing else is: whatever is not the encoding of a rune is one byte of RUNE_ERROR. */
  lemma DecodeOnlyEncodings(s: string)
    requires s != ""
    ensures var (r, n) := DecodeRune(s);
            if IsScalar(r) && s[..n] == Encode(r) then n == |Encode(r)| else (r, n) == (RUNE_ERROR, 1)
  {
    var b0, b1, b2, b3 := ByteAt(s, 0), ByteAt(s, 1), ByteAt(s, 2), ByteAt(s, 3);
    var (r, n) := DecodeRune(s);
    if n == 3 {
      Written3(s[..3], b0 - 0xE0, b1 - 0x80, b2 - 0x80);
    } else if n == 4 {
      Written4(s[..4], b0 - 0xF0, b1 - 0x80, b2 - 0x80, b3 - 0x80);
    } else if n == 2 {
      Quotient(b0 - 0xC0, b1 - 0x80);
      assert s[..2] == Encode(r);
    } else if b0 < 0x80 {
      assert s[..1] == Encode(r);
    }
  }
}
