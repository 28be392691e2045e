/** UTF-8 as defined in section 3 of RFC 3629. The encoder is what
    `utf8::unchecked::append` writes for a Unicode scalar value; the decoder
    is its partner and rejects malformed and overlong sequences. */
module Utf8 {
  import opened Base

  /** The 1 to 4 bytes that encode `c`. */
  function Encode(c: char): (r: Bytes)
    ensures 1 <= |r| <= 4
    ensures (|r| == 1) == (c as int < 0x80)
  {
    var v := c as int;
    if v < 0x80 then
      [c]
    else if v < 0x800 then
      [(0xC0 + v / 0x40) as char, (0x80 + v % 0x40) as char]
    else if v < 0x1_0000 then
      [(0xE0 + v / 0x1000) as char, (0x80 + v / 0x40 % 0x40) as char, (0x80 + v % 0x40) as char]
    else
      [(0xF0 + v / 0x4_0000) as char, (0x80 + v / 0x1000 % 0x40) as char,
       (0x80 + v / 0x40 % 0x40) as char, (0x80 + v % 0x40) as char]
  }

  /** The encoding of a whole text. */
  function EncodeAll(s: string): Bytes
  {
    if s == [] then [] else Encode(s[0]) + EncodeAll(s[1..])
  }

  predicate IsContinuation(b: Octet) {
    0x80 <= b as int < 0xC0
  }

  /** The scalar value `v`, if `v` is one and needs exactly `n` bytes (no overlong form). */
  function Scalar(v: int, n: nat, least: int): Option<(char, nat)>
  {
    if least <= v && (0 <= v < 0xD800 || 0xE000 <= v < 0x11_0000) then Some((v as char, n)) else None
  }

  /** The first character encoded at the start of `s` and the number of bytes it takes. */
  function DecodeFirst(s: Bytes): Option<(char, nat)>
  {
    if |s| == 0 then None
    else
      var b0 := s[0] as int;
      if b0 < 0x80 then
        Some((s[0], 1))
      else if 0xC0 <= b0 < 0xE0 && 2 <= |s| && IsContinuation(s[1]) then
        Scalar((b0 - 0xC0) * 0x40 + (s[1] as int - 0x80), 2, 0x80)
      else if 0xE0 <= b0 < 0xF0 && 3 <= |s| && IsContinuation(s[1]) && IsContinuation(s[2]) then
        Scalar(((b0 - 0xE0) * 0x40 + (s[1] as int - 0x80)) * 0x40 + (s[2] as int - 0x80), 3, 0x800)
      else if 0xF0 <= b0 < 0xF8 && 4 <= |s| && IsContinuation(s[1]) && IsContinuation(s[2])
              && IsContinuation(s[3]) then
        Scalar((((b0 - 0xF0) * 0x40 + (s[1] as int - 0x80)) * 0x40 + (s[2] as int - 0x80)) * 0x40
               + (s[3] as int - 0x80), 4, 0x1_0000)
      else None
  }

  /** Decodes a whole byte string, or fails on the first malformed sequence. */
  function DecodeAll(s: Bytes): Option<string>
    decreases |s|
  {
    if s == [] then Some([])
    else match DecodeFirst(s)
      case None => None
      case Some(d) =>
        if d.1 == 0 || |s| < d.1 then None
        else match DecodeAll(s[d.1..])
          case None => None
          case Some(rest) => Some([d.0] + rest)
  }

  /** Decoding reads back exactly the encoded character and stops after its bytes. */
  lemma DecodeEncode(c: char, rest: Bytes)
    ensures DecodeFirst(Encode(c) + rest) == Some((c, |Encode(c)|))
  {
    var v := c as int;
    if v < 0x80 {
    } else if v < 0x800 {
      DecodeEncode2(c, rest);
    } else if v < 0x1_0000 {
      DecodeEncode3(c, rest);
    } else {
      DecodeEncode4(c, rest);
    }
  }

  lemma DecodeEncode2(c: char, rest: Bytes)
    requires 0x80 <= c as int < 0x800
    ensures DecodeFirst(Encode(c) + rest) == Some((c, 2))
  {
    var v := c as int;
    assert (v / 0x40) * 0x40 + v % 0x40 == v;
  }

  lemma DecodeEncode3(c: char, rest: Bytes)
    requires 0x800 <= c as int < 0x1_0000
    ensures DecodeFirst(Encode(c) + rest) == Some((c, 3))
  {
    var v := c as int;
    assert (v / 0x1000) * 0x40 + v / 0x40 % 0x40 == v / 0x40;
    assert (v / 0x40) * 0x40 + v % 0x40 == v;
  }

  lemma DecodeEncode4(c: char, rest: Bytes)
    requires 0x1_0000 <= c as int
    ensures DecodeFirst(Encode(c) + rest) == Some((c, 4))
  {
    var v := c as int;
    assert (v / 0x4_0000) * 0x40 + v / 0x1000 % 0x40 == v / 0x1000;
    assert (v / 0x1000) * 0x40 + v / 0x40 % 0x40 == v / 0x40;
    assert (v / 0x40) * 0x40 + v % 0x40 == v;
  }

  /** Encoding a text is injective: decoding gives the text back. */
  lemma {:induction false} DecodeEncodeAll(s: string)
    ensures DecodeAll(EncodeAll(s)) == Some(s)
  {
    if s != [] {
      var e := EncodeAll(s);
      DecodeEncode(s[0], EncodeAll(s[1..]));
      assert e[|Encode(s[0])|..] == EncodeAll(s[1..]);
      DecodeEncodeAll(s[1..]);
      assert [s[0]] + s[1..] == s;
    }
  }
}
