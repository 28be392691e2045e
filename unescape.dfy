/** A decoder for the body of a JSON string (section 7 of RFC 8259), the
    partner of both escapers: decoding what they wrote gives back the input.
    In lenient mode it also accepts raw control characters, which the UTF-8
    mode of `writeStringUtf8` writes unescaped; strict mode rejects them as
    RFC 8259 requires. */
module Unescape {
  import opened Base
  import Utf8
  import opened Escaping

  function HexValue(c: Octet): Option<nat>
  {
    if '0' <= c <= '9' then Some(c as int - '0' as int)
    else if 'a' <= c <= 'f' then Some(c as int - 'a' as int + 10)
    else if 'A' <= c <= 'F' then Some(c as int - 'A' as int + 10)
    else None
  }

  /** The value of four hexadecimal digits. */
  function Hex4Value(t: Bytes): Option<nat>
    requires |t| == 4
  {
    match (HexValue(t[0]), HexValue(t[1]), HexValue(t[2]), HexValue(t[3]))
    case (Some(a), Some(b), Some(c), Some(d)) => Some(((a * 0x10 + b) * 0x10 + c) * 0x10 + d)
    case _ => None
  }

  /** A control character that has no letter escape. */
  predicate IsRawControl(c: char) {
    c as int < 0x20 && c !in {'\t', '\n', '\r', FormFeed, Backspace}
  }

  /** The first character of a string body and the number of bytes it takes: an escape
      sequence, or one UTF-8 encoded character other than `"` and `\`. */
  function DecodeUnit(t: Bytes, strict: bool): Option<(char, nat)>
  {
    if |t| == 0 then None
    else if t[0] == '\\' then
      if |t| < 2 then None
      else if t[1] == '"' || t[1] == '\\' || t[1] == '/' then Some((t[1] as char, 2))
      else if t[1] == 'b' then Some((Backspace as char, 2))
      else if t[1] == 'f' then Some((FormFeed as char, 2))
      else if t[1] == 'n' then Some(('\n', 2))
      else if t[1] == 'r' then Some(('\r', 2))
      else if t[1] == 't' then Some(('\t', 2))
      else if t[1] == 'u' && 6 <= |t| then
        match Hex4Value(t[2..6])
        case None => None
        case Some(v) => if 0xD800 <= v < 0xE000 then None else Some((v as char, 6))
      else None
    else if t[0] == '"' then None
    else if strict && t[0] as int < 0x20 then None
    else Utf8.DecodeFirst(t)
  }

  /** The characters a string body stands for, or None if it is not a well-formed body. */
  function DecodeBody(t: Bytes, strict: bool): Option<string>
    decreases |t|
  {
    if t == [] then Some([])
    else match DecodeUnit(t, strict)
      case None => None
      case Some(u) =>
        if u.1 == 0 || |t| < u.1 then None
        else match DecodeBody(t[u.1..], strict)
          case None => None
          case Some(rest) => Some([u.0] + rest)
  }

  lemma HexDigitValue(d: nat)
    requires d < 16
    ensures HexValue(HexDigit(d)) == Some(d)
  {
  }

  /** Four hexadecimal digits read back as the value they were written for. */
  lemma Hex4RoundTrip(v: nat)
    requires v < 0x1_0000
    ensures Hex4Value(Hex4(v)) == Some(v)
  {
    var a, b, c, d := v / 0x1000, v / 0x100 % 0x10, v / 0x10 % 0x10, v % 0x10;
    HexDigitValue(a);
    HexDigitValue(b);
    HexDigitValue(c);
    HexDigitValue(d);
    Hex4Digits(v);
  }

  lemma Hex4Digits(v: nat)
    requires v < 0x1_0000
    ensures ((v / 0x1000 * 0x10 + v / 0x100 % 0x10) * 0x10 + v / 0x10 % 0x10) * 0x10 + v % 0x10 == v
  {
    assert v / 0x1000 * 0x10 + v / 0x100 % 0x10 == v / 0x100;
    assert v / 0x100 * 0x10 + v / 0x10 % 0x10 == v / 0x10;
    assert v / 0x10 * 0x10 + v % 0x10 == v;
  }

  /** Decoding the escape of one codepoint gives the codepoint back and consumes exactly the escape;
      strict decoding refuses only a control character that UTF-8 mode wrote raw. */
  lemma DecodeEscapedCodepoint(c: char, writeUtf8: bool, strict: bool, rest: Bytes)
    requires EscapeCodepoint(c, writeUtf8).Some?
    ensures var e := EscapeCodepoint(c, writeUtf8).value;
      DecodeUnit(e + rest, strict) ==
        if strict && writeUtf8 && IsRawControl(c) then None else Some((c, |e|))
  {
    var e := EscapeCodepoint(c, writeUtf8).value;
    var t := e + rest;
    if ' ' <= c && c as int < 127 && c != '"' && c != '\\' {
    } else if c == '\t' || c == '\n' || c == '\r' || c == Backspace || c == FormFeed {
    } else if c == '/' || c == '\\' || c == '"' {
    } else if writeUtf8 {
      Utf8.DecodeEncode(c, rest);
      assert e == Utf8.Encode(c);
    } else {
      Hex4RoundTrip(c as int);
      assert t[2..6] == Hex4(c as int);
    }
  }

  /** Round trip for `writeStringUtf8`'s escape: decoding gives the text back. The output is a
      strictly valid string body, except in UTF-8 mode when the text holds a control character
      without a letter escape, which is written raw. */
  lemma {:induction false} DecodeEscapedText(s: string, writeUtf8: bool, strict: bool)
    requires EscapeText(s, writeUtf8).failedOn == None
    ensures DecodeBody(EscapeText(s, writeUtf8).text, strict) ==
      if strict && writeUtf8 && exists k :: 0 <= k < |s| && IsRawControl(s[k]) then None else Some(s)
  {
    if s != [] {
      var e := EscapeCodepoint(s[0], writeUtf8).value;
      var tail := EscapeText(s[1..], writeUtf8);
      assert EscapeText(s, writeUtf8) == Emission(e + tail.text, tail.failedOn);
      DecodeEscapedText(s[1..], writeUtf8, strict);
      DecodeEscapedCodepoint(s[0], writeUtf8, strict, tail.text);
      assert (e + tail.text)[|e|..] == tail.text;
      assert [s[0]] + s[1..] == s;
      if exists k :: 0 <= k < |s[1..]| && IsRawControl(s[1..][k]) {
        var k :| 0 <= k < |s[1..]| && IsRawControl(s[1..][k]);
        assert s[k + 1] == s[1..][k];
      }
      if exists k :: 0 <= k < |s| && IsRawControl(s[k]) {
        var k :| 0 <= k < |s| && IsRawControl(s[k]);
        if k > 0 { assert s[1..][k - 1] == s[k]; }
      }
    }
  }

  /** The byte escaper writes, for every input it accepts, exactly what the text escaper writes
      for the same characters, in either mode. */
  lemma {:induction false} BytesEscapeAsText(s: Bytes, writeUtf8: bool)
    requires Escaped(s).Ok?
    ensures EscapeText(s, writeUtf8) == Emission(Escaped(s).value, None)
  {
    if s != [] {
      assert EscapeByte(s[0]).Some?;
      EscapersAgree(s[0], writeUtf8);
      BytesEscapeAsText(s[1..], writeUtf8);
    }
  }

  /** Round trip for `jsonEscape`: its output is a strictly valid string body that decodes to the input. */
  lemma DecodeEscapedBytes(s: Bytes, strict: bool)
    requires Escaped(s).Ok?
    ensures DecodeBody(Escaped(s).value, strict) == Some(s)
  {
    BytesEscapeAsText(s, false);
    DecodeEscapedText(s, false, strict);
  }

  /** The departure from RFC 8259 in UTF-8 mode: U+0001 is written as a raw byte, which strict
      decoding rejects, while `\u` mode writes `\u0001`. */
  lemma RawControlInUtf8Mode()
    ensures EscapeText("\U{1}", true) == Emission(['\U{1}'], None)
    ensures DecodeBody(EscapeText("\U{1}", true).text, true) == None
    ensures EscapeText("\U{1}", false) == Emission("\\u0001", None)
  {
    DecodeEscapedText("\U{1}", true, true);
    assert IsRawControl("\U{1}"[0]);
  }
}
