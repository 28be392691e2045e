/** The two escapers of `types/json_printing.cc`: `jsonEscapeCore` with its
    three `jsonEscape` destinations (for byte strings), and the per-codepoint
    escape of `writeStringUtf8` (for Unicode text). Both produce the body of a
    JSON string as section 7 of RFC 8259 describes it, without the quotes. */
module Escaping {
  import opened Base
  import Utf8
  import Sinks

  const Backspace: Octet := '\U{8}'
  const FormFeed: Octet := '\U{C}'

  /** The outcome of escaping a sequence element by element: the escapes of the
      longest prefix whose elements all have one, and the first element that has none. */
  datatype Emission<T> = Emission(text: Bytes, failedOn: Option<T>)

  function EmitAll<T>(f: T -> Option<Bytes>, s: seq<T>): Emission<T>
  {
    if s == [] then Emission([], None)
    else match f(s[0])
      case None => Emission([], Some(s[0]))
      case Some(e) =>
        var rest := EmitAll(f, s[1..]);
        Emission(e + rest.text, rest.failedOn)
  }

  /** Escaping a concatenation escapes the first part, then (if it did not stop) the second. */
  lemma {:induction false} EmitAllAppend<T>(f: T -> Option<Bytes>, a: seq<T>, b: seq<T>)
    ensures EmitAll(f, a + b) ==
      if EmitAll(f, a).failedOn.Some? then EmitAll(f, a)
      else Emission(EmitAll(f, a).text + EmitAll(f, b).text, EmitAll(f, b).failedOn)
  {
    if a == [] {
      assert a + b == b;
    } else {
      assert (a + b)[0] == a[0];
      assert (a + b)[1..] == a[1..] + b;
      EmitAllAppend(f, a[1..], b);
    }
  }

  /** One more element: its escape is appended, or escaping stops on it. */
  lemma EmitAllSnoc<T>(f: T -> Option<Bytes>, s: seq<T>, x: T)
    requires EmitAll(f, s).failedOn == None
    ensures EmitAll(f, s + [x]) ==
      match f(x)
      case None => Emission(EmitAll(f, s).text, Some(x))
      case Some(e) => Emission(EmitAll(f, s).text + e, None)
  {
    EmitAllAppend(f, s, [x]);
    assert [x][1..] == [];
  }

  /** Escaping stops exactly when some element has no escape, and then on the first such element. */
  lemma {:induction false} EmitAllFailure<T>(f: T -> Option<Bytes>, s: seq<T>)
    ensures EmitAll(f, s).failedOn == None <==> forall k :: 0 <= k < |s| ==> f(s[k]).Some?
    ensures EmitAll(f, s).failedOn.Some? ==>
      exists k :: 0 <= k < |s| && s[k] == EmitAll(f, s).failedOn.value && f(s[k]) == None
                  && forall j :: 0 <= j < k ==> f(s[j]).Some?
  {
    if s != [] {
      EmitAllFailure(f, s[1..]);
      if f(s[0]).Some? && EmitAll(f, s).failedOn.Some? {
        var k :| 0 <= k < |s[1..]| && s[1..][k] == EmitAll(f, s).failedOn.value && f(s[1..][k]) == None
                  && forall j :: 0 <= j < k ==> f(s[1..][j]).Some?;
        assert s[k + 1] == s[1..][k];
        forall j | 0 <= j < k + 1
          ensures f(s[j]).Some?
        {
          if j > 0 { assert s[j] == s[1..][j - 1]; }
        }
      }
      if f(s[0]).Some? && (forall k :: 0 <= k < |s[1..]| ==> f(s[1..][k]).Some?) {
        forall k | 0 <= k < |s|
          ensures f(s[k]).Some?
        {
          if k > 0 { assert s[k] == s[1..][k - 1]; }
        }
      }
    }
  }

  // ---------------------------------------------------------------------
  // Byte strings: jsonEscapeCore and jsonEscape
  // ---------------------------------------------------------------------

  /** The bytes `jsonEscapeCore` writes for one input byte, or None for a byte it throws on.
      The `'/'` case of the switch is never reached: `/` is printable and copied as it is. */
  function EscapeByte(c: Octet): Option<Bytes>
  {
    if ' ' <= c && c as int < 127 && c != '"' && c != '\\' then Some([c])
    else if c == '\t' then Some(['\\', 't'])
    else if c == '\n' then Some(['\\', 'n'])
    else if c == '\r' then Some(['\\', 'r'])
    else if c == FormFeed then Some(['\\', 'f'])
    else if c == Backspace then Some(['\\', 'b'])
    else if c == '/' || c == '\\' || c == '"' then Some(['\\', c])
    else None
  }

  /** The bytes the escaper accepts: printable ASCII and the five control characters with a letter escape. */
  predicate IsEscapableByte(c: Octet) {
    (' ' <= c && c as int < 127) || c in {'\t', '\n', '\r', FormFeed, Backspace}
  }

  function EscapeBytes(s: Bytes): Emission<Octet>
  {
    EmitAll(EscapeByte, s)
  }

  /** What `jsonEscape(str)` returns or throws. */
  function Escaped(s: Bytes): Result<Bytes>
  {
    var e := EscapeBytes(s);
    match e.failedOn
    case None => Ok(e.text)
    case Some(c) => Fail(InvalidCharacter(c, s))
  }

  /** The table of the byte escaper: printable bytes other than `"` and `\` (so `/` too) are copied,
      `"` and `\` get a backslash, five control characters get a letter escape, all others throw. */
  lemma EscapeByteTable(c: Octet)
    ensures ' ' <= c && c as int < 127 && c != '"' && c != '\\' ==> EscapeByte(c) == Some([c])
    ensures c == '"' || c == '\\' ==> EscapeByte(c) == Some(['\\', c])
    ensures EscapeByte('/') == Some(['/'])
    ensures EscapeByte('\t') == Some("\\t") && EscapeByte('\n') == Some("\\n")
    ensures EscapeByte('\r') == Some("\\r") && EscapeByte(FormFeed) == Some("\\f")
    ensures EscapeByte(Backspace) == Some("\\b")
    ensures EscapeByte(c).None? <==> !IsEscapableByte(c)
    ensures EscapeByte(c).Some? ==> 1 <= |EscapeByte(c).value| <= 2
  {
  }

  /** A byte string is escaped without throwing exactly when all its bytes are escapable; otherwise
      the exception names its first unescapable byte (a control byte, 0x7F, or any byte from 0x80 on). */
  lemma EscapedThrows(s: Bytes)
    ensures Escaped(s).Ok? <==> forall k :: 0 <= k < |s| ==> IsEscapableByte(s[k])
    ensures Escaped(s).Fail? ==>
      exists k :: 0 <= k < |s| && Escaped(s).error == InvalidCharacter(s[k], s) && !IsEscapableByte(s[k])
                  && forall j :: 0 <= j < k ==> IsEscapableByte(s[j])
  {
    EmitAllFailure(EscapeByte, s);
    forall k | 0 <= k < |s|
      ensures EscapeByte(s[k]).Some? <==> IsEscapableByte(s[k])
    {
      EscapeByteTable(s[k]);
    }
  }

  /** The escaped text is never more than twice as long as the input. */
  lemma {:induction false} EscapeBytesLength(s: Bytes)
    ensures |EscapeBytes(s).text| <= 2 * |s|
  {
    if s != [] {
      EscapeBytesLength(s[1..]);
    }
  }

  /** Text made only of printable ASCII other than `"` and `\` is its own escape. */
  lemma {:induction false} PlainTextUnchanged(s: Bytes)
    requires forall k :: 0 <= k < |s| ==> ' ' <= s[k] && s[k] as int < 127 && s[k] != '"' && s[k] != '\\'
    ensures Escaped(s) == Ok(s)
  {
    if s != [] {
      PlainTextUnchanged(s[1..]);
      assert [s[0]] + s[1..] == s;
    }
  }

  /** The escape of byte `c` at `buf[q]` (one byte) or `buf[q..q + 2]` (a backslash and a letter);
      false for a byte the escaper throws on, after the backslash was written. */
  method EscapeByteInto(c: Octet, buf: array<Octet>, q: nat) returns (ok: bool, next: nat)
    requires q + 2 <= buf.Length
    modifies buf
    ensures ok <==> EscapeByte(c).Some?
    ensures ok ==> next == q + |EscapeByte(c).value| && buf[q..next] == EscapeByte(c).value
    ensures forall k :: 0 <= k < buf.Length && !(q <= k < q + 2) ==> buf[k] == old(buf[k])
  {
    if ' ' <= c && c as int < 127 && c != '"' && c != '\\' {
      buf[q] := c;
      return true, q + 1;
    }
    buf[q] := '\\';
    if c == '\t' {
      buf[q + 1] := 't';
    } else if c == '\n' {
      buf[q + 1] := 'n';
    } else if c == '\r' {
      buf[q + 1] := 'r';
    } else if c == FormFeed {
      buf[q + 1] := 'f';
    } else if c == Backspace {
      buf[q + 1] := 'b';
    } else if c == '/' || c == '\\' || c == '"' {
      buf[q + 1] := c;
    } else {
      return false, q;
    }
    return true, q + 2;
  }

  /** One more byte that has an escape extends the escape of the prefix by that escape. */
  lemma EscapeBytesStep(s: Bytes, i: nat)
    requires i < |s| && EscapeBytes(s[..i]).failedOn == None && EscapeByte(s[i]).Some?
    ensures EscapeBytes(s[..i + 1]) == Emission(EscapeBytes(s[..i]).text + EscapeByte(s[i]).value, None)
    ensures |EscapeByte(s[i]).value| <= 2
  {
    assert s[..i + 1] == s[..i] + [s[i]];
    EmitAllSnoc(EscapeByte, s[..i], s[i]);
    EscapeByteTable(s[i]);
  }

  /** Escaping stops on the first byte without an escape, and the exception names it. */
  lemma EscapeBytesStop(s: Bytes, i: nat)
    requires i < |s| && EscapeBytes(s[..i]).failedOn == None && EscapeByte(s[i]) == None
    ensures Escaped(s) == Fail(InvalidCharacter(s[i], s))
  {
    var init := s[..i + 1];
    assert init == s[..i] + [s[i]];
    assert init + s[i + 1..] == s;
    EmitAllSnoc(EscapeByte, s[..i], s[i]);
    EmitAllAppend(EscapeByte, init, s[i + 1..]);
  }

  /** What `jsonEscapeCore` reports: the write pointer after the escape, the null pointer
      when the buffer ran out of room, or the exception it threw. */
  datatype CoreResult = Advanced(p: nat) | NullPointer | Threw(error: Error)

  /** `jsonEscapeCore(str, p, end)`: escapes `str` into `buf` from index `p`, refusing to go on
      once fewer than five bytes are left before `end`. */
  method JsonEscapeCore(str: Bytes, buf: array<Octet>, p: nat, end: nat) returns (r: CoreResult)
    requires p <= end <= buf.Length
    modifies buf
    ensures forall k :: 0 <= k < buf.Length && !(p <= k < end) ==> buf[k] == old(buf[k])
    ensures r.Advanced? ==>
      EscapeBytes(str).failedOn == None && p <= r.p <= end && buf[p..r.p] == EscapeBytes(str).text
    ensures r.Threw? ==> Escaped(str) == Fail(r.error)
    ensures r.NullPointer? ==> end < p + 2 * |str| + 4
  {
    var q := p;
    var i := 0;
    while i < |str|
      invariant 0 <= i <= |str|
      invariant EscapeBytes(str[..i]).failedOn == None
      invariant q == p + |EscapeBytes(str[..i]).text| && q <= p + 2 * i && q <= end
      invariant buf[p..q] == EscapeBytes(str[..i]).text
      invariant forall k :: 0 <= k < buf.Length && !(p <= k < end) ==> buf[k] == old(buf[k])
    {
      if q + 4 >= end {
        return NullPointer;
      }
      var c := str[i];
      ghost var before := buf[p..q];
      var ok, next := EscapeByteInto(c, buf, q);
      if !ok {
        EscapeBytesStop(str, i);
        return Threw(InvalidCharacter(c, str));
      }
      assert buf[p..q] == before;
      assert buf[p..next] == buf[p..q] + buf[q..next];
      EscapeBytesStep(str, i);
      q, i := next, i + 1;
    }
    assert str[..i] == str;
    return Advanced(q);
  }

  /** `jsonEscape(str)`: escapes into a scratch buffer of `4 * |str| + 4` bytes and returns the result.
      The buffer is always large enough, so the "logic error" exception is never thrown. */
  method JsonEscape(str: Bytes) returns (r: Result<Bytes>)
    ensures r == Escaped(str)
  {
    var buf := new Octet[|str| * 4 + 4];
    var core := JsonEscapeCore(str, buf, 0, buf.Length);
    match core
    case NullPointer =>
      assert false;
      r := Fail(LogicError);
    case Threw(e) =>
      r := Fail(e);
    case Advanced(q) =>
      r := Ok(buf[0..q]);
  }

  /** `jsonEscape(str, stream)`: writes the escape to the stream, or throws before writing anything. */
  method JsonEscapeToStream(str: Bytes, stream: Sinks.OStream) returns (error: Option<Error>)
    modifies stream
    ensures match Escaped(str)
      case Ok(t) => error == None && stream.written == old(stream.written) + t
      case Fail(e) => error == Some(e) && stream.written == old(stream.written)
  {
    var buf := new Octet[|str| * 4 + 4];
    var core := JsonEscapeCore(str, buf, 0, buf.Length);
    match core
    case NullPointer =>
      assert false;
      error := Some(LogicError);
    case Threw(e) =>
      error := Some(e);
    case Advanced(q) =>
      stream.Write(buf[0..q]);
      error := None;
  }

  /** `jsonEscape(str, out)`: appends the escape to `out`, or throws before appending anything. */
  method JsonEscapeAppend(str: Bytes, out: Sinks.StdString) returns (error: Option<Error>)
    modifies out
    ensures match Escaped(str)
      case Ok(t) => error == None && out.value == old(out.value) + t
      case Fail(e) => error == Some(e) && out.value == old(out.value)
  {
    var buf := new Octet[|str| * 4 + 4];
    var core := JsonEscapeCore(str, buf, 0, buf.Length);
    match core
    case NullPointer =>
      assert false;
      error := Some(LogicError);
    case Threw(e) =>
      error := Some(e);
    case Advanced(q) =>
      out.Append(buf[0..q]);
      error := None;
  }

  // ---------------------------------------------------------------------
  // Unicode text: the per-codepoint escape of writeStringUtf8
  // ---------------------------------------------------------------------

  function HexDigit(d: nat): (c: Octet)
    requires d < 16
  {
    if d < 10 then ('0' as int + d) as char else ('a' as int + d - 10) as char
  }

  /** `format("%04x", v)`: four lower-case hexadecimal digits. */
  function Hex4(v: nat): Bytes
    requires v < 0x1_0000
  {
    [HexDigit(v / 0x1000), HexDigit(v / 0x100 % 0x10), HexDigit(v / 0x10 % 0x10), HexDigit(v % 0x10)]
  }

  /** The bytes `writeStringUtf8` writes for one codepoint, or None where its `ExcAssert` fails.
      Codepoints outside printable ASCII and the special characters are written as UTF-8 when
      `writeUtf8` is set (control characters included, raw) and as `\uXXXX` otherwise. */
  function EscapeCodepoint(c: char, writeUtf8: bool): Option<Bytes>
  {
    if ' ' <= c && c as int < 127 && c != '"' && c != '\\' then Some([c as Octet])
    else if c == '\t' then Some(['\\', 't'])
    else if c == '\n' then Some(['\\', 'n'])
    else if c == '\r' then Some(['\\', 'r'])
    else if c == Backspace then Some(['\\', 'b'])
    else if c == FormFeed then Some(['\\', 'f'])
    else if c == '/' || c == '\\' || c == '"' then Some(['\\', c as Octet])
    else if writeUtf8 then Some(Utf8.Encode(c))
    else if c as int < 0x1_0000 then Some(['\\', 'u'] + Hex4(c as int))
    else None
  }

  function EscapeAsUtf8(c: char): Option<Bytes> {
    EscapeCodepoint(c, true)
  }

  function EscapeAsUnicode(c: char): Option<Bytes> {
    EscapeCodepoint(c, false)
  }

  /** The escape of a whole text, up to the first codepoint without one. */
  function EscapeText(s: string, writeUtf8: bool): Emission<char>
  {
    if s == [] then Emission([], None)
    else match EscapeCodepoint(s[0], writeUtf8)
      case None => Emission([], Some(s[0]))
      case Some(e) =>
        var rest := EscapeText(s[1..], writeUtf8);
        Emission(e + rest.text, rest.failedOn)
  }

  function QuotedText(s: string, writeUtf8: bool): Emission<char>
  {
    var e := EscapeText(s, writeUtf8);
    Emission(['"'] + e.text + (if e.failedOn == None then ['"'] else []), e.failedOn)
  }

  /** The text escaper is the element-by-element escaper of the chosen mode. */
  lemma {:induction false} EscapeTextEmitsAll(s: string, writeUtf8: bool)
    ensures EscapeText(s, writeUtf8) == EmitAll(if writeUtf8 then EscapeAsUtf8 else EscapeAsUnicode, s)
  {
    if s != [] {
      EscapeTextEmitsAll(s[1..], writeUtf8);
    }
  }

  /** Escaping text one codepoint further: its escape is appended, or, where it has none,
      escaping the whole text stops on it after the escape of the prefix. */
  lemma EscapeTextStep(s: string, i: nat, writeUtf8: bool)
    requires i < |s| && EscapeText(s[..i], writeUtf8).failedOn == None
    ensures match EscapeCodepoint(s[i], writeUtf8)
      case None => EscapeText(s, writeUtf8) == Emission(EscapeText(s[..i], writeUtf8).text, Some(s[i]))
      case Some(e) => EscapeText(s[..i + 1], writeUtf8) == Emission(EscapeText(s[..i], writeUtf8).text + e, None)
  {
    var f: char -> Option<Bytes> := if writeUtf8 then EscapeAsUtf8 else EscapeAsUnicode;
    assert f(s[i]) == EscapeCodepoint(s[i], writeUtf8);
    EscapeTextEmitsAll(s[..i], writeUtf8);
    EscapeTextEmitsAll(s[..i + 1], writeUtf8);
    var init := s[..i + 1];
    assert init == s[..i] + [s[i]];
    EmitAllSnoc(f, s[..i], s[i]);
    if EscapeCodepoint(s[i], writeUtf8).None? {
      EscapeTextEmitsAll(s, writeUtf8);
      assert init + s[i + 1..] == s;
      EmitAllAppend(f, init, s[i + 1..]);
    }
  }

  /** On the bytes the byte escaper accepts, the codepoint escaper writes the same bytes, in both modes. */
  lemma EscapersAgree(c: Octet, writeUtf8: bool)
    requires EscapeByte(c).Some?
    ensures EscapeCodepoint(c, writeUtf8) == EscapeByte(c)
  {
  }

  /** Escaping text stops only in `\u` mode, and only on a codepoint from U+10000 on,
      which a four-digit escape cannot represent. */
  lemma EscapeTextFailure(s: string, writeUtf8: bool)
    ensures EscapeText(s, writeUtf8).failedOn == None <==>
      writeUtf8 || forall k :: 0 <= k < |s| ==> s[k] as int < 0x1_0000
    ensures EscapeText(s, writeUtf8).failedOn.Some? ==>
      !writeUtf8 && EscapeText(s, writeUtf8).failedOn.value as int >= 0x1_0000
  {
    var f: char -> Option<Bytes> := if writeUtf8 then EscapeAsUtf8 else EscapeAsUnicode;
    EscapeTextEmitsAll(s, writeUtf8);
    EmitAllFailure(f, s);
    forall k | 0 <= k < |s|
      ensures f(s[k]).Some? <==> writeUtf8 || s[k] as int < 0x1_0000
    {
    }
  }
}
