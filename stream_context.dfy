/** `StreamJsonPrintingContext`: writes JSON text straight to a `std::ostream`. */
module StreamContext {
  import opened Base
  import opened Escaping
  import opened Printing
  import Decimal
  import Utf8
  import Sinks

  class StreamJsonPrintingContext {
    const stream: Sinks.OStream
    var path: seq<Frame>
    /** Write non-ASCII text as raw UTF-8 (the default) rather than as `\u` escapes. */
    var writeUtf8: bool

    constructor (stream: Sinks.OStream)
      ensures this.stream == stream && path == [] && writeUtf8
    {
      this.stream := stream;
      path := [];
      writeUtf8 := true;
    }

    /** The frames and the bytes written so far, as the text semantics sees them. */
    function State(): TextState
      reads this, stream
    {
      TextState(path, stream.written)
    }

    /** The escape of one codepoint inside `writeStringUtf8`: false where the assertion of `\u`
        mode fails, having written nothing. */
    method WriteCodepoint(c: char) returns (ok: bool)
      modifies stream
      ensures ok == EscapeCodepoint(c, writeUtf8).Some?
      ensures stream.written == old(stream.written) + if ok then EscapeCodepoint(c, writeUtf8).value else []
    {
      ok := true;
      if ' ' <= c && c as int < 127 && c != '"' && c != '\\' {
        stream.Write([c as Octet]);
      } else if c == '\t' {
        stream.Write("\\t");
      } else if c == '\n' {
        stream.Write("\\n");
      } else if c == '\r' {
        stream.Write("\\r");
      } else if c == Backspace {
        stream.Write("\\b");
      } else if c == FormFeed {
        stream.Write("\\f");
      } else if c == '/' || c == '\\' || c == '"' {
        stream.Write(['\\', c as Octet]);
      } else if writeUtf8 {
        stream.Write(Utf8.Encode(c));
      } else if c as int < 0x1_0000 {
        stream.Write("\\u" + Hex4(c as int));
      } else {
        ok := false;
      }
    }

    /** The loop of `writeStringUtf8`: each codepoint's escape in turn, stopping at the first
        codepoint that has none. */
    method WriteEscapedText(s: string) returns (ok: bool)
      modifies stream
      ensures ok == (EscapeText(s, writeUtf8).failedOn == None)
      ensures stream.written == old(stream.written) + EscapeText(s, writeUtf8).text
    {
      var i := 0;
      while i < |s|
        invariant 0 <= i <= |s|
        invariant EscapeText(s[..i], writeUtf8).failedOn == None
        invariant stream.written == old(stream.written) + EscapeText(s[..i], writeUtf8).text
      {
        EscapeTextStep(s, i, writeUtf8);
        ghost var done := EscapeText(s[..i], writeUtf8).text;
        var written := WriteCodepoint(s[i]);
        if !written {
          return false;
        }
        Assoc(old(stream.written), done, EscapeCodepoint(s[i], writeUtf8).value);
        i := i + 1;
      }
      assert s[..i] == s;
      return true;
    }

    /** `writeStringUtf8`: a quote, each codepoint's escape, a quote; a codepoint from U+10000 on
        fails the assertion of `\u` mode, after what precedes it has been written. */
    method WriteStringUtf8(s: string) returns (error: Option<Error>)
      modifies stream
      ensures Outcome(State(), error) == TextStep(old(State()), Call.WriteStringUtf8(s), writeUtf8)
    {
      stream.Write(['"']);
      ghost var e := EscapeText(s, writeUtf8);
      var ok := WriteEscapedText(s);
      if !ok {
        Assoc(old(stream.written), ['"'], e.text);
        assert ['"'] + e.text + [] == ['"'] + e.text;
        return Some(AssertionFailure);
      }
      stream.Write(['"']);
      Assoc(old(stream.written), ['"'], e.text);
      Assoc(old(stream.written), ['"'] + e.text, ['"']);
      return None;
    }

    method StartObject()
      modifies this`path, stream
      ensures Outcome(State(), None) == TextStep(old(State()), Call.StartObject, writeUtf8)
    {
      path := path + [NewFrame(true)];
      stream.Write("{");
    }

    /** `startMember`: asserts the top frame is an object, counts the member, writes a comma
        unless it is the first, then the quoted name and a colon. */
    method StartMember(memberName: string) returns (error: Option<Error>)
      requires path != []
      modifies this`path, stream
      ensures Outcome(State(), error) == TextStep(old(State()), Call.StartMember(memberName), writeUtf8)
    {
      if !path[|path| - 1].isObject {
        return Some(AssertionFailure);
      }
      path := CountChild(path);
      if path[|path| - 1].memberNum != 0 {
        stream.Write(",");
      }
      assert stream.written == old(stream.written) + Separator(Top(path).memberNum);
      error := WriteStringUtf8(memberName);
      if error.Some? {
        return;
      }
      stream.Write(":");
    }

    method EndObject() returns (error: Option<Error>)
      requires path != []
      modifies this`path, stream
      ensures Outcome(State(), error) == TextStep(old(State()), Call.EndObject, writeUtf8)
    {
      if !path[|path| - 1].isObject {
        return Some(AssertionFailure);
      }
      path := path[..|path| - 1];
      stream.Write("}");
      return None;
    }

    method StartArray()
      modifies this`path, stream
      ensures Outcome(State(), None) == TextStep(old(State()), Call.StartArray, writeUtf8)
    {
      path := path + [NewFrame(false)];
      stream.Write("[");
    }

    /** `newArrayElement`: asserts the top frame is an array, counts the element, and writes a
        comma unless it is the first. */
    method NewArrayElement() returns (error: Option<Error>)
      requires path != []
      modifies this`path, stream
      ensures Outcome(State(), error) == TextStep(old(State()), Call.NewArrayElement, writeUtf8)
    {
      if path[|path| - 1].isObject {
        return Some(AssertionFailure);
      }
      path := CountChild(path);
      if path[|path| - 1].memberNum != 0 {
        stream.Write(",");
      }
      assert stream.written == old(stream.written) + Separator(Top(path).memberNum);
      return None;
    }

    method EndArray() returns (error: Option<Error>)
      requires path != []
      modifies this`path, stream
      ensures Outcome(State(), error) == TextStep(old(State()), Call.EndArray, writeUtf8)
    {
      if path[|path| - 1].isObject {
        return Some(AssertionFailure);
      }
      path := path[..|path| - 1];
      stream.Write("]");
      return None;
    }

    method Skip()
      modifies stream
      ensures Outcome(State(), None) == TextStep(old(State()), Call.Skip, writeUtf8)
    {
      stream.Write("null");
    }

    method WriteNull()
      modifies stream
      ensures Outcome(State(), None) == TextStep(old(State()), Call.WriteNull, writeUtf8)
    {
      stream.Write("null");
    }

    method WriteInt(i: Int32)
      modifies stream
      ensures Outcome(State(), None) == TextStep(old(State()), Call.WriteInt(i), writeUtf8)
    {
      stream.Write(Decimal.Decimal(i));
    }

    method WriteUnsignedInt(i: UInt32)
      modifies stream
      ensures Outcome(State(), None) == TextStep(old(State()), Call.WriteUnsignedInt(i), writeUtf8)
    {
      stream.Write(Decimal.Decimal(i));
    }

    method WriteLong(i: Int64)
      modifies stream
      ensures Outcome(State(), None) == TextStep(old(State()), Call.WriteLong(i), writeUtf8)
    {
      stream.Write(Decimal.Decimal(i));
    }

    method WriteUnsignedLong(i: UInt64)
      modifies stream
      ensures Outcome(State(), None) == TextStep(old(State()), Call.WriteUnsignedLong(i), writeUtf8)
    {
      stream.Write(Decimal.Decimal(i));
    }

    method WriteLongLong(i: Int64)
      modifies stream
      ensures Outcome(State(), None) == TextStep(old(State()), Call.WriteLongLong(i), writeUtf8)
    {
      stream.Write(Decimal.Decimal(i));
    }

    method WriteUnsignedLongLong(i: UInt64)
      modifies stream
      ensures Outcome(State(), None) == TextStep(old(State()), Call.WriteUnsignedLongLong(i), writeUtf8)
    {
      stream.Write(Decimal.Decimal(i));
    }

    /** `writeString`: a quote, the byte escape, a quote; on an invalid byte only the opening
        quote has been written when the exception leaves. */
    method WriteString(s: Bytes) returns (error: Option<Error>)
      modifies stream
      ensures Outcome(State(), error) == TextStep(old(State()), Call.WriteString(s), writeUtf8)
    {
      stream.Write(['"']);
      error := JsonEscapeToStream(s, stream);
      if error.Some? {
        return;
      }
      stream.Write(['"']);
    }

    method WriteBool(b: bool)
      modifies stream
      ensures Outcome(State(), None) == TextStep(old(State()), Call.WriteBool(b), writeUtf8)
    {
      stream.Write(if b then "true" else "false");
    }
  }
}
