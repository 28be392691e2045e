/** The `JsonPrintingContext` interface as a datatype of calls, and the meaning
    of each call for the two text contexts (`StreamJsonPrintingContext` and
    `StringJsonPrintingContext`), which share it: a stack of frames decides the
    commas and checks that every close matches its open. */
module Printing {
  import opened Base
  import opened Escaping
  import Decimal

  /** One call on a printing context. `startArray`'s size hint is ignored by every context and left out. */
  datatype Call =
    | StartObject
    | StartMember(name: string)
    | EndObject
    | StartArray
    | NewArrayElement
    | EndArray
    | Skip
    | WriteNull
    | WriteBool(b: bool)
    | WriteInt(i32: Int32)
    | WriteUnsignedInt(u32: UInt32)
    | WriteLong(i64: Int64)
    | WriteUnsignedLong(u64: UInt64)
    | WriteLongLong(ll: Int64)
    | WriteUnsignedLongLong(ull: UInt64)
    | WriteString(bytes: Bytes)
    | WriteStringUtf8(text: string)

  /** The state after a call, and the exception the call threw, if any. */
  datatype Outcome<S> = Outcome(state: S, error: Option<Error>)

  /** One open container: its kind, and the index of its last child (-1 before the first). */
  datatype Frame = Frame(isObject: bool, memberNum: int)

  /** What `path.push_back(isObject)` pushes. */
  function NewFrame(isObject: bool): Frame {
    Frame(isObject, -1)
  }

  /** The state of a text context: its frame stack and everything written to its destination. */
  datatype TextState = TextState(path: seq<Frame>, out: Bytes)

  function Top(path: seq<Frame>): Frame
    requires path != []
  {
    path[|path| - 1]
  }

  /** `++path.back().memberNum`: only the top frame changes, and only its counter, by one. */
  function CountChild(path: seq<Frame>): (r: seq<Frame>)
    requires path != []
    ensures |r| == |path| && r[..|path| - 1] == path[..|path| - 1]
    ensures Top(r) == Frame(Top(path).isObject, Top(path).memberNum + 1)
  {
    path[|path| - 1 := Top(path).(memberNum := Top(path).memberNum + 1)]
  }

  /** The comma written before a child whose index is `memberNum`. */
  function Separator(memberNum: int): Bytes {
    if memberNum != 0 then [','] else []
  }

  /** The value an integer writer was given. */
  function IntegerValue(c: Call): int
    requires c.WriteInt? || c.WriteUnsignedInt? || c.WriteLong? || c.WriteUnsignedLong?
             || c.WriteLongLong? || c.WriteUnsignedLongLong?
  {
    match c
    case WriteInt(i) => i as int
    case WriteUnsignedInt(i) => i as int
    case WriteLong(i) => i as int
    case WriteUnsignedLong(i) => i as int
    case WriteLongLong(i) => i as int
    case WriteUnsignedLongLong(i) => i as int
  }

  /** The text of one integer; all six integer writers print the same way. */
  function IntegerText(c: Call): Bytes
    requires c.WriteInt? || c.WriteUnsignedInt? || c.WriteLong? || c.WriteUnsignedLong?
             || c.WriteLongLong? || c.WriteUnsignedLongLong?
  {
    Decimal.Decimal(IntegerValue(c))
  }

  /** The effect of one call on a text context. A close or a child declaration on an empty
      stack is undefined behaviour in C++ and reported as `UndefinedBehaviour`. */
  function TextStep(st: TextState, c: Call, writeUtf8: bool): Outcome<TextState>
  {
    match c
    case StartObject => Outcome(TextState(st.path + [NewFrame(true)], st.out + ['{']), None)
    case StartArray => Outcome(TextState(st.path + [NewFrame(false)], st.out + ['[']), None)
    case StartMember(name) =>
      if st.path == [] then Outcome(st, Some(UndefinedBehaviour))
      else if !Top(st.path).isObject then Outcome(st, Some(AssertionFailure))
      else
        var path := CountChild(st.path);
        var q := QuotedText(name, writeUtf8);
        var out := st.out + Separator(Top(path).memberNum) + q.text;
        if q.failedOn == None then Outcome(TextState(path, out + [':']), None)
        else Outcome(TextState(path, out), Some(AssertionFailure))
    case NewArrayElement =>
      if st.path == [] then Outcome(st, Some(UndefinedBehaviour))
      else if Top(st.path).isObject then Outcome(st, Some(AssertionFailure))
      else
        var path := CountChild(st.path);
        Outcome(TextState(path, st.out + Separator(Top(path).memberNum)), None)
    case EndObject =>
      if st.path == [] then Outcome(st, Some(UndefinedBehaviour))
      else if !Top(st.path).isObject then Outcome(st, Some(AssertionFailure))
      else Outcome(TextState(st.path[..|st.path| - 1], st.out + ['}']), None)
    case EndArray =>
      if st.path == [] then Outcome(st, Some(UndefinedBehaviour))
      else if Top(st.path).isObject then Outcome(st, Some(AssertionFailure))
      else Outcome(TextState(st.path[..|st.path| - 1], st.out + [']']), None)
    case Skip => Outcome(TextState(st.path, st.out + "null"), None)
    case WriteNull => Outcome(TextState(st.path, st.out + "null"), None)
    case WriteBool(b) => Outcome(TextState(st.path, st.out + if b then "true" else "false"), None)
    case WriteString(s) =>
      (match Escaped(s)
       case Ok(t) => Outcome(TextState(st.path, st.out + ['"'] + t + ['"']), None)
       case Fail(e) => Outcome(TextState(st.path, st.out + ['"']), Some(e)))
    case WriteStringUtf8(s) =>
      var q := QuotedText(s, writeUtf8);
      Outcome(TextState(st.path, st.out + q.text), if q.failedOn == None then None else Some(AssertionFailure))
    case _ => Outcome(TextState(st.path, st.out + IntegerText(c)), None)
  }

  /** A whole session: the calls in order, stopping at the first exception. */
  function TextRun(st: TextState, calls: seq<Call>, writeUtf8: bool): Outcome<TextState>
    decreases |calls|
  {
    if calls == [] then Outcome(st, None)
    else
      var r := TextStep(st, calls[0], writeUtf8);
      if r.error.Some? then r else TextRun(r.state, calls[1..], writeUtf8)
  }

  /** Running two call sequences one after the other. */
  lemma {:induction false} TextRunAppend(st: TextState, a: seq<Call>, b: seq<Call>, writeUtf8: bool)
    ensures TextRun(st, a + b, writeUtf8) ==
      var r := TextRun(st, a, writeUtf8);
      if r.error.Some? then r else TextRun(r.state, b, writeUtf8)
    decreases |a|
  {
    if a == [] {
      assert a + b == b;
    } else {
      assert (a + b)[0] == a[0];
      assert (a + b)[1..] == a[1..] + b;
      var r := TextStep(st, a[0], writeUtf8);
      if r.error.None? {
        TextRunAppend(r.state, a[1..], b, writeUtf8);
      }
    }
  }

  /** No call ever removes or changes what was already written: the destination only grows. */
  lemma TextStepOnlyAppends(st: TextState, c: Call, writeUtf8: bool)
    ensures st.out <= TextStep(st, c, writeUtf8).state.out
  {
  }

  /** Declaring a member. On an object frame it is counted, and a comma is written exactly when it
      is not the frame's first child (the counter starts at -1); the name follows in quotes with a
      colon. A name the `\u` escaper cannot write fails after the counter, the comma, the opening
      quote and the escaped prefix. On an array frame the declaration fails and changes nothing. */
  lemma MemberDeclaration(path: seq<Frame>, out: Bytes, name: string, writeUtf8: bool)
    requires path != []
    ensures var m := TextStep(TextState(path, out), StartMember(name), writeUtf8);
      var comma := if Top(path).memberNum == -1 then [] else [','];
      var escaped := EscapeText(name, writeUtf8);
      m == if !Top(path).isObject then Outcome(TextState(path, out), Some(AssertionFailure))
           else if escaped.failedOn == None
           then Outcome(TextState(CountChild(path), out + comma + ['"'] + escaped.text + ['"', ':']), None)
           else Outcome(TextState(CountChild(path), out + comma + ['"'] + escaped.text), Some(AssertionFailure))
  {
    if Top(path).isObject {
      var e := EscapeText(name, writeUtf8);
      var comma := if Top(path).memberNum == -1 then [] else [','];
      assert Separator(Top(CountChild(path)).memberNum) == comma;
      if e.failedOn == None {
        assert out + comma + (['"'] + e.text + ['"']) + [':'] == out + comma + ['"'] + e.text + ['"', ':'];
      } else {
        assert out + comma + (['"'] + e.text + []) == out + comma + ['"'] + e.text;
      }
    }
  }

  /** Declaring an array element. On an array frame it is counted, and a comma is written exactly
      when it is not the frame's first child. On an object frame the declaration fails and changes
      nothing. */
  lemma ElementDeclaration(path: seq<Frame>, out: Bytes, writeUtf8: bool)
    requires path != []
    ensures var comma := if Top(path).memberNum == -1 then [] else [','];
      TextStep(TextState(path, out), NewArrayElement, writeUtf8)
        == if Top(path).isObject then Outcome(TextState(path, out), Some(AssertionFailure))
           else Outcome(TextState(CountChild(path), out + comma), None)
  {
  }

  /** Opening pushes exactly one frame, with its counter at -1, writes the bracket and never fails;
      closing checks the top frame's kind and pops exactly one. */
  lemma OpenClose(st: TextState, writeUtf8: bool)
    ensures TextStep(st, StartObject, writeUtf8) == Outcome(TextState(st.path + [Frame(true, -1)], st.out + ['{']), None)
    ensures TextStep(st, StartArray, writeUtf8) == Outcome(TextState(st.path + [Frame(false, -1)], st.out + ['[']), None)
    ensures st.path != [] ==>
      && (TextStep(st, EndObject, writeUtf8) ==
            if Top(st.path).isObject then Outcome(TextState(st.path[..|st.path| - 1], st.out + ['}']), None)
            else Outcome(st, Some(AssertionFailure)))
      && (TextStep(st, EndArray, writeUtf8) ==
            if !Top(st.path).isObject then Outcome(TextState(st.path[..|st.path| - 1], st.out + [']']), None)
            else Outcome(st, Some(AssertionFailure)))
  {
  }

  /** `skip` and `writeNull` both write `null`; booleans are `true` or `false`; the frames are untouched. */
  lemma LiteralWriters(st: TextState, writeUtf8: bool, b: bool)
    ensures TextStep(st, Skip, writeUtf8) == TextStep(st, WriteNull, writeUtf8)
      == Outcome(TextState(st.path, st.out + "null"), None)
    ensures TextStep(st, WriteBool(b), writeUtf8)
      == Outcome(TextState(st.path, st.out + if b then "true" else "false"), None)
  {
  }

  /** Every integer writer appends exactly a JSON integer (base-10 digits, with a minus sign if
      negative) that reads back as the value it was given. */
  lemma IntegerWriters(st: TextState, c: Call, writeUtf8: bool)
    requires c.WriteInt? || c.WriteUnsignedInt? || c.WriteLong? || c.WriteUnsignedLong?
             || c.WriteLongLong? || c.WriteUnsignedLongLong?
    ensures var r := TextStep(st, c, writeUtf8);
      && r.error == None && r.state.path == st.path && st.out <= r.state.out
      && Decimal.IsJsonInteger(r.state.out[|st.out|..])
      && Decimal.ParseDecimal(r.state.out[|st.out|..]) == Some(IntegerValue(c))
  {
    var r := TextStep(st, c, writeUtf8);
    assert r.state.out[|st.out|..] == IntegerText(c);
    Decimal.DecimalIsJsonInteger(IntegerValue(c));
    Decimal.DecimalRoundTrip(IntegerValue(c));
  }
}
