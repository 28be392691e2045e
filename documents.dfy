/** Whole documents written through the printing interface. A client prints a
    value by opening containers, declaring each member or element before its
    value, and closing the containers; `Emit` is that call sequence. This module
    proves what each kind of context makes of it: the text contexts write the
    document's JSON text (section 2 of RFC 8259, with elements and members
    separated by commas), and the tree context builds the `Json::Value` it
    stands for, at the node `current` points to. */
module Documents {
  import opened Base
  import opened Escaping
  import opened Printing
  import opened JsonValue
  import opened Tree
  import Utf8
  import Decimal

  /** A document: the value kinds the printing interface can write. */
  datatype Doc =
    | DNull
    | DBool(b: bool)
    | DInt(i: Int64)
    | DUInt(u: UInt64)
    | DBytes(bytes: Bytes)
    | DText(text: string)
    | DArray(elems: seq<Doc>)
    | DObject(members: seq<Member>)

  datatype Member = Member(name: string, value: Doc)

  /** The calls that print a document. */
  function Emit(d: Doc): seq<Call>
    decreases d, 1
  {
    match d
    case DNull => [WriteNull]
    case DBool(b) => [WriteBool(b)]
    case DInt(i) => [WriteLongLong(i)]
    case DUInt(u) => [WriteUnsignedLongLong(u)]
    case DBytes(s) => [WriteString(s)]
    case DText(t) => [WriteStringUtf8(t)]
    case DArray(es) => [StartArray] + EmitElements(es) + [EndArray]
    case DObject(ms) => [StartObject] + EmitMembers(ms) + [EndObject]
  }

  function EmitElements(es: seq<Doc>): seq<Call>
    decreases es, 0
  {
    if es == [] then [] else [NewArrayElement] + Emit(es[0]) + EmitElements(es[1..])
  }

  function EmitMembers(ms: seq<Member>): seq<Call>
    decreases ms, 0
  {
    if ms == [] then [] else [StartMember(ms[0].name)] + Emit(ms[0].value) + EmitMembers(ms[1..])
  }

  /** A document the text contexts can print: every byte string has only escapable bytes, and in
      `\u` mode every text and member name stays below U+10000. */
  predicate Printable(d: Doc, writeUtf8: bool)
    decreases d, 1
  {
    match d
    case DBytes(s) => EscapeBytes(s).failedOn == None
    case DText(t) => EscapeText(t, writeUtf8).failedOn == None
    case DArray(es) => ElementsPrintable(es, writeUtf8)
    case DObject(ms) => MembersPrintable(ms, writeUtf8)
    case _ => true
  }

  predicate ElementsPrintable(es: seq<Doc>, writeUtf8: bool)
    decreases es, 0
  {
    es != [] ==> Printable(es[0], writeUtf8) && ElementsPrintable(es[1..], writeUtf8)
  }

  predicate MembersPrintable(ms: seq<Member>, writeUtf8: bool)
    decreases ms, 0
  {
    ms != [] ==> MemberPrintable(ms[0], writeUtf8) && MembersPrintable(ms[1..], writeUtf8)
  }

  predicate MemberPrintable(m: Member, writeUtf8: bool)
    decreases m, 2
  {
    EscapeText(m.name, writeUtf8).failedOn == None && Printable(m.value, writeUtf8)
  }

  /** The JSON text of a document, defined by the grammar rather than by the frame counters:
      a container is its brackets around its children joined by commas. */
  function Text(d: Doc, writeUtf8: bool): Bytes
    decreases d, 1
  {
    match d
    case DNull => "null"
    case DBool(b) => if b then "true" else "false"
    case DInt(i) => Decimal.Decimal(i)
    case DUInt(u) => Decimal.Decimal(u)
    case DBytes(s) => ['"'] + EscapeBytes(s).text + ['"']
    case DText(t) => ['"'] + EscapeText(t, writeUtf8).text + ['"']
    case DArray(es) => ['['] + ElementsText(es, writeUtf8) + [']']
    case DObject(ms) => ['{'] + MembersText(ms, writeUtf8) + ['}']
  }

  function ElementsText(es: seq<Doc>, writeUtf8: bool): Bytes
    decreases es, 0
  {
    if es == [] then []
    else Text(es[0], writeUtf8) + (if |es| == 1 then [] else [','] + ElementsText(es[1..], writeUtf8))
  }

  function MembersText(ms: seq<Member>, writeUtf8: bool): Bytes
    decreases ms, 0
  {
    if ms == [] then []
    else
      MemberText(ms[0], writeUtf8) + (if |ms| == 1 then [] else [','] + MembersText(ms[1..], writeUtf8))
  }

  /** A member: its quoted name, the colon, and its value. */
  function MemberText(m: Member, writeUtf8: bool): Bytes
    decreases m, 2
  {
    NameText(m.name, writeUtf8) + Text(m.value, writeUtf8)
  }

  /** A member name in quotes, then the colon. */
  function NameText(name: string, writeUtf8: bool): Bytes {
    ['"'] + EscapeText(name, writeUtf8).text + ['"', ':']
  }

  /** The `Json::Value` a document stands for. Member names are keys by their UTF-8 bytes, and a
      repeated name keeps its last value. */
  function ToJson(d: Doc): Json
    decreases d, 1
  {
    match d
    case DNull => Null
    case DBool(b) => Bool(b)
    case DInt(i) => Int(i)
    case DUInt(u) => UInt(u)
    case DBytes(s) => String(s)
    case DText(t) => String(Utf8.EncodeAll(t))
    case DArray(es) => Array(ElementsJson(es))
    case DObject(ms) => Object(AddMembers(map[], ms))
  }

  function ElementsJson(es: seq<Doc>): seq<Json>
    decreases es, 0
  {
    if es == [] then [] else [ToJson(es[0])] + ElementsJson(es[1..])
  }

  function AddMembers(m: map<Bytes, Json>, ms: seq<Member>): map<Bytes, Json>
    decreases ms, 0
  {
    if ms == [] then m else AddMembers(m[Utf8.EncodeAll(ms[0].name) := ToJson(ms[0].value)], ms[1..])
  }

  /** A member name that repeats: the text contexts print both members, while the tree context
      keeps one member holding the later value. */
  lemma RepeatedMemberName(writeUtf8: bool)
    ensures var d := DObject([Member("a", DInt(1)), Member("a", DInt(2))]);
      && Text(d, writeUtf8) == "{\"a\":1,\"a\":2}"
      && ToJson(d) == Object(map["a" := Int(2)])
  {
    RepeatedMemberText(writeUtf8);
    RepeatedMemberJson();
  }

  lemma RepeatedMemberText(writeUtf8: bool)
    ensures Text(DObject([Member("a", DInt(1)), Member("a", DInt(2))]), writeUtf8) == "{\"a\":1,\"a\":2}"
  {
    var ms := [Member("a", DInt(1)), Member("a", DInt(2))];
    RepeatedMembersText(writeUtf8);
    assert Text(DObject(ms), writeUtf8) == ['{'] + MembersText(ms, writeUtf8) + ['}'];
  }

  lemma RepeatedMembersText(writeUtf8: bool)
    ensures MembersText([Member("a", DInt(1)), Member("a", DInt(2))], writeUtf8) == "\"a\":1,\"a\":2"
  {
    var m1, m2 := Member("a", DInt(1)), Member("a", DInt(2));
    var ms := [m1, m2];
    MemberTextA(1, writeUtf8);
    MemberTextA(2, writeUtf8);
    assert MembersText(ms[1..], writeUtf8) == MemberText(m2, writeUtf8);
  }

  lemma MemberTextA(i: int, writeUtf8: bool)
    requires i == 1 || i == 2
    ensures MemberText(Member("a", DInt(i)), writeUtf8) == "\"a\":" + [if i == 1 then '1' else '2']
  {
    assert EscapeText("a", writeUtf8).text == "a";
    assert Decimal.Decimal(i) == [if i == 1 then '1' else '2'];
  }

  lemma RepeatedMemberJson()
    ensures ToJson(DObject([Member("a", DInt(1)), Member("a", DInt(2))])) == Object(map["a" := Int(2)])
  {
    var ms := [Member("a", DInt(1)), Member("a", DInt(2))];
    assert Utf8.EncodeAll("a") == "a";
    assert AddMembers(map[], ms) == AddMembers(map["a" := Int(1)], ms[1..]);
    assert AddMembers(map["a" := Int(1)], ms[1..]) == map["a" := Int(1)]["a" := Int(2)];
    assert map["a" := Int(1)]["a" := Int(2)] == map["a" := Int(2)];
  }

  // ---------------------------------------------------------------------
  // The text contexts
  // ---------------------------------------------------------------------

  /** What declaring and printing the children of a container writes after the text already
      there, when the container's counter stands at `memberNum`. */
  function Continue(memberNum: int, children: Bytes, empty: bool): Bytes {
    if empty then [] else Separator(memberNum + 1) + children
  }

  /** Printing a printable document through a text context writes exactly its JSON text, and
      leaves the frame stack as it found it; the stack may even be empty. */
  lemma {:induction false} TextEmit(d: Doc, st: TextState, writeUtf8: bool)
    requires Printable(d, writeUtf8)
    ensures TextRun(st, Emit(d), writeUtf8) == Outcome(TextState(st.path, st.out + Text(d, writeUtf8)), None)
    decreases d, 2
  {
    match d
    case DArray(es) => TextEmitArray(es, st, writeUtf8);
    case DObject(ms) => TextEmitObject(ms, st, writeUtf8);
    case _ => TextEmitScalar(d, st, writeUtf8);
  }

  /** A scalar is one call that appends its text. */
  lemma TextEmitScalar(d: Doc, st: TextState, writeUtf8: bool)
    requires Printable(d, writeUtf8) && !d.DArray? && !d.DObject?
    ensures TextRun(st, Emit(d), writeUtf8) == Outcome(TextState(st.path, st.out + Text(d, writeUtf8)), None)
  {
    match d
    case DBytes(s) => TextEmitBytes(s, st, writeUtf8);
    case DText(t) => TextEmitText(t, st, writeUtf8);
    case _ =>
  }

  lemma TextEmitBytes(s: Bytes, st: TextState, writeUtf8: bool)
    requires EscapeBytes(s).failedOn == None
    ensures TextRun(st, [WriteString(s)], writeUtf8) == Outcome(TextState(st.path, st.out + Text(DBytes(s), writeUtf8)), None)
  {
    assert Escaped(s) == Ok(EscapeBytes(s).text);
    Assoc(st.out, ['"'], EscapeBytes(s).text);
    Assoc(st.out, ['"'] + EscapeBytes(s).text, ['"']);
  }

  lemma TextEmitText(t: string, st: TextState, writeUtf8: bool)
    requires EscapeText(t, writeUtf8).failedOn == None
    ensures TextRun(st, [WriteStringUtf8(t)], writeUtf8) == Outcome(TextState(st.path, st.out + Text(DText(t), writeUtf8)), None)
  {
    Assoc(st.out, ['"'], EscapeText(t, writeUtf8).text);
    Assoc(st.out, ['"'] + EscapeText(t, writeUtf8).text, ['"']);
  }

  lemma {:induction false} TextEmitArray(es: seq<Doc>, st: TextState, writeUtf8: bool)
    requires ElementsPrintable(es, writeUtf8)
    ensures TextRun(st, Emit(DArray(es)), writeUtf8)
      == Outcome(TextState(st.path, st.out + Text(DArray(es), writeUtf8)), None)
    decreases es, 3
  {
    var s1 := TextState(st.path + [NewFrame(false)], st.out + ['[']);
    OpenStep(st, false, writeUtf8);
    TextElements(es, s1.path, s1.out, writeUtf8);
    var body := ElementsText(es, writeUtf8);
    var s2 := TextState(s1.path[|s1.path| - 1 := Frame(false, -1 + |es|)], s1.out + Continue(-1, body, es == []));
    CloseStep(s2.path, s2.out, false, writeUtf8);
    assert s2.path[..|s2.path| - 1] == st.path;
    RunBracketed(st, StartArray, EmitElements(es), EndArray, s1, s2,
                 TextState(st.path, s2.out + [']']), writeUtf8);
    assert Emit(DArray(es)) == [StartArray] + EmitElements(es) + [EndArray];
    assert Continue(-1, body, es == []) == body;
    Wrap(st.out, '[', body, ']');
  }

  lemma {:induction false} TextEmitObject(ms: seq<Member>, st: TextState, writeUtf8: bool)
    requires MembersPrintable(ms, writeUtf8)
    ensures TextRun(st, Emit(DObject(ms)), writeUtf8)
      == Outcome(TextState(st.path, st.out + Text(DObject(ms), writeUtf8)), None)
    decreases ms, 3
  {
    var s1 := TextState(st.path + [NewFrame(true)], st.out + ['{']);
    OpenStep(st, true, writeUtf8);
    TextMembers(ms, s1.path, s1.out, writeUtf8);
    var body := MembersText(ms, writeUtf8);
    var s2 := TextState(s1.path[|s1.path| - 1 := Frame(true, -1 + |ms|)], s1.out + Continue(-1, body, ms == []));
    CloseStep(s2.path, s2.out, true, writeUtf8);
    assert s2.path[..|s2.path| - 1] == st.path;
    RunBracketed(st, StartObject, EmitMembers(ms), EndObject, s1, s2,
                 TextState(st.path, s2.out + ['}']), writeUtf8);
    assert Emit(DObject(ms)) == [StartObject] + EmitMembers(ms) + [EndObject];
    assert Continue(-1, body, ms == []) == body;
    Wrap(st.out, '{', body, '}');
  }

  /** Printing the elements `es` after the text `out` of an array whose frame is on top of `path`. */
  predicate ElementsPrinted(es: seq<Doc>, path: seq<Frame>, out: Bytes, writeUtf8: bool)
    requires path != []
  {
    TextRun(TextState(path, out), EmitElements(es), writeUtf8) ==
      Outcome(TextState(path[|path| - 1 := Frame(false, Top(path).memberNum + |es|)],
                        out + Continue(Top(path).memberNum, ElementsText(es, writeUtf8), es == [])), None)
  }

  /** Printing the members `ms` after the text `out` of an object whose frame is on top of `path`. */
  predicate MembersPrinted(ms: seq<Member>, path: seq<Frame>, out: Bytes, writeUtf8: bool)
    requires path != []
  {
    TextRun(TextState(path, out), EmitMembers(ms), writeUtf8) ==
      Outcome(TextState(path[|path| - 1 := Frame(true, Top(path).memberNum + |ms|)],
                        out + Continue(Top(path).memberNum, MembersText(ms, writeUtf8), ms == [])), None)
  }

  /** The elements of an array: each is preceded by a comma unless it is the first of the array,
      and the counter ends up counting them all. */
  lemma {:induction false} TextElements(es: seq<Doc>, path: seq<Frame>, out: Bytes, writeUtf8: bool)
    requires path != [] && !Top(path).isObject && Top(path).memberNum >= -1
    requires ElementsPrintable(es, writeUtf8)
    ensures ElementsPrinted(es, path, out, writeUtf8)
    decreases es, 2
  {
    if es == [] {
      ElementsPrintedNil(path, out, writeUtf8);
    } else {
      TextElements(es[1..], CountChild(path), out + Separator(Top(path).memberNum + 1) + Text(es[0], writeUtf8),
                   writeUtf8);
      ElementsPrintedCons(es, path, out, writeUtf8);
    }
  }

  /** The members of an object: each is preceded by a comma unless it is the first of the object,
      then comes its quoted name and a colon, then its value. */
  lemma {:induction false} TextMembers(ms: seq<Member>, path: seq<Frame>, out: Bytes, writeUtf8: bool)
    requires path != [] && Top(path).isObject && Top(path).memberNum >= -1
    requires MembersPrintable(ms, writeUtf8)
    ensures MembersPrinted(ms, path, out, writeUtf8)
    decreases ms, 2
  {
    if ms == [] {
      MembersPrintedNil(path, out, writeUtf8);
    } else {
      TextMembers(ms[1..], CountChild(path), out + Separator(Top(path).memberNum + 1) + MemberText(ms[0], writeUtf8),
                  writeUtf8);
      MembersPrintedCons(ms, path, out, writeUtf8);
    }
  }

  /** No elements: nothing is written and the counter stays. */
  lemma ElementsPrintedNil(path: seq<Frame>, out: Bytes, writeUtf8: bool)
    requires path != [] && !Top(path).isObject
    ensures ElementsPrinted([], path, out, writeUtf8)
  {
    assert path[|path| - 1 := Frame(false, Top(path).memberNum)] == path;
    assert out + [] == out;
  }

  /** No members: nothing is written and the counter stays. */
  lemma MembersPrintedNil(path: seq<Frame>, out: Bytes, writeUtf8: bool)
    requires path != [] && Top(path).isObject
    ensures MembersPrinted([], path, out, writeUtf8)
  {
    assert path[|path| - 1 := Frame(true, Top(path).memberNum)] == path;
    assert out + [] == out;
  }

  /** The first element, then the others from where it left the frame, prints all the elements. */
  lemma ElementsPrintedCons(es: seq<Doc>, path: seq<Frame>, out: Bytes, writeUtf8: bool)
    requires path != [] && !Top(path).isObject && Top(path).memberNum >= -1
    requires es != [] && ElementsPrintable(es, writeUtf8)
    requires ElementsPrinted(es[1..], CountChild(path), out + Separator(Top(path).memberNum + 1) + Text(es[0], writeUtf8),
                             writeUtf8)
    ensures ElementsPrinted(es, path, out, writeUtf8)
    decreases es, 1
  {
    ElementsRunStep(es, path, out, writeUtf8);
    ElementsTextStep(es, path, out, writeUtf8);
  }

  /** The first member, then the others from where it left the frame, prints all the members. */
  lemma MembersPrintedCons(ms: seq<Member>, path: seq<Frame>, out: Bytes, writeUtf8: bool)
    requires path != [] && Top(path).isObject && Top(path).memberNum >= -1
    requires ms != [] && MembersPrintable(ms, writeUtf8)
    requires MembersPrinted(ms[1..], CountChild(path), out + Separator(Top(path).memberNum + 1) + MemberText(ms[0], writeUtf8),
                            writeUtf8)
    ensures MembersPrinted(ms, path, out, writeUtf8)
    decreases ms, 1
  {
    MembersRunStep(ms, path, out, writeUtf8);
    MembersTextStep(ms, path, out, writeUtf8);
  }

  /** Printing the first element runs the array's frame one child further. */
  lemma ElementsRunStep(es: seq<Doc>, path: seq<Frame>, out: Bytes, writeUtf8: bool)
    requires path != [] && !Top(path).isObject && es != [] && ElementsPrintable(es, writeUtf8)
    ensures TextRun(TextState(path, out), EmitElements(es), writeUtf8)
      == TextRun(TextState(CountChild(path), out + Separator(Top(path).memberNum + 1) + Text(es[0], writeUtf8)),
                 EmitElements(es[1..]), writeUtf8)
    decreases es, 0
  {
    EmitElementsCons(es);
    ChildThrough(path, out, NewArrayElement, [], es[0], EmitElements(es[1..]), writeUtf8);
    assert [] + Text(es[0], writeUtf8) == Text(es[0], writeUtf8);
  }

  /** Printing the first member runs the object's frame one child further. */
  lemma MembersRunStep(ms: seq<Member>, path: seq<Frame>, out: Bytes, writeUtf8: bool)
    requires path != [] && Top(path).isObject && ms != [] && MembersPrintable(ms, writeUtf8)
    ensures TextRun(TextState(path, out), EmitMembers(ms), writeUtf8)
      == TextRun(TextState(CountChild(path), out + Separator(Top(path).memberNum + 1) + MemberText(ms[0], writeUtf8)),
                 EmitMembers(ms[1..]), writeUtf8)
    decreases ms, 0
  {
    EmitMembersCons(ms);
    MemberThrough(path, out, ms[0], EmitMembers(ms[1..]), writeUtf8);
  }

  /** The state after the first element and the rest is the state after all the elements. */
  lemma ElementsTextStep(es: seq<Doc>, path: seq<Frame>, out: Bytes, writeUtf8: bool)
    requires path != [] && es != [] && Top(path).memberNum >= -1
    ensures var p1 := CountChild(path);
      && p1[|p1| - 1 := Frame(false, Top(p1).memberNum + |es[1..]|)]
         == path[|path| - 1 := Frame(false, Top(path).memberNum + |es|)]
      && out + Separator(Top(path).memberNum + 1) + Text(es[0], writeUtf8)
         + Continue(Top(p1).memberNum, ElementsText(es[1..], writeUtf8), es[1..] == [])
         == out + Continue(Top(path).memberNum, ElementsText(es, writeUtf8), es == [])
  {
    var m := Top(path).memberNum;
    CountChildUpdate(path, false, |es[1..]|);
    ElementsTextCons(es, writeUtf8);
    ContinueStep(out, m, Text(es[0], writeUtf8), ElementsText(es[1..], writeUtf8), es[1..] == []);
  }

  /** The state after the first member and the rest is the state after all the members. */
  lemma MembersTextStep(ms: seq<Member>, path: seq<Frame>, out: Bytes, writeUtf8: bool)
    requires path != [] && ms != [] && Top(path).memberNum >= -1
    ensures var p1 := CountChild(path);
      && p1[|p1| - 1 := Frame(true, Top(p1).memberNum + |ms[1..]|)]
         == path[|path| - 1 := Frame(true, Top(path).memberNum + |ms|)]
      && out + Separator(Top(path).memberNum + 1) + MemberText(ms[0], writeUtf8)
         + Continue(Top(p1).memberNum, MembersText(ms[1..], writeUtf8), ms[1..] == [])
         == out + Continue(Top(path).memberNum, MembersText(ms, writeUtf8), ms == [])
  {
    var m := Top(path).memberNum;
    CountChildUpdate(path, true, |ms[1..]|);
    MembersTextCons(ms, writeUtf8);
    ContinueStep(out, m, MemberText(ms[0], writeUtf8), MembersText(ms[1..], writeUtf8), ms[1..] == []);
  }

  lemma EmitElementsCons(es: seq<Doc>)
    requires es != []
    ensures EmitElements(es) == [NewArrayElement] + Emit(es[0]) + EmitElements(es[1..])
  {
  }

  lemma EmitMembersCons(ms: seq<Member>)
    requires ms != []
    ensures EmitMembers(ms) == [StartMember(ms[0].name)] + Emit(ms[0].value) + EmitMembers(ms[1..])
  {
  }

  lemma MembersTextCons(ms: seq<Member>, writeUtf8: bool)
    requires ms != []
    ensures MembersText(ms, writeUtf8) == MemberText(ms[0], writeUtf8)
      + (if ms[1..] == [] then [] else [','] + MembersText(ms[1..], writeUtf8))
  {
  }

  lemma ElementsTextCons(es: seq<Doc>, writeUtf8: bool)
    requires es != []
    ensures ElementsText(es, writeUtf8) == Text(es[0], writeUtf8)
      + (if es[1..] == [] then [] else [','] + ElementsText(es[1..], writeUtf8))
  {
  }

  /** Counting a child and then setting the counter is setting the counter. */
  lemma CountChildUpdate(path: seq<Frame>, isObject: bool, k: nat)
    requires path != []
    ensures CountChild(path)[|path| - 1 := Frame(isObject, Top(path).memberNum + 1 + k)]
         == path[|path| - 1 := Frame(isObject, Top(path).memberNum + (k + 1))]
  {
  }

  lemma Wrap(out: Bytes, open: Octet, body: Bytes, close: Octet)
    ensures out + [open] + body + [close] == out + ([open] + body + [close])
  {
  }

  /** `startObject` and `startArray` on a text context. */
  lemma OpenStep(st: TextState, isObject: bool, writeUtf8: bool)
    ensures TextStep(st, if isObject then StartObject else StartArray, writeUtf8)
      == Outcome(TextState(st.path + [NewFrame(isObject)], st.out + [if isObject then '{' else '[']), None)
  {
  }

  /** `endObject` and `endArray` on a text context whose top frame has the matching kind. */
  lemma CloseStep(path: seq<Frame>, out: Bytes, isObject: bool, writeUtf8: bool)
    requires path != [] && Top(path).isObject == isObject
    ensures TextStep(TextState(path, out), if isObject then EndObject else EndArray, writeUtf8)
      == Outcome(TextState(path[..|path| - 1], out + [if isObject then '}' else ']']), None)
  {
  }

  /** `startMember` (with its quoted name and colon) or `newArrayElement` on a frame of the right kind. */
  lemma ChildStep(path: seq<Frame>, out: Bytes, c: Call, name: Bytes, writeUtf8: bool)
    requires path != [] && (c.StartMember? || c.NewArrayElement?) && Top(path).isObject == c.StartMember?
    requires c.StartMember? ==> EscapeText(c.name, writeUtf8).failedOn == None && name == NameText(c.name, writeUtf8)
    requires c.NewArrayElement? ==> name == []
    ensures TextStep(TextState(path, out), c, writeUtf8)
      == Outcome(TextState(CountChild(path), out + Separator(Top(path).memberNum + 1) + name), None)
  {
    if c.StartMember? {
      var sep := Separator(Top(path).memberNum + 1);
      assert out + sep + QuotedText(c.name, writeUtf8).text + [':'] == out + sep + name;
    } else {
      assert out + Separator(Top(path).memberNum + 1) + [] == out + Separator(Top(path).memberNum + 1);
    }
  }

  /** Declaring a child and printing its value: the separator, the name part and the value's text. */
  lemma ChildThrough(path: seq<Frame>, out: Bytes, c: Call, name: Bytes, v: Doc, rest: seq<Call>, writeUtf8: bool)
    requires path != [] && (c.StartMember? || c.NewArrayElement?) && Top(path).isObject == c.StartMember?
    requires c.StartMember? ==> EscapeText(c.name, writeUtf8).failedOn == None && name == NameText(c.name, writeUtf8)
    requires c.NewArrayElement? ==> name == []
    requires Printable(v, writeUtf8)
    ensures TextRun(TextState(path, out), [c] + Emit(v) + rest, writeUtf8)
      == TextRun(TextState(CountChild(path), out + Separator(Top(path).memberNum + 1) + (name + Text(v, writeUtf8))),
                 rest, writeUtf8)
    decreases v, 3
  {
    var s1 := TextState(CountChild(path), out + Separator(Top(path).memberNum + 1) + name);
    ChildStep(path, out, c, name, writeUtf8);
    TextEmit(v, s1, writeUtf8);
    RunThrough(TextState(path, out), c, Emit(v), rest, s1, TextState(s1.path, s1.out + Text(v, writeUtf8)), writeUtf8);
    Assoc(out + Separator(Top(path).memberNum + 1), name, Text(v, writeUtf8));
  }

  /** Declaring a member and printing its value: the separator and the member's text. */
  lemma MemberThrough(path: seq<Frame>, out: Bytes, m: Member, rest: seq<Call>, writeUtf8: bool)
    requires path != [] && Top(path).isObject && MemberPrintable(m, writeUtf8)
    ensures TextRun(TextState(path, out), [StartMember(m.name)] + Emit(m.value) + rest, writeUtf8)
      == TextRun(TextState(CountChild(path), out + Separator(Top(path).memberNum + 1) + MemberText(m, writeUtf8)),
                 rest, writeUtf8)
    decreases m, 3
  {
    ChildThrough(path, out, StartMember(m.name), NameText(m.name, writeUtf8), m.value, rest, writeUtf8);
  }

  /** One call that succeeds, then a sequence that succeeds, then the rest. */
  lemma RunThrough(st: TextState, c: Call, a: seq<Call>, b: seq<Call>, s1: TextState, s2: TextState,
                   writeUtf8: bool)
    requires TextStep(st, c, writeUtf8) == Outcome(s1, None)
    requires TextRun(s1, a, writeUtf8) == Outcome(s2, None)
    ensures TextRun(st, [c] + a + b, writeUtf8) == TextRun(s2, b, writeUtf8)
  {
    Assoc([c], a, b);
    TextRunCons(st, c, a + b, writeUtf8);
    TextRunAppend(s1, a, b, writeUtf8);
  }

  /** A run that begins with a call that succeeds goes on from that call's state. */
  lemma TextRunCons(st: TextState, c: Call, rest: seq<Call>, writeUtf8: bool)
    requires TextStep(st, c, writeUtf8).error == None
    ensures TextRun(st, [c] + rest, writeUtf8) == TextRun(TextStep(st, c, writeUtf8).state, rest, writeUtf8)
  {
    assert ([c] + rest)[0] == c;
    assert ([c] + rest)[1..] == rest;
  }

  /** An opening call, a body and a closing call, all succeeding. */
  lemma RunBracketed(st: TextState, open: Call, body: seq<Call>, close: Call,
                     s1: TextState, s2: TextState, s3: TextState, writeUtf8: bool)
    requires TextStep(st, open, writeUtf8) == Outcome(s1, None)
    requires TextRun(s1, body, writeUtf8) == Outcome(s2, None)
    requires TextStep(s2, close, writeUtf8) == Outcome(s3, None)
    ensures TextRun(st, [open] + body + [close], writeUtf8) == Outcome(s3, None)
  {
    RunThrough(st, open, body, [close], s1, s2, writeUtf8);
    assert [close][1..] == [];
  }

  /** The text after a child: its comma (unless it is the first), its name part and its value,
      then the following children, is the continuation of the container's text. */
  lemma ContinueStep(out: Bytes, m: int, child: Bytes, rest: Bytes, last: bool)
    requires m >= -1
    ensures out + Separator(m + 1) + child + Continue(m + 1, rest, last)
      == out + Continue(m, child + (if last then [] else [','] + rest), false)
  {
    var sep := Separator(m + 1);
    var tail := if last then [] else [','] + rest;
    assert Continue(m + 1, rest, last) == tail;
    assert Continue(m, child + tail, false) == sep + (child + tail);
    Assoc4(out, sep, child, tail);
  }

  // ---------------------------------------------------------------------
  // The tree context
  // ---------------------------------------------------------------------

  /** Running two call sequences one after the other on the tree context. */
  lemma {:induction false} TreeRunAppend(st: TreeState, a: seq<Call>, b: seq<Call>)
    requires Valid(st)
    ensures TreeRun(st, a + b) ==
      var r := TreeRun(st, a);
      if r.error.Some? then r else TreeRun(r.state, b)
    decreases |a|
  {
    if a == [] {
      assert a + b == b;
    } else {
      assert (a + b)[0] == a[0];
      assert (a + b)[1..] == a[1..] + b;
      TreeStepValid(st, a[0]);
      var r := TreeStep(st, a[0]);
      if r.error.None? {
        TreeRunAppend(r.state, a[1..], b);
      }
    }
  }

  /** Printing any document through the tree context (no document is refused) stores the
      `Json::Value` it stands for at the node `current` points to, and leaves the stack as it was. */
  lemma {:induction false} TreeEmit(d: Doc, st: TreeState)
    requires Valid(st)
    ensures var r := TreeRun(st, Emit(d));
      r.error == None && r.state.path == st.path && r.state.output == Put(st.output, st.current, ToJson(d))
    decreases d, 2
  {
    match d
    case DArray(es) => TreeEmitArray(es, st);
    case DObject(ms) => TreeEmitObject(ms, st);
    case _ => TreeEmitScalar(d, st);
  }

  /** A scalar is one call that stores its value at `current`. */
  lemma TreeEmitScalar(d: Doc, st: TreeState)
    requires Valid(st) && !d.DArray? && !d.DObject?
    ensures TreeRun(st, Emit(d)) == Outcome(TreeState(Put(st.output, st.current, ToJson(d)), st.current, st.path), None)
  {
    assert Emit(d) == [Emit(d)[0]];
    assert ScalarValue(Emit(d)[0]) == ToJson(d);
  }

  lemma {:induction false} TreeEmitArray(es: seq<Doc>, st: TreeState)
    requires Valid(st)
    ensures var r := TreeRun(st, Emit(DArray(es)));
      r.error == None && r.state.path == st.path && r.state.output == Put(st.output, st.current, ToJson(DArray(es)))
    decreases es, 1
  {
    var s1 := TreeState(Put(st.output, st.current, Array([])), st.current, st.path + [st.current]);
    TreeOpenStep(st, Array([]));
    TreeElements(es, s1, []);
    var s2 := TreeRun(s1, EmitElements(es)).state;
    assert [] + ElementsJson(es) == ElementsJson(es);
    PutPut(st.output, st.current, Array([]), ToJson(DArray(es)));
    TreeRunBracketed(st, StartArray, EmitElements(es), EndArray, s1, s2);
    assert Emit(DArray(es)) == [StartArray] + EmitElements(es) + [EndArray];
  }

  lemma {:induction false} TreeEmitObject(ms: seq<Member>, st: TreeState)
    requires Valid(st)
    ensures var r := TreeRun(st, Emit(DObject(ms)));
      r.error == None && r.state.path == st.path && r.state.output == Put(st.output, st.current, ToJson(DObject(ms)))
    decreases ms, 1
  {
    var s1 := TreeState(Put(st.output, st.current, Object(map[])), st.current, st.path + [st.current]);
    TreeOpenStep(st, Object(map[]));
    TreeMembers(ms, s1, map[]);
    var s2 := TreeRun(s1, EmitMembers(ms)).state;
    PutPut(st.output, st.current, Object(map[]), ToJson(DObject(ms)));
    TreeRunBracketed(st, StartObject, EmitMembers(ms), EndObject, s1, s2);
    assert Emit(DObject(ms)) == [StartObject] + EmitMembers(ms) + [EndObject];
  }

  /** The elements of an array: each is appended after those already there. */
  lemma {:induction false} TreeElements(es: seq<Doc>, st: TreeState, before: seq<Json>)
    requires Valid(st) && st.path != [] && Get(st.output, st.path[|st.path| - 1]) == Some(Array(before))
    ensures var r := TreeRun(st, EmitElements(es));
      && r.error == None && r.state.path == st.path
      && r.state.output == Put(st.output, st.path[|st.path| - 1], Array(before + ElementsJson(es)))
    decreases es, 0
  {
    var top := st.path[|st.path| - 1];
    if es == [] {
      assert before + [] == before;
      PutSame(st.output, top);
    } else {
      var x := ToJson(es[0]);
      EmitElementsCons(es);
      var s2 := TreeElementThrough(st, before, es[0], EmitElements(es[1..]));
      TreeElements(es[1..], s2, before + [x]);
      PutPut(st.output, top, Array(before + [x]), Array(before + [x] + ElementsJson(es[1..])));
      ElementsJsonCons(before, es);
    }
  }

  lemma ElementsJsonCons(before: seq<Json>, es: seq<Doc>)
    requires es != []
    ensures before + [ToJson(es[0])] + ElementsJson(es[1..]) == before + ElementsJson(es)
  {
    assert ElementsJson(es) == [ToJson(es[0])] + ElementsJson(es[1..]);
  }

  /** The members of an object: each is set by name, replacing the value of an earlier member with
      the same name. */
  lemma {:induction false} TreeMembers(ms: seq<Member>, st: TreeState, before: map<Bytes, Json>)
    requires Valid(st) && st.path != [] && Get(st.output, st.path[|st.path| - 1]) == Some(Object(before))
    ensures var r := TreeRun(st, EmitMembers(ms));
      && r.error == None && r.state.path == st.path
      && r.state.output == Put(st.output, st.path[|st.path| - 1], Object(AddMembers(before, ms)))
    decreases ms, 0
  {
    var top := st.path[|st.path| - 1];
    if ms == [] {
      PutSame(st.output, top);
    } else {
      var key := Utf8.EncodeAll(ms[0].name);
      var x := ToJson(ms[0].value);
      EmitMembersCons(ms);
      var s2 := TreeMemberThrough(st, before, ms[0].name, ms[0].value, EmitMembers(ms[1..]));
      TreeMembers(ms[1..], s2, before[key := x]);
      PutPut(st.output, top, Object(before[key := x]), Object(AddMembers(before[key := x], ms[1..])));
    }
  }

  /** Appending an element to the top array and printing its value: the state that follows. */
  lemma TreeElementThrough(st: TreeState, before: seq<Json>, v: Doc, rest: seq<Call>) returns (s2: TreeState)
    requires Valid(st) && st.path != [] && Get(st.output, st.path[|st.path| - 1]) == Some(Array(before))
    ensures var top := st.path[|st.path| - 1];
      && Valid(s2) && s2.path == st.path
      && s2.output == Put(st.output, top, Array(before + [ToJson(v)]))
      && Get(s2.output, top) == Some(Array(before + [ToJson(v)]))
      && TreeRun(st, [NewArrayElement] + Emit(v) + rest) == TreeRun(s2, rest)
    decreases v, 3
  {
    var top := st.path[|st.path| - 1];
    var s1 := TreeState(Put(st.output, top, Array(before + [Null])), top + [Index(|before|)], st.path);
    TreeElementStep(st, before);
    TreeEmit(v, s1);
    s2 := TreeRun(s1, Emit(v)).state;
    TreeRunThrough(st, NewArrayElement, Emit(v), rest, s1, s2);
    AppendThrough(st.output, top, before, ToJson(v));
  }

  /** Declaring a member of the top object and printing its value: the state that follows. */
  lemma TreeMemberThrough(st: TreeState, before: map<Bytes, Json>, name: string, v: Doc, rest: seq<Call>)
    returns (s2: TreeState)
    requires Valid(st) && st.path != [] && Get(st.output, st.path[|st.path| - 1]) == Some(Object(before))
    ensures var top := st.path[|st.path| - 1];
      var after := before[Utf8.EncodeAll(name) := ToJson(v)];
      && Valid(s2) && s2.path == st.path
      && s2.output == Put(st.output, top, Object(after))
      && Get(s2.output, top) == Some(Object(after))
      && TreeRun(st, [StartMember(name)] + Emit(v) + rest) == TreeRun(s2, rest)
    decreases v, 3
  {
    var top := st.path[|st.path| - 1];
    var key := Utf8.EncodeAll(name);
    var s1 := TreeState(Put(st.output, top, WithMember(Object(before), key).value), top + [Key(key)], st.path);
    TreeMemberStep(st, name, before);
    TreeEmit(v, s1);
    s2 := TreeRun(s1, Emit(v)).state;
    TreeRunThrough(st, StartMember(name), Emit(v), rest, s1, s2);
    SetThrough(st.output, top, before, key, ToJson(v));
  }

  /** `startObject` and `startArray` on the tree context. */
  lemma TreeOpenStep(st: TreeState, empty: Json)
    requires Valid(st) && (empty == Object(map[]) || empty == Array([]))
    ensures TreeStep(st, if empty.Object? then StartObject else StartArray)
      == Outcome(TreeState(Put(st.output, st.current, empty), st.current, st.path + [st.current]), None)
    ensures Valid(TreeState(Put(st.output, st.current, empty), st.current, st.path + [st.current]))
    ensures Get(Put(st.output, st.current, empty), st.current) == Some(empty)
  {
    TreeStepValid(st, if empty.Object? then StartObject else StartArray);
    GetPut(st.output, st.current, empty, []);
    assert st.current + [] == st.current;
  }

  /** `newArrayElement` on the tree context when the top container is an array. */
  lemma TreeElementStep(st: TreeState, before: seq<Json>)
    requires Valid(st) && st.path != [] && Get(st.output, st.path[|st.path| - 1]) == Some(Array(before))
    ensures var top := st.path[|st.path| - 1];
      TreeStep(st, NewArrayElement)
        == Outcome(TreeState(Put(st.output, top, Array(before + [Null])), top + [Index(|before|)], st.path), None)
    ensures var top := st.path[|st.path| - 1];
      Valid(TreeState(Put(st.output, top, Array(before + [Null])), top + [Index(|before|)], st.path))
  {
    TreeStepValid(st, NewArrayElement);
  }

  /** `startMember` on the tree context when the top container is an object. */
  lemma TreeMemberStep(st: TreeState, name: string, before: map<Bytes, Json>)
    requires Valid(st) && st.path != [] && Get(st.output, st.path[|st.path| - 1]) == Some(Object(before))
    ensures var top := st.path[|st.path| - 1];
      var key := Utf8.EncodeAll(name);
      TreeStep(st, StartMember(name))
        == Outcome(TreeState(Put(st.output, top, WithMember(Object(before), key).value), top + [Key(key)], st.path), None)
    ensures var top := st.path[|st.path| - 1];
      Valid(TreeState(Put(st.output, top, WithMember(Object(before), Utf8.EncodeAll(name)).value),
                      top + [Key(Utf8.EncodeAll(name))], st.path))
  {
    TreeStepValid(st, StartMember(name));
  }

  /** Appending a null element and then storing into it is appending the stored value. */
  lemma AppendThrough(j: Json, top: Location, before: seq<Json>, x: Json)
    requires Get(j, top).Some?
    ensures Get(Put(j, top, Array(before + [Null])), top + [Index(|before|)]).Some?
    ensures Put(Put(j, top, Array(before + [Null])), top + [Index(|before|)], x) == Put(j, top, Array(before + [x]))
    ensures Get(Put(j, top, Array(before + [x])), top) == Some(Array(before + [x]))
  {
    var a1 := Array(before + [Null]);
    AppendLocal(before, x);
    PutCompose(j, top, a1, [Index(|before|)], x);
    GetPut(j, top, Array(before + [x]), []);
    assert top + [] == top;
  }

  /** The same, within the array itself. */
  lemma AppendLocal(before: seq<Json>, x: Json)
    ensures Get(Array(before + [Null]), [Index(|before|)]).Some?
    ensures Put(Array(before + [Null]), [Index(|before|)], x) == Array(before + [x])
  {
    assert Get(Array(before + [Null]), [Index(|before|)]).Some?;
    assert (before + [Null])[|before| := x] == before + [x];
  }

  /** Declaring a member and then storing into it is setting that member. */
  lemma SetThrough(j: Json, top: Location, before: map<Bytes, Json>, key: Bytes, x: Json)
    requires Get(j, top).Some?
    ensures var o1 := WithMember(Object(before), key).value;
      && Get(Put(j, top, o1), top + [Key(key)]).Some?
      && Put(Put(j, top, o1), top + [Key(key)], x) == Put(j, top, Object(before[key := x]))
    ensures Get(Put(j, top, Object(before[key := x])), top) == Some(Object(before[key := x]))
  {
    var o1 := WithMember(Object(before), key).value;
    SetMemberLocal(before, key, x);
    PutCompose(j, top, o1, [Key(key)], x);
    GetPut(j, top, Object(before[key := x]), []);
    assert top + [] == top;
  }

  /** The same, within the object itself. */
  lemma SetMemberLocal(before: map<Bytes, Json>, key: Bytes, x: Json)
    ensures var o1 := WithMember(Object(before), key).value;
      Get(o1, [Key(key)]).Some? && Put(o1, [Key(key)], x) == Object(before[key := x])
  {
    var o1 := WithMember(Object(before), key).value;
    assert Get(o1, [Key(key)]).Some?;
    assert o1.members[key := x] == before[key := x];
  }

  /** One call that succeeds, then a sequence that succeeds, then the rest. */
  lemma TreeRunThrough(st: TreeState, c: Call, a: seq<Call>, b: seq<Call>, s1: TreeState, s2: TreeState)
    requires Valid(st) && TreeStep(st, c) == Outcome(s1, None)
    requires Valid(s1) && TreeRun(s1, a).state == s2 && TreeRun(s1, a).error == None
    ensures TreeRun(st, [c] + a + b) == TreeRun(s2, b)
  {
    Assoc([c], a, b);
    TreeRunCons(st, c, a + b);
    TreeRunAppend(s1, a, b);
  }

  /** A run that begins with a call that succeeds goes on from that call's state. */
  lemma TreeRunCons(st: TreeState, c: Call, rest: seq<Call>)
    requires Valid(st) && Valid(TreeStep(st, c).state) && TreeStep(st, c).error == None
    ensures TreeRun(st, [c] + rest) == TreeRun(TreeStep(st, c).state, rest)
  {
    assert ([c] + rest)[0] == c;
    assert ([c] + rest)[1..] == rest;
  }

  /** An opening call, a body and a closing call, all succeeding. */
  lemma TreeRunBracketed(st: TreeState, open: Call, body: seq<Call>, close: Call, s1: TreeState, s2: TreeState)
    requires Valid(st) && TreeStep(st, open) == Outcome(s1, None)
    requires Valid(s1) && TreeRun(s1, body).state == s2 && TreeRun(s1, body).error == None
    requires s2.path != [] && (close.EndObject? || close.EndArray?)
    ensures TreeRun(st, [open] + body + [close]) ==
      Outcome(TreeState(s2.output, s2.current, s2.path[..|s2.path| - 1]), None)
  {
    TreeRunThrough(st, open, body, [close], s1, s2);
    assert [close][1..] == [];
  }

  /** Storing a node's own value changes nothing. */
  lemma {:induction false} PutSame(j: Json, loc: Location)
    requires Get(j, loc).Some?
    ensures Put(j, loc, Get(j, loc).value) == j
  {
    if loc != [] {
      match j
      case Object(m) =>
        PutSame(m[loc[0].k], loc[1..]);
        assert m[loc[0].k := m[loc[0].k]] == m;
      case Array(es) =>
        PutSame(es[loc[0].i], loc[1..]);
        assert es[loc[0].i := es[loc[0].i]] == es;
    }
  }
}
