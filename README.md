# JSON printing contexts of `types/json_printing.cc`

This project models the JSON emission layer of MLDB's `types/json_printing.cc` in Dafny and proves what it writes.

- **Byte-string escaper.** `jsonEscapeCore` and its three `jsonEscape` wrappers.
  - `jsonEscapeCore` walks a `std::string` and writes the body of a JSON string (section 7 of RFC 8259) into a fixed-size buffer. It throws on a byte it has no escape for.
  - The wrappers return the result, write it to an `ostream`, or append it to a `std::string`.
- **Two text printing contexts.**
  - `StreamJsonPrintingContext` writes to an `ostream`; `StringJsonPrintingContext` appends to a `std::string` owned by the caller.
  - Both keep a stack of frames `{isObject, memberNum}`. The frames decide where commas go and check with `ExcAssert` that each close and each child declaration matches the open container.
  - `writeStringUtf8` escapes Unicode text codepoint by codepoint. It writes non-ASCII as UTF-8 (section 3 of RFC 3629) or, with `writeUtf8` off, as `\uXXXX`.
- **Tree context.** `StructuredJsonPrintingContext` builds a `Json::Value` tree in place. It keeps a pointer `current` to the node the next value goes into and a stack of pointers to the containers being filled.

## How the model is organised

- **Escaping** holds the escape tables as pure functions.
  - `EscapeByte` is the byte table; `EscapeCodepoint` is the codepoint table.
  - `EmitAll` escapes element by element and stops at the first element that has no escape.
  - `Escaped` is what `jsonEscape` returns or throws. `EscapeText` and `QuotedText` describe `writeStringUtf8`.
- **Escaping, imperative part.**
  - `JsonEscapeCore` is a loop over an `array` with a write index `p`, proved against `EscapeBytes`.
  - Each `jsonEscape` overload allocates the scratch buffer of `4 * size + 4` bytes, as the source does.
- **Sinks.** `OStream` (bytes written so far) and `StdString` (the caller's string) are classes whose only operation appends.
- **Printing.** It defines the interface as a datatype of calls and the shared meaning of a call for both text contexts:
  - `TextStep` applies one call to a `TextState` (frames and output);
  - `TextRun` applies a session of calls and stops at the first exception.
- **StreamContext and StringContext.** These are the two C++ classes, with `path` and `writeUtf8` as fields and the sink as a reference.
  - Every method is proved to change the state exactly as `TextStep` says. So the two classes behave identically, and each only appends to its destination.
  - The loop of `writeStringUtf8` is a `while` loop proved against `EscapeText`.
- **JsonValue and Tree.** `Json` is the value tree.
  - A `Json::Value *` is a `Location`: the member keys and array indices that lead from the root to the node. `Get` reads the node at a location and `Put` replaces it.
  - `TreeStep` and `TreeRun` give the meaning of each call for the tree context.
  - `Valid` states that `current` and every stacked pointer point into the tree, with each stacked container above the next one. `TreeStepValid` proves that every call keeps this.
- **StructuredContext.** This is the C++ class, with `output`, `current` and `path` as fields. Every method is proved against `TreeStep` and keeps `Valid`.
- **Documents.** This module proves what the contexts make of a whole document. A client prints a value by opening containers, declaring each child before its value, and closing the containers.
  - Through either text context, a printable document comes out as exactly its JSON text. That text is defined by the grammar: brackets around the children, joined by commas.
  - Through the tree context, any document comes out as the `Json::Value` it stands for.
- **Decimal, Utf8 and Unescape.** These are the reference definitions the escapers and integer writers are checked against:
  - a decimal parser;
  - a UTF-8 decoder;
  - a JSON string-body decoder, which gives the round trips of both escapers.

Failures are values of `Base.Error`:
- `InvalidCharacter(c, str)` is the `ML::Exception` thrown by `jsonEscapeCore`;
- `LogicError` is the exception the wrappers would throw if the buffer ran out;
- `AssertionFailure` is a failed `ExcAssert`;
- `NotAContainer` is jsoncpp's assertion when a subscript meets a node that is neither null nor a container of the right kind (a scalar, or an array for `startMember`, or an object for `newArrayElement`);
- `UndefinedBehaviour` marks `path.back()` on an empty stack.

On an exception, the methods return the error together with what had been written before the throw.

Behaviour of the code that the model keeps as it is, though a reader might expect otherwise:

- Closing a container or declaring a child with an empty frame stack is undefined behaviour in C++ (`path.back()` / `pop_back()` on an empty vector). The code does not report it as a failure.
  - The methods require a non-empty `path`.
  - `TextStep` and `TreeStep` mark the case `UndefinedBehaviour`.
- In UTF-8 mode, `writeStringUtf8` writes control characters other than `\t \n \r \b \f` as raw bytes. This is not a valid JSON string body under section 7 of RFC 8259. `Unescape.RawControlInUtf8Mode` shows it.
- The tree context's `endObject`/`endArray` check no container kind, and they leave `current` where it was.

The frame counter starts at -1: the header that initialises it is not part of this model. So the first child of a container is not preceded by a comma.

## Model

| member | source | states |
|---|---|---|
| Escaping.EscapeByteTable | types/json_printing.cc:28-47 | Printable ASCII other than `"` and `\` is copied as it is, `/` included, since the `'/'` case is never reached. `"` and `\` get a backslash. Tab, newline, CR, form feed and backspace become `\t \n \r \f \b`. Every other byte (other controls, 0x7F, all bytes from 0x80 on) has no escape. An escape is 1 or 2 bytes. |
| Escaping.EscapedThrows | types/json_printing.cc:23-53 | `jsonEscape` succeeds exactly when every byte is escapable. Otherwise the model's error carries the first unescapable byte and the whole input. |
| Escaping.EscapeBytesLength | types/json_printing.cc:26-27 | The escape of a byte string is at most twice as long as the input. |
| Escaping.PlainTextUnchanged | types/json_printing.cc:29-30 | A string of printable ASCII without `"` and `\` escapes to itself. |
| Escaping.EscapeByteInto | types/json_printing.cc:28-48 | Writes the escape of one byte at the write position and advances past it, or reports the byte the switch throws on. No byte outside the two-byte window changes. |
| Escaping.JsonEscapeCore | types/json_printing.cc:23-53 | The loop writes exactly the escape of the input into `buf[p..]` and returns the advanced pointer; nothing outside `buf[p..end]` changes. It throws exactly the error of `Escaped` on an invalid byte. It returns the null pointer only when fewer than `2 * size + 4` bytes were available. |
| Escaping.JsonEscape | types/json_printing.cc:55-68 | Returns exactly `Escaped(str)`. The `4n + 4` buffer always suffices, so the "logic error" exception is unreachable. |
| Escaping.JsonEscapeToStream | types/json_printing.cc:70-82 | Writes exactly the escape to the stream, or throws the invalid-character error having written nothing. |
| Escaping.JsonEscapeAppend | types/json_printing.cc:84-96 | Appends exactly the escape to the string, or throws having appended nothing. So all three overloads produce the same bytes. |
| Escaping.EscapeTextFailure | types/json_printing.cc:124-129 | Escaping text fails exactly when `writeUtf8` is off and some codepoint is from U+10000 on. The codepoint it stops on is one of those. |
| Escaping.EscapersAgree | types/json_printing.cc:106-117 | On every byte the byte escaper accepts, the codepoint escaper writes the same bytes in both modes. |
| Unescape.Hex4RoundTrip | types/json_printing.cc:126 | The four lower-case hex digits of `\u%04x` read back as the codepoint. |
| Unescape.DecodeEscapedCodepoint | types/json_printing.cc:105-129 | Decoding the escape of one codepoint gives back that codepoint and consumes exactly its escape. Strict decoding fails only on a control character written raw in UTF-8 mode. |
| Unescape.DecodeEscapedText | types/json_printing.cc:98-133 | Round trip of `writeStringUtf8`'s body: decoding gives back the text. The output is a strictly valid string body unless UTF-8 mode wrote a raw control character. |
| Unescape.BytesEscapeAsText | types/json_printing.cc:28-42 | For any input `jsonEscape` accepts, it writes exactly what the codepoint escaper writes for the same characters. |
| Unescape.DecodeEscapedBytes | types/json_printing.cc:55-68 | Round trip of `jsonEscape`: its output is a strictly valid string body that decodes to the input. |
| Unescape.RawControlInUtf8Mode | types/json_printing.cc:118-127 | U+0001 is written as a raw byte in UTF-8 mode, which a strict decoder rejects. In `\u` mode it is written as `\u0001`. |
| Utf8.Encode | types/json_printing.cc:121 | The UTF-8 encoding that replaces `utf8::unchecked::append` takes 1 to 4 bytes, and 1 exactly for ASCII. |
| Utf8.DecodeEncode | types/json_printing.cc:119-123 | Decoding the encoding of a codepoint gives back that codepoint and stops after its bytes. |
| Utf8.DecodeEncodeAll | types/json_printing.cc:692-697 | The UTF-8 bytes stored for a `Utf8String` decode back to the text. |
| Decimal.DigitsCorrect | types/json_printing.cc:217-222 | The digits of a natural number are non-empty, all decimal, without a leading zero, and their value is the number. |
| Decimal.DecimalRoundTrip | types/json_printing.cc:456-463 | Parsing the text printed for an integer gives back the integer. |
| Decimal.DecimalIsJsonInteger | types/json_printing.cc:494-499 | The text printed for an integer is a JSON `int`: an optional minus, then digits without a leading zero. |
| Printing.TextRunAppend | types/json_printing.cc:146-298 | Running two call sequences in a row is running the first, then (if it did not throw) the second from where the first left off. |
| Printing.TextStepOnlyAppends | types/json_printing.cc:306-340 | No call removes or changes what was already written. |
| Printing.MemberDeclaration | types/json_printing.cc:154-165 | On an object frame, `startMember` counts the child and writes a comma exactly when it is not the first child, then the quoted escaped name and `:`. When the `\u` escaper cannot write the name, it fails after the counter, the comma, the opening quote and the escaped prefix. On an array frame it fails and changes nothing. |
| Printing.ElementDeclaration | types/json_printing.cc:184-193 | On an array frame, `newArrayElement` counts the child and writes a comma exactly when it is not the first child. On an object frame it fails and changes nothing. |
| Printing.OpenClose | types/json_printing.cc:146-201 | Opening never fails: it pushes exactly one frame, with counter -1, and writes `{` or `[`. Closing succeeds exactly when the top frame's kind matches; it then pops one frame and writes the bracket, and otherwise fails and changes nothing. |
| Printing.LiteralWriters | types/json_printing.cc:203-215 | `skip` and `writeNull` both write `null`; `writeBool` writes `true` or `false`. The frames are untouched. |
| Printing.IntegerWriters | types/json_printing.cc:217-257 | Every integer writer succeeds and keeps the frames. It appends exactly a JSON integer, which parses back to the value it was given. |
| StreamContext.StreamJsonPrintingContext.constructor | types/json_printing.cc:140-144 | Empty frame stack; UTF-8 mode on. |
| StreamContext.StreamJsonPrintingContext.WriteCodepoint | types/json_printing.cc:105-129 | Writes exactly the escape of one codepoint, or nothing when the `\u` assertion fails. |
| StreamContext.StreamJsonPrintingContext.WriteEscapedText | types/json_printing.cc:104-130 | The loop writes exactly `EscapeText(s)`. It succeeds exactly when no codepoint failed. |
| StreamContext.StreamJsonPrintingContext.WriteStringUtf8 | types/json_printing.cc:98-133 | New state and error are `TextStep` of `writeStringUtf8`: quote, escape, quote. On failure the output stops after the escape of the prefix. |
| StreamContext.StreamJsonPrintingContext.StartObject | types/json_printing.cc:146-152 | As `TextStep(StartObject)`: pushes an object frame and writes `{`. |
| StreamContext.StreamJsonPrintingContext.StartMember | types/json_printing.cc:154-165 | As `TextStep(StartMember)`. |
| StreamContext.StreamJsonPrintingContext.EndObject | types/json_printing.cc:167-174 | As `TextStep(EndObject)`. |
| StreamContext.StreamJsonPrintingContext.StartArray | types/json_printing.cc:176-182 | As `TextStep(StartArray)`. |
| StreamContext.StreamJsonPrintingContext.NewArrayElement | types/json_printing.cc:184-192 | As `TextStep(NewArrayElement)`. |
| StreamContext.StreamJsonPrintingContext.EndArray | types/json_printing.cc:194-201 | As `TextStep(EndArray)`. |
| StreamContext.StreamJsonPrintingContext.Skip | types/json_printing.cc:203-208 | As `TextStep(Skip)`. |
| StreamContext.StreamJsonPrintingContext.WriteNull | types/json_printing.cc:210-215 | As `TextStep(WriteNull)`. |
| StreamContext.StreamJsonPrintingContext.WriteInt | types/json_printing.cc:217-222 | As `TextStep(WriteInt)`. |
| StreamContext.StreamJsonPrintingContext.WriteUnsignedInt | types/json_printing.cc:224-229 | As `TextStep(WriteUnsignedInt)`. |
| StreamContext.StreamJsonPrintingContext.WriteLong | types/json_printing.cc:231-236 | As `TextStep(WriteLong)`. |
| StreamContext.StreamJsonPrintingContext.WriteUnsignedLong | types/json_printing.cc:238-243 | As `TextStep(WriteUnsignedLong)`. |
| StreamContext.StreamJsonPrintingContext.WriteLongLong | types/json_printing.cc:245-250 | As `TextStep(WriteLongLong)`. |
| StreamContext.StreamJsonPrintingContext.WriteUnsignedLongLong | types/json_printing.cc:252-257 | As `TextStep(WriteUnsignedLongLong)`. |
| StreamContext.StreamJsonPrintingContext.WriteString | types/json_printing.cc:277-284 | As `TextStep(WriteString)`: quote, byte escape, quote. On an invalid byte only the opening quote was written. |
| StreamContext.StreamJsonPrintingContext.WriteBool | types/json_printing.cc:293-298 | As `TextStep(WriteBool)`. |
| StringContext.StringJsonPrintingContext.Write | types/json_printing.cc:306-340 | Each `write` overload appends its bytes to the caller's string and keeps what was there. |
| StringContext.StringJsonPrintingContext.constructor | types/json_printing.cc:379-383 | Empty frame stack; UTF-8 mode on; the caller's string as destination. |
| StringContext.StringJsonPrintingContext.WriteCodepoint | types/json_printing.cc:349-373 | As the stream version, appending to the string. |
| StringContext.StringJsonPrintingContext.WriteEscapedText | types/json_printing.cc:348-374 | As the stream version, appending to the string. |
| StringContext.StringJsonPrintingContext.WriteStringUtf8 | types/json_printing.cc:342-377 | As `TextStep(WriteStringUtf8)`, so it agrees with the stream version. |
| StringContext.StringJsonPrintingContext.StartObject | types/json_printing.cc:385-391 | As `TextStep(StartObject)`. |
| StringContext.StringJsonPrintingContext.StartMember | types/json_printing.cc:393-404 | As `TextStep(StartMember)`. |
| StringContext.StringJsonPrintingContext.EndObject | types/json_printing.cc:406-413 | As `TextStep(EndObject)`. |
| StringContext.StringJsonPrintingContext.StartArray | types/json_printing.cc:415-421 | As `TextStep(StartArray)`. |
| StringContext.StringJsonPrintingContext.NewArrayElement | types/json_printing.cc:423-431 | As `TextStep(NewArrayElement)`. |
| StringContext.StringJsonPrintingContext.EndArray | types/json_printing.cc:433-440 | As `TextStep(EndArray)`. |
| StringContext.StringJsonPrintingContext.Skip | types/json_printing.cc:442-447 | As `TextStep(Skip)`. |
| StringContext.StringJsonPrintingContext.WriteNull | types/json_printing.cc:449-454 | As `TextStep(WriteNull)`. |
| StringContext.StringJsonPrintingContext.WriteInt | types/json_printing.cc:456-463 | As `TextStep(WriteInt)`: `sprintf("%i")` is the same decimal text. |
| StringContext.StringJsonPrintingContext.WriteUnsignedInt | types/json_printing.cc:465-472 | As `TextStep(WriteUnsignedInt)`. |
| StringContext.StringJsonPrintingContext.WriteLong | types/json_printing.cc:474-481 | As `TextStep(WriteLong)`. |
| StringContext.StringJsonPrintingContext.WriteUnsignedLong | types/json_printing.cc:483-490 | As `TextStep(WriteUnsignedLong)`. |
| StringContext.StringJsonPrintingContext.WriteLongLong | types/json_printing.cc:492-499 | As `TextStep(WriteLongLong)`. |
| StringContext.StringJsonPrintingContext.WriteUnsignedLongLong | types/json_printing.cc:501-508 | As `TextStep(WriteUnsignedLongLong)`. |
| StringContext.StringJsonPrintingContext.WriteString | types/json_printing.cc:536-543 | As `TextStep(WriteString)`. |
| StringContext.StringJsonPrintingContext.WriteBool | types/json_printing.cc:552-557 | As `TextStep(WriteBool)`. |
| Tree.WithMember | types/json_printing.cc:578-583 | jsoncpp's `node[key]` succeeds exactly on a null or object node. It yields an object that contains the key and keeps every member's value. A null node becomes an object holding just that null member. |
| Tree.WithElement | types/json_printing.cc:600-606 | jsoncpp's `b[b.size()]` succeeds exactly on a null or array node. It yields an array with one more element, a null at index `size()`, after the old elements. |
| Tree.TreeStepValid | types/json_printing.cc:564-711 | Every call keeps `current` and every stacked pointer pointing into the tree, each stacked container above the next one and above `current`. |
| Tree.TreeOpen | types/json_printing.cc:570-576 | `startObject`/`startArray` make the node at `current` an empty object/array and push it. `current` stays on it, and every node neither inside it nor above it is untouched. |
| Tree.TreeClose | types/json_printing.cc:585-590 | `endObject` and `endArray` are the same operation: pop one pointer. There is no kind check, and `current` does not move. |
| Tree.TreeMember | types/json_printing.cc:578-583 | `startMember` succeeds exactly on a null or object top container. `current` then points at the member with that name. A repeated name reuses the existing member and its value; a new name gets a null member; all other members are kept. The top's names are exactly its old ones (none if it was null) plus this one. Every node neither inside the top nor above it is untouched. |
| Tree.TreeArrayElement | types/json_printing.cc:600-606 | `newArrayElement` succeeds exactly on a null or array top container. A null is then appended at index `size()`, and `current` points at it. Every node neither inside the top nor above it is untouched. |
| Tree.TreeScalarWriters | types/json_printing.cc:615-711 | A scalar writer overwrites the node at `current` with its value and changes nothing else. `skip`/`writeNull` store null; strings store their bytes (a `Utf8String` its UTF-8 encoding). |
| StructuredContext.StructuredJsonPrintingContext.constructor | types/json_printing.cc:564-568 | A null tree with `current` at its root and an empty stack. |
| StructuredContext.StructuredJsonPrintingContext.StartObject | types/json_printing.cc:570-576 | As `TreeStep(StartObject)`; keeps `Valid`. |
| StructuredContext.StructuredJsonPrintingContext.StartMember | types/json_printing.cc:578-583 | As `TreeStep(StartMember)`; keeps `Valid`. |
| StructuredContext.StructuredJsonPrintingContext.EndObject | types/json_printing.cc:585-590 | As `TreeStep(EndObject)`; keeps `Valid`. |
| StructuredContext.StructuredJsonPrintingContext.StartArray | types/json_printing.cc:592-598 | As `TreeStep(StartArray)`; keeps `Valid`. |
| StructuredContext.StructuredJsonPrintingContext.NewArrayElement | types/json_printing.cc:600-606 | As `TreeStep(NewArrayElement)`; keeps `Valid`. |
| StructuredContext.StructuredJsonPrintingContext.EndArray | types/json_printing.cc:608-613 | As `TreeStep(EndArray)`; keeps `Valid`. |
| StructuredContext.StructuredJsonPrintingContext.Skip | types/json_printing.cc:615-620 | As `TreeStep(Skip)`: null at `current`. |
| StructuredContext.StructuredJsonPrintingContext.WriteNull | types/json_printing.cc:622-627 | As `TreeStep(WriteNull)`. |
| StructuredContext.StructuredJsonPrintingContext.WriteInt | types/json_printing.cc:629-634 | As `TreeStep(WriteInt)`. |
| StructuredContext.StructuredJsonPrintingContext.WriteUnsignedInt | types/json_printing.cc:636-641 | As `TreeStep(WriteUnsignedInt)`. |
| StructuredContext.StructuredJsonPrintingContext.WriteLong | types/json_printing.cc:643-648 | As `TreeStep(WriteLong)`. |
| StructuredContext.StructuredJsonPrintingContext.WriteUnsignedLong | types/json_printing.cc:650-655 | As `TreeStep(WriteUnsignedLong)`. |
| StructuredContext.StructuredJsonPrintingContext.WriteLongLong | types/json_printing.cc:657-662 | As `TreeStep(WriteLongLong)`. |
| StructuredContext.StructuredJsonPrintingContext.WriteUnsignedLongLong | types/json_printing.cc:664-669 | As `TreeStep(WriteUnsignedLongLong)`. |
| StructuredContext.StructuredJsonPrintingContext.WriteString | types/json_printing.cc:685-690 | As `TreeStep(WriteString)`. |
| StructuredContext.StructuredJsonPrintingContext.WriteStringUtf8 | types/json_printing.cc:692-697 | As `TreeStep(WriteStringUtf8)`. |
| StructuredContext.StructuredJsonPrintingContext.WriteBool | types/json_printing.cc:706-711 | As `TreeStep(WriteBool)`. |
| Documents.TextEmit | types/json_printing.cc:146-298 | Printing a printable document through a text context writes exactly its JSON text, as the grammar defines it. No exception occurs, and the frame stack ends as it began. |
| Documents.TextElements | types/json_printing.cc:184-192 | The elements of an array are written joined by commas, and the frame counts them all. |
| Documents.TextMembers | types/json_printing.cc:154-165 | The members of an object are written as `"name":value`, joined by commas, and the frame counts them all. |
| Documents.TreeEmit | types/json_printing.cc:570-711 | Printing any document through the tree context stores the `Json::Value` it stands for at `current`. No exception occurs, and the stack ends as it began. |
| Documents.TreeElements | types/json_printing.cc:600-606 | The elements of an array are appended in order after those already there. |
| Documents.TreeMembers | types/json_printing.cc:578-583 | The members of an object are set by name in order, a later member replacing an earlier one with the same name. |
| Documents.RepeatedMemberName | types/json_printing.cc:578-583 | With a repeated member name the backends differ: the text contexts print both members, the tree context keeps one member holding the later value. |

## Left out

- `writeFloat` and `writeDouble`, in all three contexts: they depend on a shortest-round-trip `dtoa` that is not part of this model, and on the platform's text for infinities and NaN.
- `writeJson`, in all three contexts: it delegates to jsoncpp's serialiser, which is not part of this model.
- The `cerr` dump before `jsonEscapeCore` throws: it is diagnostic output only.
- The text of the exception `jsonEscapeCore` throws: `InvalidCharacter` carries the offending byte and the whole input, while the C++ message formats the byte with `%d` of a `char`, signed on common platforms (0xC3 then shows as -61), and the input with `%s`, so only up to its first NUL byte.
- `ostream` formatting flags: integers are rendered in plain base 10, as with the default flags.
- The `sprintf` scratch buffers of the string context's integer writers: they only hold the same decimal text before it is appended.
- The `knownSize` argument of `startArray`: no context uses it.
- `utf8::unchecked::append` and `Utf8String` iteration are replaced by an RFC 3629 encoder over Dafny `string`, a sequence of Unicode scalar values. Surrogates and malformed UTF-8 input cannot occur in the model.
- The `memberNum` counter is an unbounded integer: `int` overflow after 2^31 children is not modelled.
- jsoncpp is not part of this model. The `Json::Value` operations are modelled on values: `operator[]` by `WithMember`/`WithElement`, assignment by `Put`.
  - A `Json::Value *` is modelled as a location in the tree, so aliasing through raw pointers is not captured.
  - `Valid` proves that every pointer the context holds stays inside the tree.
  - A member name is a key by its UTF-8 bytes.
- The `writeUtf8` flag of the text contexts is a field that the constructors set. No method changes it; the model does not say whether a caller may change it between calls.
- Escaping.JsonEscapeCore: on the null-pointer return, the contract bounds the room that was available and leaves unstated which buffer bytes were written.
- Escaping.JsonEscapeCore: on an exception, the contract leaves unstated which buffer bytes were written. No caller reads the buffer then.
