/** Shared vocabulary of the JSON printing layer: bytes, optional values,
    the failures the C++ code raises, and the integer widths of the
    `write*Int*` family. */
module Base {

  /** One byte of a C++ `std::string`, kept as the character with that code. */
  type Octet = c: char | c as int < 0x100 witness '\0'

  /** The contents of a `std::string` (or the bytes written to an `ostream`). */
  type Bytes = seq<Octet>

  datatype Option<+T> = None | Some(value: T)

  /** The value an operation returns, or the exception it throws instead. */
  datatype Result<+T> = Ok(value: T) | Fail(error: Error)

  /** What the source raises instead of returning normally. */
  datatype Error =
    /** `ML::Exception("Invalid character in JSON string ...")`. The model keeps the offending byte
        and the whole input; the C++ message shows the byte as `%d` of a `char` (signed on common
        platforms) and the input only up to its first NUL byte. */
    | InvalidCharacter(c: Octet, text: Bytes)
    /** `ML::Exception("To fix: logic error in JSON escaping")`: the scratch buffer was too small. */
    | LogicError
    /** A failed `ExcAssert` (a caller broke the open/close discipline, or a codepoint has no `\u` escape). */
    | AssertionFailure
    /** A `Json::Value` subscript on a node that is neither null nor a container of the right kind. */
    | NotAContainer
    /** `back()` or `pop_back()` on an empty `std::vector`: undefined in C++, never produced by the methods. */
    | UndefinedBehaviour

  /** Ranges of the C++ integer types on an LP64 platform. */
  type Int32 = i: int | -0x8000_0000 <= i < 0x8000_0000
  type UInt32 = i: int | 0 <= i < 0x1_0000_0000
  type Int64 = i: int | -0x8000_0000_0000_0000 <= i < 0x8000_0000_0000_0000
  type UInt64 = i: int | 0 <= i < 0x1_0000_0000_0000_0000

  /** Concatenation regrouped, for the places where a sequence is built up piece by piece. */
  lemma Assoc<T>(a: seq<T>, b: seq<T>, c: seq<T>)
    ensures a + b + c == a + (b + c)
  {
  }

  lemma Assoc4<T>(a: seq<T>, b: seq<T>, c: seq<T>, d: seq<T>)
    ensures a + b + c + d == a + (b + (c + d))
  {
  }
}
