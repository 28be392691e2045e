/** The two text destinations of the printing contexts. Both are C++
    standard-library objects owned by the caller; the printing code only
    ever appends to them. */
module Sinks {
  import opened Base

  /** A `std::ostream`: the bytes written to it so far. */
  class OStream {
    var written: Bytes

    constructor ()
      ensures written == []
    {
      written := [];
    }

    /** `stream << x` and `stream.write(buf, n)`. */
    method Write(s: Bytes)
      modifies this
      ensures written == old(written) + s
    {
      written := written + s;
    }
  }

  /** A `std::string` held by reference. */
  class StdString {
    var value: Bytes

    constructor (initial: Bytes)
      ensures value == initial
    {
      value := initial;
    }

    /** `str += x` and `str.append(buf, n)`. */
    method Append(s: Bytes)
      modifies this
      ensures value == old(value) + s
    {
      value := value + s;
    }
  }
}
