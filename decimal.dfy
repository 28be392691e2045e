/** Base-10 rendering of integers, as `stream << i` and `sprintf("%i")`,
    `"%u"`, `"%li"`, `"%lu"`, `"%lli"`, `"%llu"` produce it with default
    formatting flags, together with the parser that inverts it. */
module Decimal {
  import opened Base

  predicate IsDigit(c: Octet) {
    '0' <= c <= '9'
  }

  predicate AllDigits(s: Bytes) {
    forall k :: 0 <= k < |s| ==> IsDigit(s[k])
  }

  function DigitChar(d: nat): (c: Octet)
    requires d < 10
    ensures IsDigit(c) && c as int - '0' as int == d
  {
    ('0' as int + d) as char
  }

  /** The digits of `n`, most significant first, without leading zeros. */
  function Digits(n: nat): Bytes
  {
    if n < 10 then [DigitChar(n)] else Digits(n / 10) + [DigitChar(n % 10)]
  }

  /** The text printed for `i`: a minus sign for negative values, then the digits of its magnitude. */
  function Decimal(i: int): Bytes
  {
    if i < 0 then ['-'] + Digits(-i) else Digits(i)
  }

  /** The value of a digit string. */
  function DigitsValue(s: Bytes): nat
    requires AllDigits(s)
  {
    if s == [] then 0 else DigitsValue(s[..|s| - 1]) * 10 + (s[|s| - 1] as int - '0' as int)
  }

  /** Reads back an optionally signed decimal integer. */
  function ParseDecimal(s: Bytes): Option<int>
  {
    if 1 < |s| && s[0] == '-' && AllDigits(s[1..]) then Some(-(DigitsValue(s[1..]) as int))
    else if 0 < |s| && AllDigits(s) then Some(DigitsValue(s))
    else None
  }

  /** The `int` production of section 6 of RFC 8259: `0`, or a non-zero digit followed by digits,
      optionally preceded by a minus sign. */
  predicate IsJsonInteger(s: Bytes) {
    var d := if 0 < |s| && s[0] == '-' then s[1..] else s;
    0 < |d| && AllDigits(d) && (d[0] == '0' ==> |d| == 1)
  }

  lemma {:induction false} DigitsCorrect(n: nat)
    ensures 0 < |Digits(n)| && AllDigits(Digits(n))
    ensures DigitsValue(Digits(n)) == n
    ensures Digits(n)[0] == '0' ==> n == 0
  {
    if n >= 10 {
      DigitsCorrect(n / 10);
      var s := Digits(n);
      assert s[..|s| - 1] == Digits(n / 10);
    }
  }

  /** Parsing what was printed gives back the integer. */
  lemma DecimalRoundTrip(i: int)
    ensures ParseDecimal(Decimal(i)) == Some(i)
  {
    if i < 0 {
      DigitsCorrect(-i);
      assert Decimal(i)[1..] == Digits(-i);
    } else {
      DigitsCorrect(i);
    }
  }

  /** The printed text is a JSON number without fraction or exponent: no punctuation, no leading zero. */
  lemma DecimalIsJsonInteger(i: int)
    ensures IsJsonInteger(Decimal(i))
  {
    if i < 0 {
      DigitsCorrect(-i);
      assert Decimal(i)[1..] == Digits(-i);
    } else {
      DigitsCorrect(i);
    }
  }
}
