/** fmt's `FormatInt`: an integer written backwards from the end of a fixed buffer. */
module FormatInteger {
  import opened Words
  import opened Numerals
  import opened DecimalDigits
  import opened IntegerWriter

  // room for every digit of a 64-bit value, a sign and a terminator
  const BUFFER_SIZE: nat := 19 + 3

  /** Twenty digits always do. */
  lemma DigitsFit(n: nat)
    requires n < TWO64
    ensures 0 < |Decimal(n)| <= 20
  {
    Pow10Values();
    NumeralLength(n, 10, false);
    hide Numeral, Pow;
    if |Decimal(n)| > 20 {
      PowMonotone(10, 20, |Decimal(n)| - 1);
    }
  }

  class FormatInt {
    const buffer: array<char>
    var str: nat

    ghost predicate Valid()
      reads this
    {
      buffer.Length == BUFFER_SIZE && str < BUFFER_SIZE
    }

    method Size() returns (n: nat)
      requires Valid()
      ensures n == |Text()|
    {
      n := BUFFER_SIZE - 1 - str;
    }

    /** The characters up to the place kept for the terminator. */
    ghost function Text(): string
      requires Valid()
      reads this, buffer
    {
      buffer[str..BUFFER_SIZE - 1]
    }

    constructor OfSigned(value: int)
      requires Representable(value, Bits64)
      ensures Valid() && fresh(buffer) && Text() == SignedText(value)
    {
      buffer := new char[BUFFER_SIZE];
      new;
      hide Numeral;
      MagnitudeIsAbs(value, Bits64);
      var magnitude := Unsigned(value, Bits64);
      if value < 0 { magnitude := Negated(magnitude, Bits64); }
      DigitsFit(magnitude);
      str := FormatDecimal(magnitude);
      if value < 0 {
        ghost var digits := Text();
        str := str - 1;
        buffer[str] := '-';
        assert Text() == "-" + digits;
      }
    }

    constructor OfUnsigned(value: nat)
      requires value < TWO64
      ensures Valid() && fresh(buffer) && Text() == Decimal(value)
    {
      buffer := new char[BUFFER_SIZE];
      new;
      hide Numeral;
      DigitsFit(value);
      str := FormatDecimal(value);
    }

    /** Writes the digits backwards and returns where they start; never leaves the buffer. */
    method FormatDecimal(value: nat) returns (start: nat)
      requires buffer.Length == BUFFER_SIZE && value < TWO64
      modifies buffer
      ensures start == BUFFER_SIZE - 1 - |Decimal(value)| && start > 0
      ensures buffer[start..BUFFER_SIZE - 1] == Decimal(value)
    {
      DigitsFit(value);
      var last: nat := BUFFER_SIZE - 1;
      ghost var first, before, written := last - |Decimal(value)|, buffer[..], "";
      assert first > 0 && last == 21 && buffer.Length == 22;
      hide *;
      var end: nat, n: nat := last, value;
      Spliced(before, end, "", end, end, "");
      while n >= 100
        invariant end <= last && end == |Decimal(n)| + first
        invariant buffer[..] == Spread(before, end, written, last) && end + |written| == last
        invariant Decimal(n) + written == Decimal(value)
      {
        PairFirst(n, written);
        PutPair(buffer, end, n % 100);
        Spliced(before, end, written, last, end - 2, PairText(n % 100));
        written := PairText(n % 100) + written;
        n := n / 100;
        end := end - 2;
      }
      end := PutLast(buffer, end, n);
      Spliced(before, end + |Decimal(n)|, written, last, end, Decimal(n));
      Between(before, end, Decimal(value), last);
      start := end;
    }
  }

  lemma Between(before: string, at: nat, text: string, end: nat)
    requires at + |text| == end <= |before|
    ensures Spread(before, at, text, end)[at..end] == text
  {
  }
}
