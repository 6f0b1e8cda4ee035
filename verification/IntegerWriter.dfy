/** fmt's integer output: `format_decimal` into a buffer, and the writer's `write_decimal` and `write_int`
    with prefix, precision, width and alignment. */
module IntegerWriter {
  import opened Words
  import opened Numerals
  import opened DecimalDigits

  /** Fills exactly the `numDigits` places from `start` with the numeral of `value`, last digits
      first, two at a time. */
  method FormatDecimal(buffer: array<char>, start: nat, value: nat, numDigits: nat)
    requires numDigits == |Decimal(value)| && start + numDigits <= buffer.Length
    modifies buffer
    ensures buffer[..] == old(buffer[..start]) + Decimal(value) + old(buffer[start + numDigits..])
  {
    hide *;
    ghost var before, written := buffer[..], "";
    ghost var end := start + numDigits;
    var at: nat, n: nat := start + numDigits, value;
    Spliced(before, at, "", end, at, "");
    while n >= 100
      invariant at <= end && at == start + |Decimal(n)|
      invariant buffer[..] == Spread(before, at, written, end) && at + |written| == end
      invariant Decimal(n) + written == Decimal(value)
    {
      PairFirst(n, written);
      PutPair(buffer, at, n % 100);
      Spliced(before, at, written, end, at - 2, PairText(n % 100));
      written := PairText(n % 100) + written;
      n := n / 100;
      at := at - 2;
    }
    at := PutLast(buffer, at, n);
    Spliced(before, at + |Decimal(n)|, written, end, at, Decimal(n));
    SpreadIs(before, at, Decimal(value), end);
  }

  /** The last one or two digits, before the place `end`; returns where they start. */
  method PutLast(buffer: array<char>, end: nat, n: nat) returns (at: nat)
    requires n < 100 && |Decimal(n)| <= end <= buffer.Length
    modifies buffer
    ensures at == end - |Decimal(n)|
    ensures buffer[..] == old(buffer[..at]) + Decimal(n) + old(buffer[end..])
  {
    LastDigits(n);
    hide *;
    if n < 10 {
      at := end - 1;
      buffer[at] := '0' + n as char;
    } else {
      PutPair(buffer, end, n);
      at := end - 2;
    }
  }

  /** A text with `written` in its place from `at` to `end`. */
  ghost function Spread(before: string, at: nat, written: string, end: nat): string
    requires at <= end <= |before|
  {
    before[..at] + written + before[end..]
  }

  lemma SpreadIs(before: string, at: nat, text: string, end: nat)
    requires at <= end <= |before|
    ensures Spread(before, at, text, end) == before[..at] + text + before[end..]
  {
  }

  /** Writing `text` just before what is already written. */
  lemma Spliced(before: string, at: nat, written: string, end: nat, start: nat, text: string)
    requires at <= end <= |before| && at + |written| == end && start + |text| == at
    ensures var s := Spread(before, at, written, end);
            |s| == |before| && s[..start] + text + s[at..] == Spread(before, start, text + written, end)
    ensures at == end ==> Spread(before, at, "", end) == before
  {
    var s := before[..at] + written + before[end..];
    assert s[..start] == before[..start] && s[at..] == written + before[end..];
    assert before[..start] + text + (written + before[end..]) == before[..start] + (text + written) + before[end..];
  }

  /** Two digits from the table, before the place `end`. */
  method PutPair(buffer: array<char>, end: nat, pair: nat)
    requires 2 <= end <= buffer.Length && pair < 100
    modifies buffer
    ensures buffer[..] == old(buffer[..end - 2]) + PairText(pair) + old(buffer[end..])
  {
    ghost var text := PairText(pair);
    hide *;
    var index := pair * 2;
    buffer[end - 1] := DIGITS[index + 1];
    buffer[end - 2] := DIGITS[index];
  }

  /** Two digits more in front of what is written. */
  lemma PairFirst(n: nat, written: string)
    requires n >= 100
    ensures |Decimal(n)| == |Decimal(n / 100)| + 2 && |Decimal(n / 100)| > 0 && |PairText(n % 100)| == 2
    ensures Decimal(n / 100) + (PairText(n % 100) + written) == Decimal(n) + written
  {
    hide *;
    TwoDigits(n);
    DecimalNotEmpty(n / 100);
  }

  lemma DecimalNotEmpty(n: nat)
    ensures |Decimal(n)| > 0
  {
  }

  // ----- layout -------------------------------------------------------------------------------------------

  datatype Alignment = AlignDefault | AlignLeft | AlignRight | AlignCenter | AlignNumeric

  datatype FormatSpec = FormatSpec(
    width: nat,
    fill: char,
    align: Alignment,
    sign: bool,
    plus: bool,
    minus: bool,
    hash: bool,
    precision: int,
    kind: char)

  function Repeat(c: char, n: nat): (s: string)
    ensures |s| == n && forall k :: 0 <= k < n ==> s[k] == c
  {
    seq(n, _ => c)
  }

  predicate Precise(digits: nat, spec: FormatSpec) {
    spec.precision > digits
  }

  /** A precision that pads takes the place of the octal prefix. */
  function PrefixUsed(digits: nat, spec: FormatSpec, prefix: string): (p: string)
    ensures p <= prefix
  {
    if Precise(digits, spec) && prefix != "" && prefix[|prefix| - 1] == '0' then prefix[..|prefix| - 1] else prefix
  }

  function Zeros(digits: nat, spec: FormatSpec): string {
    if Precise(digits, spec) then Repeat('0', spec.precision - digits) else ""
  }

  /** Prefix, precision zeros and digits, without padding to the width. */
  function NumberSize(digits: nat, spec: FormatSpec, prefix: string): nat {
    |PrefixUsed(digits, spec, prefix)| + |Zeros(digits, spec)| + digits
  }

  function Padding(digits: nat, spec: FormatSpec, prefix: string): nat {
    var size := NumberSize(digits, spec, prefix);
    if spec.width > size then spec.width - size else 0
  }

  /** What stands to the left of the digits. */
  function LeftText(digits: nat, spec: FormatSpec, prefix: string): string {
    var p, z, pad := PrefixUsed(digits, spec, prefix), Zeros(digits, spec), Padding(digits, spec, prefix);
    if pad == 0 || spec.align == AlignLeft then p + z
    else if Precise(digits, spec) then Repeat(spec.fill, pad) + p + z
    else if spec.align == AlignCenter then Repeat(spec.fill, pad / 2) + p
    else if spec.align == AlignNumeric then p + Repeat(spec.fill, pad)
    else Repeat(spec.fill, pad) + p
  }

  function RightText(digits: nat, spec: FormatSpec, prefix: string): string {
    var pad := Padding(digits, spec, prefix);
    if spec.align == AlignLeft then Repeat(spec.fill, pad)
    else if spec.align == AlignCenter && !Precise(digits, spec) then Repeat(spec.fill, pad - pad / 2)
    else ""
  }

  function Max(a: int, b: int): int {
    if a > b then a else b
  }

  predicate Only(s: string, c: char) {
    forall k :: 0 <= k < |s| ==> s[k] == c
  }

  /** Whatever the alignment, the text is as long as the width or the number itself, whichever is
      more. */
  lemma LayoutSize(digits: nat, spec: FormatSpec, prefix: string)
    ensures |LeftText(digits, spec, prefix)| + digits + |RightText(digits, spec, prefix)| ==
            Max(spec.width, |PrefixUsed(digits, spec, prefix)| + Max(spec.precision, digits))
  {
    hide PrefixUsed;
  }

  /** The text left of the digits: fill, the prefix, then precision zeros or numeric fill. */
  ghost predicate Surrounds(left: string, before: string, p: string, between: string, digits: nat, spec: FormatSpec) {
    && left == before + p + between
    && Only(before, spec.fill)
    && (if Precise(digits, spec) then Only(between, '0') && |between| == spec.precision - digits
        else Only(between, spec.fill))
  }

  /** It holds the prefix once and is otherwise fill, except for the zeros a precision calls for. */
  lemma LayoutMeaning(digits: nat, spec: FormatSpec, prefix: string)
    ensures exists before: string, between: string ::
              Surrounds(LeftText(digits, spec, prefix), before, PrefixUsed(digits, spec, prefix), between, digits, spec)
    ensures Only(RightText(digits, spec, prefix), spec.fill)
  {
    var p, z, pad := PrefixUsed(digits, spec, prefix), Zeros(digits, spec), Padding(digits, spec, prefix);
    var left := LeftText(digits, spec, prefix);
    assert "" + p + z == p + z && p + "" == p;
    hide PrefixUsed, Padding;
    if pad == 0 || spec.align == AlignLeft {
      assert Surrounds(left, "", p, z, digits, spec);
    } else if Precise(digits, spec) {
      assert Surrounds(left, Repeat(spec.fill, pad), p, z, digits, spec);
    } else if spec.align == AlignCenter {
      assert Surrounds(left, Repeat(spec.fill, pad / 2), p, "", digits, spec);
    } else if spec.align == AlignNumeric {
      assert Surrounds(left, "", p, Repeat(spec.fill, pad), digits, spec);
    } else {
      assert Surrounds(left, Repeat(spec.fill, pad), p, "", digits, spec);
    }
  }

  // ----- the growable buffer ------------------------------------------------------------------------------

  class Writer {
    var ptr: array<char>
    var size: nat

    ghost predicate Valid()
      reads this
    {
      size <= ptr.Length
    }

    ghost function Contents(): (s: string)
      requires Valid()
      reads this, ptr
      ensures |s| == size
    {
      ptr[..size]
    }

    constructor ()
      ensures Valid() && Contents() == "" && fresh(ptr)
    {
      ptr := new char[500];
      size := 0;
    }

    /** Makes room for `n` more characters, in place or in a larger buffer, and says where they start. */
    method GrowBuffer(n: nat) returns (at: nat)
      requires Valid()
      modifies this
      ensures Valid() && at == old(size) && size == at + n
      ensures Contents()[..at] == old(Contents())
      ensures ptr == old(ptr) || fresh(ptr)
    {
      at := size;
      if size + n > ptr.Length {
        var capacity := ptr.Length + ptr.Length / 2;
        if capacity < size + n { capacity := size + n; }
        var larger := new char[capacity];
        var i := 0;
        while i < size
          modifies larger
          invariant 0 <= i <= size && larger[..i] == ptr[..i]
        {
          larger[i] := ptr[i];
          i := i + 1;
        }
        ptr := larger;
      }
      size := size + n;
      assert ptr[..size][..at] == ptr[..at];
    }

    /** std::copy into the buffer. */
    method Copy(text: string, at: nat)
      requires Valid() && at + |text| <= size
      modifies ptr
      ensures Contents() == Over(old(Contents()), at, text)
    {
      ghost var before := Contents();
      var i := 0;
      while i < |text|
        invariant 0 <= i <= |text|
        invariant ptr[..at] == before[..at] && ptr[at..at + i] == text[..i]
        invariant ptr[at + |text|..size] == before[at + |text|..]
      {
        ptr[at + i] := text[i];
        i := i + 1;
      }
      assert ptr[..size] == ptr[..at] + ptr[at..at + |text|] + ptr[at + |text|..size];
    }

    /** std::fill into the buffer. */
    method Fill(c: char, at: nat, n: nat)
      requires Valid() && at + n <= size
      modifies ptr
      ensures Contents() == Over(old(Contents()), at, Repeat(c, n))
    {
      Copy(Repeat(c, n), at);
    }

    /** Appends a text. */
    method Append(text: string)
      requires Valid()
      modifies this, ptr
      ensures Valid() && (ptr == old(ptr) || fresh(ptr))
      ensures Contents() == old(Contents()) + text
    {
      var at := GrowBuffer(|text|);
      Copy(text, at);
    }

    /** Puts prefix and fill in place around a gap for the digits; returns the place of the last
        digit. */
    method PrepareIntBuffer(digits: nat, spec: FormatSpec, prefix: string) returns (last: int)
      requires Valid()
      modifies this, ptr
      ensures Valid() && (ptr == old(ptr) || fresh(ptr))
      ensures Gapped(Contents(), old(Contents()), LeftText(digits, spec, prefix), digits,
                     RightText(digits, spec, prefix))
      ensures last == old(size) + |LeftText(digits, spec, prefix)| + digits - 1
      decreases spec.precision > digits, 1
    {
      hide *;
      if spec.precision > digits {
        last := PrepareWithPrecision(digits, spec, prefix);
      } else {
        last := PlaceNumber(digits, spec, prefix);
      }
    }

    /** A precision that pads: zeros up to the precision, then fill on one side only. */
    method PrepareWithPrecision(digits: nat, spec: FormatSpec, prefix: string) returns (last: int)
      requires Valid() && spec.precision > digits
      modifies this, ptr
      ensures Valid() && (ptr == old(ptr) || fresh(ptr))
      ensures Gapped(Contents(), old(Contents()), LeftText(digits, spec, prefix), digits,
                     RightText(digits, spec, prefix))
      ensures last == old(size) + |LeftText(digits, spec, prefix)| + digits - 1
      decreases true, 0
    {
      // the octal prefix counts as a digit
      var p := if prefix != "" && prefix[|prefix| - 1] == '0' then prefix[..|prefix| - 1] else prefix;
      var numberSize := |p| + spec.precision;
      var subspec := FormatSpec(numberSize, '0', AlignNumeric, false, false, false, false, -1, spec.kind);
      hide *;
      PreciseLayout(digits, spec, prefix, p, subspec);
      if numberSize >= spec.width {
        last := PrepareIntBuffer(digits, subspec, p);
        return;
      }
      var fillSize := spec.width - numberSize;
      if spec.align != AlignLeft {
        last := FillThenNumber(digits, subspec, p, Repeat(spec.fill, fillSize));
      } else {
        last := NumberThenFill(digits, subspec, p, Repeat(spec.fill, fillSize));
      }
    }

    /** The fill stands before the number, zeros included. */
    method FillThenNumber(digits: nat, spec: FormatSpec, p: string, fill: string) returns (last: int)
      requires Valid() && spec.precision <= digits && RightText(digits, spec, p) == ""
      modifies this, ptr
      ensures Valid() && (ptr == old(ptr) || fresh(ptr))
      ensures Gapped(Contents(), old(Contents()), fill + LeftText(digits, spec, p), digits, "")
      ensures last == old(size) + |fill| + |LeftText(digits, spec, p)| + digits - 1
      decreases false, 2
    {
      hide *;
      ghost var before := Contents();
      Append(fill);
      last := PrepareIntBuffer(digits, spec, p);
      Regroup(Contents(), before, fill, LeftText(digits, spec, p), digits, "");
    }

    /** The fill stands behind the number. */
    method NumberThenFill(digits: nat, spec: FormatSpec, p: string, fill: string) returns (last: int)
      requires Valid() && spec.precision <= digits && RightText(digits, spec, p) == ""
      modifies this, ptr
      ensures Valid() && (ptr == old(ptr) || fresh(ptr))
      ensures Gapped(Contents(), old(Contents()), LeftText(digits, spec, p), digits, fill)
      ensures last == old(size) + |LeftText(digits, spec, p)| + digits - 1
      decreases false, 2
    {
      hide *;
      ghost var before := Contents();
      last := PrepareIntBuffer(digits, spec, p);
      ghost var s := Contents();
      Append(fill);
      AppendKeeps(s, before, LeftText(digits, spec, p), digits, fill);
    }

    /** Splits the padding around the content; returns where the content starts. */
    method FillPadding(at: nat, total: nat, content: nat, fill: char) returns (start: nat)
      requires Valid() && content <= total && at + total <= size
      modifies ptr
      ensures start == at + (total - content) / 2
      ensures Contents() == Over(Over(old(Contents()), at, Repeat(fill, (total - content) / 2)),
                                 start + content, Repeat(fill, total - content - (total - content) / 2))
    {
      hide Over, Repeat;
      var padding := total - content;
      var left := padding / 2;
      Fill(fill, at, left);
      start := at + left;
      Fill(fill, start + content, padding - left);
    }

    /** The layout without padding zeros. */
    method PlaceNumber(digits: nat, spec: FormatSpec, prefix: string) returns (last: int)
      requires Valid() && spec.precision <= digits
      modifies this, ptr
      ensures Valid() && (ptr == old(ptr) || fresh(ptr))
      ensures Gapped(Contents(), old(Contents()), LeftText(digits, spec, prefix), digits,
                     RightText(digits, spec, prefix))
      ensures last == old(size) + |LeftText(digits, spec, prefix)| + digits - 1
    {
      hide *;
      var number := |prefix| + digits;
      var at := GrowBuffer(if spec.width <= number then number else spec.width);
      ghost var s := Contents();
      if spec.width <= number {
        Copy(prefix, at);
        OneBlock(s, at, prefix, digits);
        LayoutFull(digits, spec, prefix);
        last := at + number - 1;
      } else {
        last := PlaceInWidth(at, digits, spec, prefix);
      }
    }

    /** Distributes the padding in the `spec.width` places from `at`. */
    method PlaceInWidth(at: nat, digits: nat, spec: FormatSpec, prefix: string) returns (last: int)
      requires Valid() && spec.precision <= digits && |prefix| + digits < spec.width && size == at + spec.width
      modifies ptr
      ensures Gapped(Contents(), old(Contents())[..at], LeftText(digits, spec, prefix), digits,
                     RightText(digits, spec, prefix))
      ensures last == at + |LeftText(digits, spec, prefix)| + digits - 1
    {
      hide *;
      var number := |prefix| + digits;
      var end := at + spec.width;
      var pad := spec.width - number;
      ghost var s := Contents();
      if spec.align == AlignLeft {
        Copy(prefix, at);
        Fill(spec.fill, at + number, pad);
        TwoBlocks(s, at, prefix, digits, Repeat(spec.fill, pad));
        LayoutLeft(digits, spec, prefix, pad);
        last := at + number - 1;
      } else if spec.align == AlignCenter {
        var content := FillPadding(at, spec.width, number, spec.fill);
        Copy(prefix, content);
        Centered(s, at, Repeat(spec.fill, pad / 2), prefix, digits, Repeat(spec.fill, pad - pad / 2));
        LayoutCenter(digits, spec, prefix, pad);
        last := content + number - 1;
      } else if spec.align == AlignNumeric {
        Copy(prefix, at);
        Fill(spec.fill, at + |prefix|, pad);
        Adjacent(s, at, prefix, Repeat(spec.fill, pad));
        OneBlock(s, at, prefix + Repeat(spec.fill, pad), digits);
        LayoutNumeric(digits, spec, prefix, pad);
        last := end - 1;
      } else {
        Copy(prefix, end - number);
        Fill(spec.fill, at, pad);
        Adjacent(s, at, Repeat(spec.fill, pad), prefix);
        OneBlock(s, at, Repeat(spec.fill, pad) + prefix, digits);
        LayoutRight(digits, spec, prefix, pad);
        last := end - 1;
      }
    }

    // ----- writing integers -------------------------------------------------------------------------------

    method WriteUnsignedDecimal(value: nat, bits: Bits, prefixSize: nat) returns (at: nat)
      requires Valid() && value < Range(bits)
      modifies this, ptr
      ensures Valid() && (ptr == old(ptr) || fresh(ptr))
      ensures at == old(size) && at + prefixSize + |Decimal(value)| == size
      ensures Contents()[..at] == old(Contents()) && Contents()[at + prefixSize..] == Decimal(value)
    {
      hide *;
      var numDigits := CountDigits(value, bits);
      at := GrowBuffer(prefixSize + numDigits);
      ghost var s := Contents();
      PutDecimal(at + prefixSize, value);
      OverTail(s, at, prefixSize, Decimal(value));
    }

    /** A signed or unsigned integer, the minimum value included. */
    method WriteDecimal(value: int, bits: Bits)
      requires Valid() && Representable(value, bits)
      modifies this, ptr
      ensures Valid() && (ptr == old(ptr) || fresh(ptr))
      ensures Contents() == old(Contents()) + SignedText(value)
    {
      MagnitudeIsAbs(value, bits);
      SignedCases(value);
      hide Unsigned, Negated, Representable, SignedText, Abs, Decimal, Over;
      var magnitude := Unsigned(value, bits);
      if value < 0 {
        magnitude := Negated(magnitude, bits);
        var at := WriteUnsignedDecimal(magnitude, bits, 1);
        ghost var buffer := ptr[..];
        ptr[at] := '-';
        assert ptr[..] == buffer[..at] + "-" + buffer[at + 1..];
        OverPrefix(buffer, size, at, "-");
        SignInPlace(buffer[..size], at, Decimal(magnitude));
      } else {
        var at := WriteUnsignedDecimal(magnitude, bits, 0);
        Cut(Contents(), at);
      }
    }

    /** `format_decimal` at a place of the buffer. */
    method PutDecimal(at: nat, value: nat)
      requires Valid() && at + |Decimal(value)| <= size
      modifies ptr
      ensures Contents() == Over(old(Contents()), at, Decimal(value))
    {
      hide Decimal;
      ghost var buffer := ptr[..];
      FormatDecimal(ptr, at, value, |Decimal(value)|);
      OverPrefix(buffer, size, at, Decimal(value));
    }

    /** The digits of a power-of-two base, written from the last place backwards. */
    method PutDigits(last: int, value: nat, base: nat, digits: string, ghost upper: bool)
      requires Valid() && 2 <= base <= 16 && DigitTable(digits, base, upper)
      requires |Numeral(value, base, upper)| - 1 <= last < size
      modifies ptr
      ensures Contents() == Over(old(Contents()), last + 1 - |Numeral(value, base, upper)|,
                                 Numeral(value, base, upper))
    {
      hide Numeral, DigitTable, Over;
      ghost var before := ptr[..];
      DigitsBackwards(ptr, last, value, base, digits, upper);
      OverPrefix(before, size, last + 1 - |Numeral(value, base, upper)|, Numeral(value, base, upper));
    }

    /** Prefix, alignment, precision and digits of an integer; an unknown presentation type is an
        error and writes nothing. */
    method WriteInt(value: int, bits: Bits, spec: FormatSpec) returns (ok: bool)
      requires Valid() && Representable(value, bits)
      modifies this, ptr
      ensures Valid() && (ptr == old(ptr) || fresh(ptr))
      ensures ok == KnownType(spec.kind)
      ensures Contents() == old(Contents()) + if ok then IntegerText(value, spec) else ""
    {
      MagnitudeIsAbs(value, bits);
      var magnitude := Unsigned(value, bits);
      var prefix := "";
      if value < 0 {
        prefix := "-";
        magnitude := Negated(magnitude, bits);
      } else if spec.sign {
        prefix := if spec.plus then "+" else " ";
      }
      assert prefix == SignPrefix(value, spec);
      hide *;
      match spec.kind {
        case '\0' | 'd' =>
          DecimalCase(value, spec);
          WriteInDecimal(magnitude, bits, spec, prefix);
          ok := true;
        case 'x' | 'X' =>
          if spec.hash { prefix := prefix + ['0', spec.kind]; }
          HexCase(value, spec);
          HexTables();
          WriteInBase(magnitude, spec, prefix, 16, if spec.kind == 'x' then LOWER else UPPER, spec.kind == 'X');
          ok := true;
        case 'b' | 'B' =>
          if spec.hash { prefix := prefix + ['0', spec.kind]; }
          BinaryCase(value, spec);
          HexTables();
          WriteInBase(magnitude, spec, prefix, 2, LOWER, false);
          ok := true;
        case 'o' =>
          if spec.hash { prefix := prefix + ['0']; }
          OctalCase(value, spec);
          HexTables();
          WriteInBase(magnitude, spec, prefix, 8, LOWER, false);
          ok := true;
        case _ =>
          UnknownCase(spec.kind);
          ok := false;
          assert Contents() == old(Contents()) + "";
      }
    }

    method WriteInDecimal(magnitude: nat, bits: Bits, spec: FormatSpec, prefix: string)
      requires Valid() && magnitude < Range(bits)
      modifies this, ptr
      ensures Valid() && (ptr == old(ptr) || fresh(ptr))
      ensures Contents() == old(Contents()) + Laid(Decimal(magnitude), spec, prefix)
    {
      hide Numeral, Decimal, Range;
      var numDigits := CountDigits(magnitude, bits);
      ghost var left, right := LeftText(numDigits, spec, prefix), RightText(numDigits, spec, prefix);
      hide LeftText, RightText, Over, Gapped;
      ghost var before := Contents();
      var last := PrepareIntBuffer(numDigits, spec, prefix);
      hide Contents;
      Completed(Contents(), before, left, Decimal(magnitude), right);
      PutDecimal(last + 1 - numDigits, magnitude);
    }

    /** Counts the digits of a power-of-two base by shifting, then places and writes them. */
    method WriteInBase(magnitude: nat, spec: FormatSpec, prefix: string, base: nat, digits: string,
                       ghost upper: bool)
      requires Valid() && 2 <= base <= 16 && DigitTable(digits, base, upper)
      modifies this, ptr
      ensures Valid() && (ptr == old(ptr) || fresh(ptr))
      ensures Contents() == old(Contents()) + Laid(Numeral(magnitude, base, upper), spec, prefix)
    {
      hide Numeral, DigitTable;
      var numDigits := CountPlaces(magnitude, base, upper);
      ghost var left, right := LeftText(numDigits, spec, prefix), RightText(numDigits, spec, prefix);
      hide LeftText, RightText, Over, Gapped;
      ghost var before := Contents();
      var last := PrepareIntBuffer(numDigits, spec, prefix);
      hide Contents;
      Completed(Contents(), before, left, Numeral(magnitude, base, upper), right);
      PutDigits(last, magnitude, base, digits, upper);
    }
  }

  // ----- what is written ----------------------------------------------------------------------------------

  /** The unsigned word an integer is converted to. */
  datatype Bits = Bits32 | Bits64

  function Range(bits: Bits): int {
    if bits == Bits32 then TWO32 else TWO64
  }

  /** The values of the signed and the unsigned type of this width. */
  predicate Representable(value: int, bits: Bits) {
    -Range(bits) / 2 <= value < Range(bits)
  }

  function Unsigned(value: int, bits: Bits): nat {
    value % Range(bits)
  }

  function Negated(value: nat, bits: Bits): nat {
    (0 - value) % Range(bits)
  }

  function Abs(value: int): nat {
    if value < 0 then -value else value
  }

  /** Negating in the unsigned word gives the magnitude even of the minimum value. */
  lemma MagnitudeIsAbs(value: int, bits: Bits)
    requires Representable(value, bits)
    ensures (if value < 0 then Negated(Unsigned(value, bits), bits) else Unsigned(value, bits)) == Abs(value)
    ensures Abs(value) < Range(bits)
  {
    var r := Range(bits);
    if value < 0 {
      assert value % r == value + r;
      assert (0 - (value + r)) % r == -value;
    }
  }

  function SignedText(value: int): string {
    if value < 0 then "-" + Decimal(-value) else Decimal(value)
  }

  lemma SignedCases(value: int)
    ensures SignedText(value) == if value < 0 then "-" + Decimal(Abs(value)) else Decimal(Abs(value))
  {
  }

  /** Written integers are told apart by their text. */
  lemma SignedTextIsUnique(a: int, b: int)
    requires SignedText(a) == SignedText(b)
    ensures a == b
  {
    NumeralMeans(Abs(a), 10, false);
    NumeralMeans(Abs(b), 10, false);
    NumeralDigits(Abs(a), 10, false);
    NumeralDigits(Abs(b), 10, false);
    hide Numeral, Value;
    if a < 0 {
      assert SignedText(a)[1..] == Decimal(-a) && SignedText(a)[0] == '-';
      if b < 0 {
        assert SignedText(b)[1..] == Decimal(-b);
      }
    }
  }

  function CountDigits(value: nat, bits: Bits): (count: nat)
    requires value < Range(bits)
    ensures count == |Decimal(value)|
  {
    if bits == Bits32 then CountDigits32(value) else CountDigits64(value)
  }

  predicate KnownType(kind: char) {
    kind in {'\0', 'd', 'x', 'X', 'b', 'B', 'o'}
  }

  function SignPrefix(value: int, spec: FormatSpec): string {
    if value < 0 then "-" else if !spec.sign then "" else if spec.plus then "+" else " "
  }

  function BasePrefix(spec: FormatSpec): string {
    if !spec.hash || spec.kind in {'\0', 'd'} then "" else if spec.kind == 'o' then "0" else ['0', spec.kind]
  }

  function BaseOf(kind: char): (base: nat)
    requires KnownType(kind)
    ensures 2 <= base <= 16
  {
    if kind in {'\0', 'd'} then 10 else if kind in {'x', 'X'} then 16 else if kind in {'b', 'B'} then 2 else 8
  }

  function Laid(digits: string, spec: FormatSpec, prefix: string): string {
    LeftText(|digits|, spec, prefix) + digits + RightText(|digits|, spec, prefix)
  }

  function IntegerText(value: int, spec: FormatSpec): string
    requires KnownType(spec.kind)
  {
    Laid(Numeral(Abs(value), BaseOf(spec.kind), spec.kind == 'X'), spec, SignPrefix(value, spec) + BasePrefix(spec))
  }

  lemma DecimalCase(value: int, spec: FormatSpec)
    requires spec.kind in {'\0', 'd'}
    ensures KnownType(spec.kind)
    ensures IntegerText(value, spec) == Laid(Decimal(Abs(value)), spec, SignPrefix(value, spec))
  {
    hide Numeral, LeftText, RightText;
    assert SignPrefix(value, spec) + "" == SignPrefix(value, spec);
  }

  lemma HexCase(value: int, spec: FormatSpec)
    requires spec.kind in {'x', 'X'}
    ensures KnownType(spec.kind)
    ensures IntegerText(value, spec) ==
            Laid(Numeral(Abs(value), 16, spec.kind == 'X'), spec,
                 if spec.hash then SignPrefix(value, spec) + ['0', spec.kind] else SignPrefix(value, spec))
  {
    assert SignPrefix(value, spec) + "" == SignPrefix(value, spec);
  }

  lemma BinaryCase(value: int, spec: FormatSpec)
    requires spec.kind in {'b', 'B'}
    ensures KnownType(spec.kind)
    ensures IntegerText(value, spec) ==
            Laid(Numeral(Abs(value), 2, false), spec,
                 if spec.hash then SignPrefix(value, spec) + ['0', spec.kind] else SignPrefix(value, spec))
  {
    assert SignPrefix(value, spec) + "" == SignPrefix(value, spec);
  }

  lemma OctalCase(value: int, spec: FormatSpec)
    requires spec.kind == 'o'
    ensures KnownType(spec.kind)
    ensures IntegerText(value, spec) ==
            Laid(Numeral(Abs(value), 8, false), spec,
                 if spec.hash then SignPrefix(value, spec) + ['0'] else SignPrefix(value, spec))
  {
    assert SignPrefix(value, spec) + "" == SignPrefix(value, spec);
  }

  lemma UnknownCase(kind: char)
    requires kind != '\0' && kind != 'd' && kind != 'x' && kind != 'X' && kind != 'b' && kind != 'B' && kind != 'o'
    ensures !KnownType(kind)
  {
  }

  const LOWER := "0123456789abcdef"
  const UPPER := "0123456789ABCDEF"

  predicate DigitTable(digits: string, base: nat, upper: bool)
    requires base <= 16
  {
    base <= |digits| && forall d: nat :: d < base ==> digits[d] == DigitChar(d, upper)
  }

  lemma HexTables()
    ensures DigitTable(LOWER, 16, false) && DigitTable(UPPER, 16, true)
    ensures DigitTable(LOWER, 2, false) && DigitTable(LOWER, 8, false)
  {
  }

  lemma TableEntry(digits: string, base: nat, upper: bool, d: nat)
    requires d < base <= 16 && DigitTable(digits, base, upper)
    ensures d < |digits| && digits[d] == DigitChar(d, upper)
  {
  }

  /** The digit loop: fills the places that end at `last`. */
  method DigitsBackwards(buffer: array<char>, last: int, value: nat, base: nat, digits: string, ghost upper: bool)
    requires 2 <= base <= 16 && DigitTable(digits, base, upper)
    requires |Numeral(value, base, upper)| - 1 <= last < buffer.Length
    modifies buffer
    ensures var start := last + 1 - |Numeral(value, base, upper)|;
            buffer[..] == old(buffer[..start]) + Numeral(value, base, upper) + old(buffer[last + 1..])
  {
    hide *;
    ghost var before, written := buffer[..], "";
    ghost var start := last + 1 - |Numeral(value, base, upper)|;
    var n: nat, p := value, last;
    Spliced(before, last + 1, "", last + 1, last + 1, "");
    while true
      invariant start <= p <= last && p == start + |Numeral(n, base, upper)| - 1
      invariant buffer[..] == Spread(before, p + 1, written, last + 1) && p + 1 + |written| == last + 1
      invariant Numeral(n, base, upper) + written == Numeral(value, base, upper)
      decreases n
    {
      DigitFirst(n, base, digits, upper, written);
      var digit := digits[n % base];
      ghost var s := buffer[..];
      buffer[p] := digit;
      assert buffer[..] == s[..p] + [digit] + s[p + 1..];
      Spliced(before, p + 1, written, last + 1, p, [digit]);
      written := [digit] + written;
      p := p - 1;
      if n / base == 0 { break; }
      n := n / base;
    }
    SpreadIs(before, start, Numeral(value, base, upper), last + 1);
  }

  /** One digit more in front of what is written. */
  lemma DigitFirst(n: nat, base: nat, digits: string, upper: bool, written: string)
    requires 2 <= base <= 16 && DigitTable(digits, base, upper)
    ensures 0 <= n % base < |digits| && 0 <= n / base
    ensures n / base == 0 ==> Numeral(n, base, upper) == [digits[n % base]]
    ensures n / base > 0 ==>
              && n / base < n && |Numeral(n, base, upper)| == |Numeral(n / base, base, upper)| + 1
              && Numeral(n / base, base, upper) + ([digits[n % base]] + written) == Numeral(n, base, upper) + written
  {
    hide *;
    Quotient(n, base);
    NumeralUnfolds(n, base, upper);
    TableEntry(digits, base, upper, n % base);
  }

  lemma Quotient(n: nat, base: nat)
    requires base > 1
    ensures 0 <= n / base && 0 <= n % base < base
    ensures n / base == 0 ==> n < base && n % base == n
    ensures n / base > 0 ==> base <= n && n / base < n
  {
    DivMod(n, base);
    QuotientBounds(n, base, n / base, n % base);
  }

  lemma QuotientBounds(n: int, base: int, q: int, r: int)
    requires n == q * base + r && 0 <= r < base && base > 1
    ensures q == 0 ==> n == r
    ensures q > 0 ==> base <= n && q < n
  {
    if q > 0 {
      assert q * base == q + q * (base - 1) == base + (q - 1) * base;
    }
  }

  /** The do-while count of digits in a power-of-two base. */
  method CountPlaces(value: nat, base: nat, ghost upper: bool) returns (count: nat)
    requires 2 <= base <= 16
    ensures count == |Numeral(value, base, upper)|
  {
    hide *;
    var n: nat := value;
    count := 0;
    while true
      invariant count + |Numeral(n, base, upper)| == |Numeral(value, base, upper)|
      decreases n
    {
      NumeralUnfolds(n, base, upper);
      count := count + 1;
      Quotient(n, base);
      if n / base == 0 { return; }
      n := n / base;
    }
  }

  // ----- writing over parts of a text ---------------------------------------------------------------------

  function Over(s: string, at: nat, text: string): (t: string)
    requires at + |text| <= |s|
    ensures |t| == |s|
  {
    s[..at] + text + s[at + |text|..]
  }

  /** `left` and `right` are in place after `before`, around a gap for the digits. */
  ghost predicate Gapped(s: string, before: string, left: string, digits: nat, right: string) {
    && |s| == |before| + |left| + digits + |right|
    && s[..|before| + |left|] == before + left
    && s[|before| + |left| + digits..] == right
  }

  lemma OneBlock(s: string, at: nat, text: string, digits: nat)
    requires at + |text| + digits == |s|
    ensures Gapped(Over(s, at, text), s[..at], text, digits, "")
  {
  }

  lemma TwoBlocks(s: string, at: nat, left: string, digits: nat, right: string)
    requires at + |left| + digits + |right| == |s|
    ensures Gapped(Over(Over(s, at, left), at + |left| + digits, right), s[..at], left, digits, right)
  {
  }

  lemma Adjacent(s: string, at: nat, x: string, y: string)
    requires at + |x| + |y| <= |s|
    ensures Over(Over(s, at, x), at + |x|, y) == Over(s, at, x + y)
    ensures Over(Over(s, at + |x|, y), at, x) == Over(s, at, x + y)
  {
  }

  lemma Apart(s: string, a: nat, x: string, b: nat, y: string)
    requires a + |x| <= b && b + |y| <= |s|
    ensures Over(Over(s, a, x), b, y) == Over(Over(s, b, y), a, x)
  {
  }

  lemma Centered(s: string, at: nat, x: string, prefix: string, digits: nat, y: string)
    requires at + |x| + |prefix| + digits + |y| == |s|
    ensures Gapped(Over(Over(Over(s, at, x), at + |x| + |prefix| + digits, y), at + |x|, prefix),
                   s[..at], x + prefix, digits, y)
  {
    hide *;
    Apart(Over(s, at, x), at + |x|, prefix, at + |x| + |prefix| + digits, y);
    Adjacent(s, at, x, prefix);
    TwoBlocks(s, at, x + prefix, digits, y);
  }

  /** Digits in the gap complete the number. */
  lemma Completed(s: string, before: string, left: string, digits: string, right: string)
    requires Gapped(s, before, left, |digits|, right)
    ensures Over(s, |before| + |left|, digits) == before + (left + digits + right)
  {
  }

  lemma OverTail(s: string, at: nat, gap: nat, text: string)
    requires at + gap + |text| == |s|
    ensures Over(s, at + gap, text)[..at] == s[..at] && Over(s, at + gap, text)[at + gap..] == text
  {
  }

  lemma SignInPlace(s: string, at: nat, digits: string)
    requires at < |s| && s[at + 1..] == digits
    ensures Over(s, at, "-") == s[..at] + ("-" + digits)
  {
  }

  lemma Cut(s: string, at: nat)
    requires at <= |s|
    ensures s == s[..at] + s[at..]
  {
  }

  lemma OverPrefix(buffer: string, size: nat, at: nat, text: string)
    requires at + |text| <= size <= |buffer|
    ensures Over(buffer[..size], at, text) == (buffer[..at] + text + buffer[at + |text|..])[..size]
  {
  }

  lemma Regroup(s: string, before: string, f: string, l: string, digits: nat, right: string)
    requires Gapped(s, before + f, l, digits, right)
    ensures Gapped(s, before, f + l, digits, right)
  {
    assert before + f + l == before + (f + l);
  }

  lemma AppendKeeps(s: string, before: string, left: string, digits: nat, tail: string)
    requires Gapped(s, before, left, digits, "")
    ensures Gapped(s + tail, before, left, digits, tail)
  {
  }

  /** The layout functions when no precision pads. */
  lemma LayoutFull(digits: nat, spec: FormatSpec, prefix: string)
    requires spec.precision <= digits && spec.width <= |prefix| + digits
    ensures LeftText(digits, spec, prefix) == prefix && RightText(digits, spec, prefix) == ""
  {
    assert prefix + "" == prefix;
  }

  lemma LayoutLeft(digits: nat, spec: FormatSpec, prefix: string, pad: nat)
    requires spec.precision <= digits && |prefix| + digits + pad == spec.width && pad > 0
    requires spec.align == AlignLeft
    ensures LeftText(digits, spec, prefix) == prefix && RightText(digits, spec, prefix) == Repeat(spec.fill, pad)
  {
    assert prefix + "" == prefix;
  }

  lemma LayoutCenter(digits: nat, spec: FormatSpec, prefix: string, pad: nat)
    requires spec.precision <= digits && |prefix| + digits + pad == spec.width && pad > 0
    requires spec.align == AlignCenter
    ensures LeftText(digits, spec, prefix) == Repeat(spec.fill, pad / 2) + prefix
    ensures RightText(digits, spec, prefix) == Repeat(spec.fill, pad - pad / 2)
  {
  }

  lemma LayoutNumeric(digits: nat, spec: FormatSpec, prefix: string, pad: nat)
    requires spec.precision <= digits && |prefix| + digits + pad == spec.width && pad > 0
    requires spec.align == AlignNumeric
    ensures LeftText(digits, spec, prefix) == prefix + Repeat(spec.fill, pad) && RightText(digits, spec, prefix) == ""
  {
  }

  lemma LayoutRight(digits: nat, spec: FormatSpec, prefix: string, pad: nat)
    requires spec.precision <= digits && |prefix| + digits + pad == spec.width && pad > 0
    requires spec.align in {AlignDefault, AlignRight}
    ensures LeftText(digits, spec, prefix) == Repeat(spec.fill, pad) + prefix && RightText(digits, spec, prefix) == ""
  {
  }

  /** With padding zeros, the number is laid out as if they were a numeric fill. */
  lemma PreciseLayout(digits: nat, spec: FormatSpec, prefix: string, p: string, sub: FormatSpec)
    requires spec.precision > digits
    requires p == if prefix != "" && prefix[|prefix| - 1] == '0' then prefix[..|prefix| - 1] else prefix
    requires sub == FormatSpec(|p| + spec.precision, '0', AlignNumeric, false, false, false, false, -1, spec.kind)
    ensures RightText(digits, sub, p) == ""
    ensures
      var pad := if spec.width > sub.width then spec.width - sub.width else 0;
      var left := LeftText(digits, sub, p);
      && LeftText(digits, spec, prefix) ==
         (if pad == 0 || spec.align == AlignLeft then left else Repeat(spec.fill, pad) + left)
      && RightText(digits, spec, prefix) == (if spec.align == AlignLeft then Repeat(spec.fill, pad) else "")
      && Repeat(spec.fill, 0) == ""
  {
    var left := p + Zeros(digits, spec);
    assert PrefixUsed(digits, sub, p) == p;
    assert LeftText(digits, sub, p) == left;
    var pad := Padding(digits, spec, prefix);
    assert Repeat(spec.fill, pad) + p + Zeros(digits, spec) == Repeat(spec.fill, pad) + left;
  }
}
