/** What written integers say: the layout of every specification in literal terms, and the value read
    back from the text. */
module IntegerMeaning {
  import opened Numerals
  import opened IntegerWriter

  // ----- sign, base and digits ----------------------------------------------------------------------------

  /** A negative value has a minus; others have what the sign flag asks for. */
  ghost predicate SignIs(sign: string, value: int, spec: FormatSpec) {
    || (sign == "-" && value < 0)
    || (sign == "+" && value >= 0 && spec.sign && spec.plus)
    || (sign == " " && value >= 0 && spec.sign && !spec.plus)
    || (sign == "" && value >= 0 && !spec.sign)
  }

  /** The hash flag marks the base, unless padding zeros take the place of the octal mark. */
  ghost predicate MarkIs(mark: string, spec: FormatSpec, precise: bool) {
    || (mark == "" && (!spec.hash || spec.kind == 'd' || spec.kind == '\0' || (spec.kind == 'o' && precise)))
    || (mark == "0" && spec.hash && spec.kind == 'o' && !precise)
    || (mark == "0x" && spec.hash && spec.kind == 'x')
    || (mark == "0X" && spec.hash && spec.kind == 'X')
    || (mark == "0b" && spec.hash && spec.kind == 'b')
    || (mark == "0B" && spec.hash && spec.kind == 'B')
  }

  ghost predicate IsBase(base: nat, kind: char) {
    || (base == 2 && (kind == 'b' || kind == 'B'))
    || (base == 8 && kind == 'o')
    || (base == 10 && (kind == 'd' || kind == '\0'))
    || (base == 16 && (kind == 'x' || kind == 'X'))
  }

  /** The numeral of `n`: its digits are small letters, or all capital, and a zero leads only if it is
      alone. */
  ghost predicate IsNumeral(digits: string, n: nat, base: nat, upper: bool) {
    && digits != "" && AllDigits(digits, base) && Spelled(digits, upper)
    && Value(digits, base) == n
    && (|digits| > 1 ==> digits[0] != '0')
  }

  lemma NumeralIs(n: nat, base: nat, upper: bool)
    requires 2 <= base <= 16
    ensures IsNumeral(Numeral(n, base, upper), n, base, upper)
  {
    hide Value, Spelled, AllDigits;
    NumeralIsSpelled(n, base, upper);
    NumeralMeans(n, base, upper);
    NumeralDigits(n, base, upper);
  }

  lemma {:induction false} NumeralIsOnly(s: string, n: nat, base: nat, upper: bool)
    requires 2 <= base <= 16 && IsNumeral(s, n, base, upper)
    ensures s == Numeral(n, base, upper)
  {
    var t, c := s[..|s| - 1], s[|s| - 1];
    assert s == t + [c];
    var q, d := Value(t, base), DigitValue(c);
    assert n == q * base + d && 0 <= d < base;
    DigitIsOnly(c, upper);
    NumeralUnfolds(n, base, upper);
    hide Numeral, DigitChar, DigitValue;
    if t != "" {
      NotNegative(t, base);
      hide Value;
      NumeralIsOnly(t, q, base, upper);
      if q == 0 {
        NumeralUnfolds(0, base, upper);
        ZeroIs(upper);
        assert false;
      }
      Divided(n, q, d, base);
    } else {
      assert n == d;
    }
  }

  lemma ZeroIs(upper: bool)
    ensures DigitChar(0, upper) == '0'
  {
  }

  lemma Divided(n: nat, q: nat, d: nat, base: nat)
    requires n == q * base + d && d < base && q > 0
    ensures n >= base && n / base == q && n % base == d
  {
    var q', d' := n / base, n % base;
    DivMod(n, base);
    DigitsAgree(q, d, q', d', base);
    assert q * base >= base by { AtLeastOnce(q, base); }
  }

  lemma DigitsAgree(q: int, d: int, q': int, d': int, base: int)
    requires 0 <= d < base && 0 <= d' < base && q * base + d == q' * base + d'
    ensures q == q' && d == d'
  {
    if q > q' {
      AtLeastOnce(q - q', base);
      Difference(q, q', base);
    } else if q < q' {
      AtLeastOnce(q' - q, base);
      Difference(q', q, base);
    }
  }

  lemma Difference(a: int, b: int, c: int)
    ensures (a - b) * c == a * c - b * c
  {
  }

  lemma AtLeastOnce(q: nat, base: nat)
    requires q > 0
    ensures q * base >= base
  {
  }

  lemma DigitIsOnly(c: char, upper: bool)
    requires Spelled([c], upper)
    ensures 0 <= DigitValue(c) < 16 && c == DigitChar(DigitValue(c), upper)
  {
    assert [c][0] == c;
  }

  lemma {:induction false} NotNegative(s: string, base: nat)
    requires AllDigits(s, base)
    ensures Value(s, base) >= 0
  {
    if s != "" {
      var front := s[..|s| - 1];
      NotNegative(front, base);
      NotNegativeProduct(Value(front, base), base);
    }
  }

  lemma NotNegativeProduct(v: int, base: nat)
    requires v >= 0
    ensures v * base >= 0
  {
  }

  // ----- layout -------------------------------------------------------------------------------------------

  /** A text of the given parts, where `p` is the sign with the base mark and `left`, `middle` and `right`
      are the numbers of padding characters around it and the digits. */
  ghost predicate Parts(text: string, left: nat, p: string, middle: nat, digits: string, right: nat,
                        spec: FormatSpec) {
    var zero := if spec.precision > |digits| then '0' else spec.fill;
    text == Repeat(spec.fill, left) + p + Repeat(zero, middle) + digits + Repeat(spec.fill, right)
  }

  /** How much padding there is and where it stands. */
  ghost predicate Sized(left: nat, p: string, middle: nat, digits: string, right: nat, spec: FormatSpec) {
    var precise := spec.precision > |digits|;
    && left + |p| + middle + |digits| + right == Max(spec.width, |p| + Max(spec.precision, |digits|))
    && (precise ==> middle == spec.precision - |digits|)
    && (!precise && spec.align != AlignNumeric ==> middle == 0)
    && (!precise && spec.align == AlignNumeric ==> left == 0)
    && (spec.align == AlignLeft ==> left == 0)
    && (!precise && spec.align == AlignCenter ==> left <= right <= left + 1)
    && (spec.align != AlignLeft && (precise || spec.align != AlignCenter) ==> right == 0)
  }

  ghost predicate LaidOut(text: string, p: string, digits: string, spec: FormatSpec) {
    exists left: nat, middle: nat, right: nat ::
      Parts(text, left, p, middle, digits, right, spec) && Sized(left, p, middle, digits, right, spec)
  }

  lemma MarkUsed(value: int, spec: FormatSpec, digits: nat)
    requires KnownType(spec.kind)
    ensures exists sign: string, mark: string ::
              && SignIs(sign, value, spec) && MarkIs(mark, spec, spec.precision > digits)
              && PrefixUsed(digits, spec, SignPrefix(value, spec) + BasePrefix(spec)) == sign + mark
  {
    var sign, mark := SignPrefix(value, spec), BasePrefix(spec);
    assert SignIs(sign, value, spec);
    if spec.precision > digits && mark == "0" {
      assert (sign + "0")[..|sign|] == sign + "";
      assert MarkIs("", spec, true);
    } else {
      assert MarkIs(mark, spec, spec.precision > digits);
      assert mark == "" ==> sign + mark == sign;
      assert mark != "" ==> (sign + mark)[|sign + mark| - 1] == mark[|mark| - 1];
    }
  }

  lemma LaidIsLaidOut(digits: string, spec: FormatSpec, prefix: string)
    ensures LaidOut(Laid(digits, spec, prefix), PrefixUsed(|digits|, spec, prefix), digits, spec)
  {
    var p := PrefixUsed(|digits|, spec, prefix);
    var left, middle, right := SidesOf(digits, spec, prefix);
    var text := Laid(digits, spec, prefix);
    assert text == LeftText(|digits|, spec, prefix) + digits + RightText(|digits|, spec, prefix);
    hide LeftText, RightText, Repeat, PrefixUsed, Laid, Sized;
    assert Parts(text, left, p, middle, digits, right, spec);
  }

  lemma SidesOf(digits: string, spec: FormatSpec, prefix: string) returns (left: nat, middle: nat, right: nat)
    ensures var p := PrefixUsed(|digits|, spec, prefix);
            var zero := if spec.precision > |digits| then '0' else spec.fill;
            && LeftText(|digits|, spec, prefix) == Repeat(spec.fill, left) + p + Repeat(zero, middle)
            && RightText(|digits|, spec, prefix) == Repeat(spec.fill, right)
            && Sized(left, p, middle, digits, right, spec)
  {
    var n := |digits|;
    var p, pad := PrefixUsed(n, spec, prefix), Padding(n, spec, prefix);
    Empty(spec.fill, p);
    Empty('0', p);
    left, middle, right := 0, 0, 0;
    if Precise(n, spec) {
      middle := spec.precision - n;
      if spec.align == AlignLeft {
        right := pad;
      } else {
        left := pad;
      }
      PreciseSides(n, spec, prefix, left, middle, right);
    } else {
      if spec.align == AlignLeft {
        right := pad;
      } else if spec.align == AlignCenter {
        left, right := pad / 2, pad - pad / 2;
      } else if spec.align == AlignNumeric {
        middle := pad;
      } else {
        left := pad;
      }
      PlainSides(n, spec, prefix, left, middle, right);
    }
    hide LeftText, RightText, Repeat, PrefixUsed;
  }

  lemma PreciseSides(n: nat, spec: FormatSpec, prefix: string, left: nat, middle: nat, right: nat)
    requires Precise(n, spec) && middle == spec.precision - n
    requires var pad := Padding(n, spec, prefix);
             if spec.align == AlignLeft then left == 0 && right == pad else left == pad && right == 0
    ensures LeftText(n, spec, prefix) == Repeat(spec.fill, left) + PrefixUsed(n, spec, prefix) + Repeat('0', middle)
    ensures RightText(n, spec, prefix) == Repeat(spec.fill, right)
  {
    Empty(spec.fill, PrefixUsed(n, spec, prefix));
    hide PrefixUsed, Padding;
  }

  lemma PlainSides(n: nat, spec: FormatSpec, prefix: string, left: nat, middle: nat, right: nat)
    requires !Precise(n, spec)
    requires var pad := Padding(n, spec, prefix);
             match spec.align
             case AlignLeft => left == middle == 0 && right == pad
             case AlignCenter => left == pad / 2 && middle == 0 && right == pad - pad / 2
             case AlignNumeric => left == right == 0 && middle == pad
             case _ => left == pad && middle == right == 0
    ensures LeftText(n, spec, prefix) ==
            Repeat(spec.fill, left) + PrefixUsed(n, spec, prefix) + Repeat(spec.fill, middle)
    ensures RightText(n, spec, prefix) == Repeat(spec.fill, right)
  {
    var p := PrefixUsed(n, spec, prefix);
    Empty(spec.fill, p);
    Empty(spec.fill, Repeat(spec.fill, left) + p);
    hide PrefixUsed, Padding, Repeat;
  }

  lemma Empty(c: char, p: string)
    ensures Repeat(c, 0) == "" && "" + p == p && p + "" == p
  {
  }

  /** Parts and sizes leave only one text. */
  lemma LaidOutOnce(text: string, text': string, p: string, digits: string, spec: FormatSpec)
    requires LaidOut(text, p, digits, spec) && LaidOut(text', p, digits, spec)
    ensures text == text'
  {
    var left: nat, middle: nat, right: nat :|
      Parts(text, left, p, middle, digits, right, spec) && Sized(left, p, middle, digits, right, spec);
    var left': nat, middle': nat, right': nat :|
      Parts(text', left', p, middle', digits, right', spec) && Sized(left', p, middle', digits, right', spec);
    hide Parts;
    assert left == left' && middle == middle' && right == right';
    hide Sized;
    SameParts(text, text', left, p, middle, digits, right, spec);
  }

  lemma SameParts(text: string, text': string, left: nat, p: string, middle: nat, digits: string, right: nat,
                  spec: FormatSpec)
    requires Parts(text, left, p, middle, digits, right, spec) && Parts(text', left, p, middle, digits, right, spec)
    ensures text == text'
  {
  }

  // ----- written integers ---------------------------------------------------------------------------------

  ghost predicate WrittenFrom(text: string, sign: string, mark: string, base: nat, digits: string, value: int,
                              spec: FormatSpec) {
    && SignIs(sign, value, spec) && IsBase(base, spec.kind)
    && IsNumeral(digits, if value < 0 then -value else value, base, spec.kind == 'X')
    && MarkIs(mark, spec, spec.precision > |digits|)
    && LaidOut(text, sign + mark, digits, spec)
  }

  /** `text` is the value as the specification wants it: sign, mark of the base and digits, laid out by
      precision, width, fill and alignment. */
  ghost predicate IsWritten(text: string, value: int, spec: FormatSpec) {
    exists sign: string, mark: string, base: nat, digits: string ::
      WrittenFrom(text, sign, mark, base, digits, value, spec)
  }

  /** The text written for an integer is the one its specification describes. */
  lemma WrittenIff(text: string, value: int, spec: FormatSpec)
    requires KnownType(spec.kind)
    ensures text == IntegerText(value, spec) <==> IsWritten(text, value, spec)
  {
    WrittenText(value, spec);
    if IsWritten(text, value, spec) {
      WrittenOnce(text, IntegerText(value, spec), value, spec);
    }
  }

  lemma WrittenText(value: int, spec: FormatSpec)
    requires KnownType(spec.kind)
    ensures IsWritten(IntegerText(value, spec), value, spec)
  {
    var base, upper := BaseOf(spec.kind), spec.kind == 'X';
    var digits := Numeral(Abs(value), base, upper);
    var prefix := SignPrefix(value, spec) + BasePrefix(spec);
    hide *;
    TextIsLaid(value, spec);
    NumeralIs(Abs(value), base, upper);
    MarkUsed(value, spec, |digits|);
    var sign: string, mark: string :|
      && SignIs(sign, value, spec) && MarkIs(mark, spec, spec.precision > |digits|)
      && PrefixUsed(|digits|, spec, prefix) == sign + mark;
    LaidIsLaidOut(digits, spec, prefix);
    BaseIs(spec.kind);
    AbsIs(value);
    Assembled(IntegerText(value, spec), sign, mark, base, digits, value, spec);
  }

  lemma Assembled(text: string, sign: string, mark: string, base: nat, digits: string, value: int, spec: FormatSpec)
    requires SignIs(sign, value, spec) && IsBase(base, spec.kind)
    requires IsNumeral(digits, if value < 0 then -value else value, base, spec.kind == 'X')
    requires MarkIs(mark, spec, spec.precision > |digits|) && LaidOut(text, sign + mark, digits, spec)
    ensures IsWritten(text, value, spec)
  {
    assert WrittenFrom(text, sign, mark, base, digits, value, spec);
  }

  lemma TextIsLaid(value: int, spec: FormatSpec)
    requires KnownType(spec.kind)
    ensures IntegerText(value, spec) ==
            Laid(Numeral(Abs(value), BaseOf(spec.kind), spec.kind == 'X'), spec,
                 SignPrefix(value, spec) + BasePrefix(spec))
  {
  }

  lemma BaseIs(kind: char)
    requires KnownType(kind)
    ensures IsBase(BaseOf(kind), kind)
  {
  }

  lemma AbsIs(value: int)
    ensures Abs(value) == if value < 0 then -value else value
  {
  }

  lemma WrittenOnce(text: string, text': string, value: int, spec: FormatSpec)
    requires IsWritten(text, value, spec) && IsWritten(text', value, spec)
    ensures text == text'
  {
    var sign: string, mark: string, base: nat, digits: string :|
      WrittenFrom(text, sign, mark, base, digits, value, spec);
    var sign': string, mark': string, base': nat, digits': string :|
      WrittenFrom(text', sign', mark', base', digits', value, spec);
    hide *;
    SameDigits(text, sign, mark, base, digits, text', sign', mark', base', digits', value, spec);
    LaidOutOnce(text, text', sign + mark, digits, spec);
  }

  lemma SameDigits(text: string, sign: string, mark: string, base: nat, digits: string, text': string, sign': string,
                   mark': string, base': nat, digits': string, value: int, spec: FormatSpec)
    requires WrittenFrom(text, sign, mark, base, digits, value, spec)
    requires WrittenFrom(text', sign', mark', base', digits', value, spec)
    ensures digits == digits' && sign == sign' && mark == mark'
    ensures LaidOut(text, sign + mark, digits, spec) && LaidOut(text', sign + mark, digits, spec)
  {
    var n := if value < 0 then -value else value;
    assert base == base' && sign == sign' && 2 <= base <= 16;
    hide LaidOut, IsNumeral;
    NumeralIsOnly(digits, n, base, spec.kind == 'X');
    NumeralIsOnly(digits', n, base, spec.kind == 'X');
    assert mark == mark';
  }

  /** With nothing asked for, an integer is written as its sign and its digits. */
  lemma PlainIsSigned(value: int, spec: FormatSpec)
    requires spec.kind == '\0' || spec.kind == 'd'
    requires !spec.sign && spec.width == 0 && spec.precision == -1
    ensures IntegerText(value, spec) == SignedText(value)
  {
    var digits, p := Decimal(Abs(value)), if value < 0 then "-" else "";
    DecimalCase(value, spec);
    assert SignPrefix(value, spec) == p;
    hide Numeral, SignPrefix;
    LayoutFull(|digits|, spec, p);
    assert Laid(digits, spec, p) == p + digits + "";
    SignedCases(value);
    assert p + digits + "" == p + digits && "" + digits == digits;
  }

  // ----- reading back -------------------------------------------------------------------------------------

  predicate IsDigitOf(c: char, base: nat) {
    0 <= DigitValue(c) < base
  }

  /** The digits of a text, whatever else stands between them. */
  function DigitsOf(s: string, base: nat): string {
    if s == "" then ""
    else DigitsOf(s[..|s| - 1], base) + if IsDigitOf(s[|s| - 1], base) then [s[|s| - 1]] else ""
  }

  lemma {:induction false} DigitsOfAppend(a: string, b: string, base: nat)
    ensures DigitsOf(a + b, base) == DigitsOf(a, base) + DigitsOf(b, base)
  {
    if b == "" {
      assert a + b == a;
    } else {
      DigitsOfAppend(a, b[..|b| - 1], base);
      assert (a + b)[..|a + b| - 1] == a + b[..|b| - 1];
    }
  }

  lemma {:induction false} NoDigits(s: string, base: nat)
    requires forall k :: 0 <= k < |s| ==> !IsDigitOf(s[k], base)
    ensures DigitsOf(s, base) == ""
  {
    if s != "" {
      NoDigits(s[..|s| - 1], base);
    }
  }

  lemma {:induction false} OnlyDigits(s: string, base: nat)
    requires AllDigits(s, base)
    ensures DigitsOf(s, base) == s
  {
    if s != "" {
      OnlyDigits(s[..|s| - 1], base);
      assert s == s[..|s| - 1] + [s[|s| - 1]];
    }
  }

  /** Zeros in front do not count. */
  lemma {:induction false} LeadingZeros(z: string, s: string, base: nat)
    requires Only(z, '0')
    ensures Value(z + s, base) == Value(s, base)
  {
    if s == "" {
      assert z + s == z;
      if z != "" {
        LeadingZeros(z[..|z| - 1], s, base);
        assert z[..|z| - 1] + s == z[..|z| - 1];
      }
    } else {
      LeadingZeros(z, s[..|s| - 1], base);
      assert (z + s)[..|z + s| - 1] == z + s[..|s| - 1];
    }
  }

  /** The characters before the digits add no more than zeros in front, those behind nothing. */
  ghost predicate FillFits(spec: FormatSpec, base: nat) {
    && spec.fill != '-'
    && (IsDigitOf(spec.fill, base) ==> spec.fill == '0' && spec.align != AlignLeft && spec.align != AlignCenter)
  }

  lemma FillAddsZeros(c: char, n: nat, base: nat)
    requires IsDigitOf(c, base) ==> c == '0'
    ensures Only(DigitsOf(Repeat(c, n), base), '0')
    ensures !IsDigitOf(c, base) ==> DigitsOf(Repeat(c, n), base) == ""
  {
    if IsDigitOf(c, base) {
      OnlyDigits(Repeat(c, n), base);
    } else {
      NoDigits(Repeat(c, n), base);
    }
  }

  lemma SignAddsNothing(sign: string, base: nat, value: int, spec: FormatSpec)
    requires SignIs(sign, value, spec)
    ensures DigitsOf(sign, base) == "" && ('-' in sign <==> value < 0)
  {
    NoDigits(sign, base);
  }

  lemma MarkAddsZero(mark: string, base: nat, spec: FormatSpec, precise: bool)
    requires MarkIs(mark, spec, precise) && IsBase(base, spec.kind)
    ensures Only(DigitsOf(mark, base), '0') && '-' !in mark
  {
    if mark != "" {
      assert mark[0] == '0' && (|mark| == 2 ==> !IsDigitOf(mark[1], base));
      assert mark == [mark[0]] + mark[1..];
      hide MarkIs, IsBase;
      DigitsOfAppend([mark[0]], mark[1..], base);
      NoDigits(mark[1..], base);
    }
  }

  /** Zeros, then the digits, then nothing. */
  lemma AroundDigits(a: string, p: string, z: string, digits: string, b: string, base: nat)
    requires Only(DigitsOf(a, base), '0') && Only(DigitsOf(p, base), '0') && Only(DigitsOf(z, base), '0')
    requires AllDigits(digits, base) && DigitsOf(b, base) == ""
    ensures Value(DigitsOf(a + p + z + digits + b, base), base) == Value(digits, base)
  {
    DigitsOfAppend(a, p, base);
    DigitsOfAppend(a + p, z, base);
    DigitsOfAppend(a + p + z, digits, base);
    DigitsOfAppend(a + p + z + digits, b, base);
    OnlyDigits(digits, base);
    hide DigitsOf, Value;
    var zeros := DigitsOf(a + p + z, base);
    assert DigitsOf(a + p + z + digits + b, base) == zeros + digits;
    LeadingZeros(zeros, digits, base);
  }

  /** The text can be read back: its digits give the magnitude, whatever else stands in it, and it holds a
      minus exactly if the value is negative. */
  lemma ReadBack(value: int, spec: FormatSpec)
    requires KnownType(spec.kind) && FillFits(spec, BaseOf(spec.kind))
    ensures Value(DigitsOf(IntegerText(value, spec), BaseOf(spec.kind)), BaseOf(spec.kind)) == Abs(value)
    ensures '-' in IntegerText(value, spec) <==> value < 0
  {
    hide *;
    WrittenText(value, spec);
    BaseIs(spec.kind);
    Disassembled(IntegerText(value, spec), value, spec);
  }

  lemma Disassembled(text: string, value: int, spec: FormatSpec)
    requires IsWritten(text, value, spec) && KnownType(spec.kind) && FillFits(spec, BaseOf(spec.kind))
    ensures Value(DigitsOf(text, BaseOf(spec.kind)), BaseOf(spec.kind)) == Abs(value)
    ensures '-' in text <==> value < 0
  {
    var sign: string, mark: string, base: nat, digits: string :|
      WrittenFrom(text, sign, mark, base, digits, value, spec);
    assert base == BaseOf(spec.kind);
    hide BaseOf, KnownType;
    SignAddsNothing(sign, base, value, spec);
    MarkAddsZero(mark, base, spec, spec.precision > |digits|);
    DigitsOfAppend(sign, mark, base);
    assert "" + DigitsOf(mark, base) == DigitsOf(mark, base);
    hide SignIs, MarkIs, IsBase;
    var p := sign + mark;
    var left: nat, middle: nat, right: nat :|
      Parts(text, left, p, middle, digits, right, spec) && Sized(left, p, middle, digits, right, spec);
    hide DigitsOf;
    Around(text, left, p, middle, digits, right, spec, base);
  }

  lemma Around(text: string, left: nat, p: string, middle: nat, digits: string, right: nat, spec: FormatSpec,
               base: nat)
    requires Parts(text, left, p, middle, digits, right, spec) && Sized(left, p, middle, digits, right, spec)
    requires Only(DigitsOf(p, base), '0') && AllDigits(digits, base) && FillFits(spec, base)
    ensures Value(DigitsOf(text, base), base) == Value(digits, base)
    ensures '-' in text <==> '-' in p
  {
    hide DigitsOf, Value;
    var zero := if spec.precision > |digits| then '0' else spec.fill;
    FillAddsZeros(spec.fill, left, base);
    FillAddsZeros(zero, middle, base);
    FillAddsZeros(spec.fill, right, base);
    var a, z, b := Repeat(spec.fill, left), Repeat(zero, middle), Repeat(spec.fill, right);
    assert DigitsOf(b, base) == "" by {
      if IsDigitOf(spec.fill, base) {
        assert right == 0;
        NoDigits(b, base);
      }
    }
    AroundDigits(a, p, z, digits, b, base);
    assert '-' !in a && '-' !in z && '-' !in b && '-' !in digits;
  }

  /** Equal texts under one specification come from equal values. */
  lemma SameTextSameValue(a: int, b: int, spec: FormatSpec)
    requires KnownType(spec.kind) && FillFits(spec, BaseOf(spec.kind))
    requires IntegerText(a, spec) == IntegerText(b, spec)
    ensures a == b
  {
    ReadBack(a, spec);
    ReadBack(b, spec);
    hide IntegerText, DigitsOf, Value;
  }

  /** Other fills can hide a value: the padding of 1 reads as the first digits of 111. */
  lemma FillHides(spec: FormatSpec)
    requires spec == FormatSpec(3, '1', AlignRight, false, false, false, false, -1, 'd')
    ensures IntegerText(1, spec) == "111" == IntegerText(111, spec)
  {
    assert Decimal(1) == "1" && Decimal(11) == "11" && Decimal(111) == "111";
    LayoutRight(1, spec, "", 2);
    LayoutFull(3, spec, "");
    DecimalCase(1, spec);
    DecimalCase(111, spec);
    hide LeftText, RightText;
    assert SignPrefix(1, spec) == SignPrefix(111, spec) == "";
    assert Repeat('1', 2) + "" == "11";
  }
}
