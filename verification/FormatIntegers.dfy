/** Integers from the format string to the text: what the fields of a format string write. */
module FormatIntegers {
  import opened Words
  import opened Wrappers
  import opened Numerals
  import opened IntegerWriter
  import opened IntegerMeaning
  import opened FormatParser
  import opened FormatNumerals
  import opened FormatRoundTrip

  /** Formatting the value with this string calls for one field, and the field is this text. */
  ghost predicate Writes(format: string, value: int, text: string) {
    exists how: Specified ::
      && Run([Passed(None, IntArg(value))], 0, format) == Done([Formatted(Auto(0), IntArg(value), how)])
      && KnownType(how.spec.kind) && IntegerText(value, how.spec) == text
  }

  function WithWidth(x: SpecSyntax, w: nat): SpecSyntax {
    x.(width := if w == 0 then Absent else Fixed(Decimal(w)))
  }

  function SizeText(w: nat): string {
    if w == 0 then "" else Decimal(w)
  }

  /** The text of a field without a precision. */
  lemma FieldSpelled(x: SpecSyntax, w: nat)
    requires x.precision == Absent
    ensures FieldText(Implicit, Some(WithWidth(x, w)), "") ==
            "{:" + (if x.fill.Some? then [x.fill.value] else "") + AlignText(x.align) + SignText(x.sign) +
            If(x.hash, "#") + If(x.zero, "0") + SizeText(w) + If(x.kind != '\0', [x.kind]) + "}"
  {
    hide AlignText, SignText, Numeral;
    Assembled9(if x.fill.Some? then [x.fill.value] else "", AlignText(x.align), SignText(x.sign), If(x.hash, "#"),
               If(x.zero, "0"), SizeText(w), If(x.kind != '\0', [x.kind]));
  }

  lemma Assembled9(a: string, b: string, c: string, d: string, e: string, f: string, g: string)
    ensures "{" + ("" + (":" + (a + (b + (c + (d + (e + (f + ("" + ("" + (g + ("}" + "")))))))))))) ==
            "{:" + a + b + c + d + e + f + g + "}"
  {
  }

  /** What an integer allows and the width as written. */
  lemma IntegerSpec(args: seq<Passed>, x: SpecSyntax, w: nat, value: int)
    requires x.precision == Absent && w <= INT_MAX
    ensures SpecMeant(args, 1, IntArg(value), WithWidth(x, w), "") ==
            Done(Specified(FlagsMeant(WithWidth(x, w), "").(width := w, kind := x.kind), None, None, 1))
  {
    DecimalIsGood(w);
    hide GoodNumeral, Numeral, NumeralMeant, FlagsMeant, SignText;
  }

  lemma {:induction false} FieldMeans(args: seq<Passed>, spec: Option<SpecSyntax>, how: Specified)
    requires |args| == 1 && FieldMeant(args, 1, args[0].arg, spec, "") == Done(how)
    ensures Meant(args, 0, [Field(Implicit, spec)]) == Done([Formatted(Auto(0), args[0].arg, how)])
  {
    var pieces := [Field(Implicit, spec)];
    assert pieces[1..] == [];
    hide FieldMeant;
    assert Refer(args, 0, Next) == Done(Referred(Auto(0), args[0].arg, 1));
    assert Render(pieces[1..]) == "";
    assert FieldMeant(args, 1, args[0].arg, spec, Render(pieces[1..])) == Done(how);
    assert Meant(args, how.next, pieces[1..]) == Done([]);
    var value := Formatted(Auto(0), args[0].arg, how);
    assert Then([value], Done([])) == Done([value]) by { assert [value] + [] == [value]; }
  }

  /** A string of one field alone. */
  lemma {:induction false} FieldAlone(args: seq<Passed>, spec: Option<SpecSyntax>, how: Specified)
    requires |args| == 1 && FieldMeant(args, 1, args[0].arg, spec, "") == Done(how)
    requires spec.Some? ==> GoodSpec(spec.value)
    ensures Run(args, 0, FieldText(Implicit, spec, "")) == Done([Formatted(Auto(0), args[0].arg, how)])
  {
    var pieces := [Field(Implicit, spec)];
    assert pieces[1..] == [] && Render([]) == "";
    assert Render(pieces) == FieldText(Implicit, spec, "");
    assert GoodPiece(pieces[0]);
    hide *;
    FieldMeans(args, spec, how);
    RunRendered(args, 0, pieces);
  }

  lemma FieldRun(x: SpecSyntax, w: nat, value: int)
    requires GoodSpec(WithWidth(x, w)) && x.precision == Absent && w <= INT_MAX
    ensures Run([Passed(None, IntArg(value))], 0, FieldText(Implicit, Some(WithWidth(x, w)), "")) ==
            Done([Formatted(Auto(0), IntArg(value),
                            Specified(FlagsMeant(WithWidth(x, w), "").(width := w, kind := x.kind), None, None, 1))])
  {
    var args, y := [Passed(None, IntArg(value))], WithWidth(x, w);
    assert FieldMeant(args, 1, args[0].arg, Some(y), "") == SpecMeant(args, 1, args[0].arg, y, "");
    hide *;
    IntegerSpec(args, x, w, value);
    FieldAlone(args, Some(y), Specified(FlagsMeant(y, "").(width := w, kind := x.kind), None, None, 1));
  }

  /** What a field with this specification writes. */
  lemma FieldWrites(x: SpecSyntax, w: nat, value: int)
    requires GoodSpec(WithWidth(x, w)) && x.precision == Absent && w <= INT_MAX && KnownType(x.kind)
    ensures Writes(FieldText(Implicit, Some(WithWidth(x, w)), ""), value,
                   IntegerText(value, FlagsMeant(WithWidth(x, w), "").(width := w, kind := x.kind)))
  {
    FieldRun(x, w, value);
    hide Run, FieldText, FlagsMeant, GoodSpec, IntegerText;
    var how := Specified(FlagsMeant(WithWidth(x, w), "").(width := w, kind := x.kind), None, None, 1);
    assert KnownType(how.spec.kind);
  }

  // ----- signs --------------------------------------------------------------------------------------------

  /** An empty field, and one for each sign flag. */
  lemma SignFields(v: int)
    ensures Writes("{}", v, SignedText(v))
    ensures Writes("{:-}", v, SignedText(v))
    ensures Writes("{:+}", v, if v < 0 then "-" + Decimal(-v) else "+" + Decimal(v))
    ensures Writes("{: }", v, if v < 0 then "-" + Decimal(-v) else " " + Decimal(v))
  {
    hide *;
    EmptyField(v);
    SignField(v, Minus, '-', "");
    SignField(v, Plus, '+', "+");
    SignField(v, Space, ' ', " ");
    SignedCases(v);
    AbsIs(v);
    NothingAhead(Decimal(Abs(v)));
    assert "{:" + ['-'] + "}" == "{:-}" && "{:" + ['+'] + "}" == "{:+}" && "{:" + [' '] + "}" == "{: }";
  }

  lemma NothingAhead(s: string)
    ensures "" + s == s
  {
  }

  lemma EmptyField(v: int)
    ensures Writes("{}", v, SignedText(v))
  {
    var args := [Passed(None, IntArg(v))];
    var how := Specified(DEFAULT, None, None, 1);
    PlainIsSigned(v, DEFAULT);
    FieldAlone(args, None, how);
    assert FieldText(Implicit, None, "") == "{}";
    hide Run, FieldText, IntegerText;
    assert Formatted(Auto(0), args[0].arg, how) == Formatted(Auto(0), IntArg(v), how);
  }

  lemma SignField(v: int, sign: Sign, c: char, ahead: string)
    requires (sign == Minus && c == '-' && ahead == "") || (sign == Plus && c == '+' && ahead == "+")
             || (sign == Space && c == ' ' && ahead == " ")
    ensures Writes("{:" + [c] + "}", v, (if v < 0 then "-" else ahead) + Decimal(Abs(v)))
  {
    var x := EMPTY.(sign := sign);
    SignSyntax(x, c);
    assert KnownType(x.kind);
    var spec := FormatSpec(0, ' ', AlignDefault, sign != Minus, sign == Plus, sign == Minus, false, -1, '\0');
    assert FlagsMeant(x, "").(width := 0, kind := x.kind) == spec;
    assert SignPrefix(v, spec) == if v < 0 then "-" else ahead;
    hide FieldText, GoodSpec, FlagsMeant, Writes, IntegerText, SignPrefix;
    FieldWrites(x, 0, v);
    AfterSign(v, spec);
  }

  lemma SignSyntax(x: SpecSyntax, c: char)
    requires x == EMPTY.(sign := x.sign)
    requires (x.sign == Minus && c == '-') || (x.sign == Plus && c == '+') || (x.sign == Space && c == ' ')
    ensures GoodSpec(x) && WithWidth(x, 0) == x && FieldText(Implicit, Some(x), "") == "{:" + [c] + "}"
  {
    FieldSpelled(x, 0);
    assert WithWidth(x, 0) == x;
    hide FieldText;
    assert GoodSpec(x);
  }

  lemma AfterSign(v: int, spec: FormatSpec)
    requires spec.kind == '\0' && spec.width == 0 && spec.precision == -1
    ensures KnownType(spec.kind) && IntegerText(v, spec) == SignPrefix(v, spec) + Decimal(Abs(v))
  {
    var p, digits := SignPrefix(v, spec), Decimal(Abs(v));
    DecimalCase(v, spec);
    LayoutFull(|digits|, spec, p);
    hide Numeral, LeftText, RightText, SignPrefix, Abs;
    assert Laid(digits, spec, p) == p + digits + "";
  }

  // ----- bases --------------------------------------------------------------------------------------------

  /** Hexadecimal, octal and binary fields. */
  lemma BaseFields(v: int)
    ensures var sign := if v < 0 then "-" else "";
            && Writes("{:d}", v, sign + Numeral(Abs(v), 10, false))
            && Writes("{:x}", v, sign + Numeral(Abs(v), 16, false))
            && Writes("{:X}", v, sign + Numeral(Abs(v), 16, true))
            && Writes("{:o}", v, sign + Numeral(Abs(v), 8, false))
            && Writes("{:b}", v, sign + Numeral(Abs(v), 2, false))
            && Writes("{:B}", v, sign + Numeral(Abs(v), 2, false))
  {
    hide Writes, Numeral, Abs;
    BaseField(v, 'd', 10);
    BaseField(v, 'x', 16);
    BaseField(v, 'X', 16);
    BaseField(v, 'o', 8);
    BaseField(v, 'b', 2);
    BaseField(v, 'B', 2);
    assert "{:" + ['d'] + "}" == "{:d}" && "{:" + ['x'] + "}" == "{:x}" && "{:" + ['X'] + "}" == "{:X}";
    assert "{:" + ['o'] + "}" == "{:o}" && "{:" + ['b'] + "}" == "{:b}" && "{:" + ['B'] + "}" == "{:B}";
  }

  /** The syntax of a field with nothing but a known type, and perhaps the hash flag. */
  lemma KindField(kind: char, hash: bool)
    requires KnownType(kind) && kind != '\0'
    ensures var x := EMPTY.(hash := hash, kind := kind);
            && GoodSpec(x) && WithWidth(x, 0) == x
            && FieldText(Implicit, Some(x), "") == (if hash then "{:#" else "{:") + [kind] + "}"
  {
    var x := EMPTY.(hash := hash, kind := kind);
    FieldSpelled(x, 0);
    assert WithWidth(x, 0) == x;
    hide FieldText;
    assert GoodSpec(x);
  }

  lemma BaseKnown(base: nat, kind: char)
    requires IsBase(base, kind)
    ensures KnownType(kind) && BaseOf(kind) == base
  {
  }

  lemma KindSpec(kind: char, hash: bool)
    requires kind != '\0'
    ensures FlagsMeant(EMPTY.(hash := hash, kind := kind), "").(width := 0, kind := kind) ==
            FormatSpec(0, ' ', AlignDefault, false, false, false, hash, -1, kind)
  {
  }

  lemma BaseField(v: int, kind: char, base: nat)
    requires IsBase(base, kind) && kind != '\0'
    ensures Writes("{:" + [kind] + "}", v, (if v < 0 then "-" else "") + Numeral(Abs(v), base, kind == 'X'))
  {
    var x := EMPTY.(kind := kind);
    var spec := FormatSpec(0, ' ', AlignDefault, false, false, false, false, -1, kind);
    assert BasePrefix(spec) == "";
    hide *;
    BaseKnown(base, kind);
    KindField(kind, false);
    KindSpec(kind, false);
    FieldWrites(x, 0, v);
    BareText(v, spec, "");
    assert (if v < 0 then "-" else "") + "" == if v < 0 then "-" else "";
  }

  /** The hash flag shows the base. */
  lemma MarkedFields(v: int)
    ensures var sign := if v < 0 then "-" else "";
            && Writes("{:#x}", v, sign + "0x" + Numeral(Abs(v), 16, false))
            && Writes("{:#X}", v, sign + "0X" + Numeral(Abs(v), 16, true))
            && Writes("{:#o}", v, sign + "0" + Numeral(Abs(v), 8, false))
            && Writes("{:#b}", v, sign + "0b" + Numeral(Abs(v), 2, false))
            && Writes("{:#B}", v, sign + "0B" + Numeral(Abs(v), 2, false))
  {
    hide Writes, Numeral, Abs;
    MarkedField(v, 'x', 16, "0x");
    MarkedField(v, 'X', 16, "0X");
    MarkedField(v, 'o', 8, "0");
    MarkedField(v, 'b', 2, "0b");
    MarkedField(v, 'B', 2, "0B");
    assert "{:#" + ['x'] + "}" == "{:#x}" && "{:#" + ['X'] + "}" == "{:#X}" && "{:#" + ['o'] + "}" == "{:#o}";
    assert "{:#" + ['b'] + "}" == "{:#b}" && "{:#" + ['B'] + "}" == "{:#B}";
  }

  lemma MarkedField(v: int, kind: char, base: nat, mark: string)
    requires IsBase(base, kind) && base != 10 && mark == if kind == 'o' then "0" else ['0', kind]
    ensures Writes("{:#" + [kind] + "}", v, (if v < 0 then "-" else "") + mark + Numeral(Abs(v), base, kind == 'X'))
  {
    var x := EMPTY.(hash := true, kind := kind);
    var spec := FormatSpec(0, ' ', AlignDefault, false, false, false, true, -1, kind);
    assert BasePrefix(spec) == mark && kind != '\0';
    hide *;
    BaseKnown(base, kind);
    KindField(kind, true);
    KindSpec(kind, true);
    FieldWrites(x, 0, v);
    BareText(v, spec, mark);
  }

  /** Without width, precision and sign flags. */
  lemma BareText(v: int, spec: FormatSpec, mark: string)
    requires KnownType(spec.kind) && BasePrefix(spec) == mark
    requires !spec.sign && spec.width == 0 && spec.precision == -1
    ensures IntegerText(v, spec) ==
            (if v < 0 then "-" else "") + mark + Numeral(Abs(v), BaseOf(spec.kind), spec.kind == 'X')
  {
    var p := (if v < 0 then "-" else "") + mark;
    var digits := Numeral(Abs(v), BaseOf(spec.kind), spec.kind == 'X');
    assert SignPrefix(v, spec) + BasePrefix(spec) == p;
    LayoutFull(|digits|, spec, p);
    hide Numeral, LeftText, RightText, SignPrefix, BasePrefix;
    assert p + digits + "" == p + digits;
  }

  // ----- alignment ----------------------------------------------------------------------------------------

  function Pad(size: nat, w: nat): nat {
    if size < w then w - size else 0
  }

  /** A width pads with spaces, on the left unless an alignment says otherwise; zeros stand behind the
      sign. */
  lemma AlignedFields(v: int, w: nat)
    requires 0 < w <= INT_MAX
    ensures Writes("{:" + Decimal(w) + "}", v, Widened(v, w, AlignRight, ' '))
    ensures Writes("{:>" + Decimal(w) + "}", v, Widened(v, w, AlignRight, ' '))
    ensures Writes("{:<" + Decimal(w) + "}", v, Widened(v, w, AlignLeft, ' '))
    ensures Writes("{:^" + Decimal(w) + "}", v, Widened(v, w, AlignCenter, ' '))
    ensures Writes("{:=" + Decimal(w) + "}", v, Widened(v, w, AlignNumeric, ' '))
    ensures Writes("{:0" + Decimal(w) + "}", v, Widened(v, w, AlignNumeric, '0'))
  {
    hide Writes, Numeral, Widened;
    AlignedField(v, w, AlignDefault, false, "");
    AlignedField(v, w, AlignRight, false, ">");
    AlignedField(v, w, AlignLeft, false, "<");
    AlignedField(v, w, AlignCenter, false, "^");
    AlignedField(v, w, AlignNumeric, false, "=");
    AlignedField(v, w, AlignDefault, true, "0");
    hide AlignText;
    assert "{:" + "" == "{:" && "{:" + ">" == "{:>" && "{:" + "<" == "{:<";
    assert "{:" + "^" == "{:^" && "{:" + "=" == "{:=" && "{:" + "0" == "{:0";
  }

  /** A signed text in a width. */
  ghost function Widened(v: int, w: nat, align: Alignment, fill: char): string {
    var text, sign := SignedText(v), if v < 0 then "-" else "";
    var pad := Pad(|text|, w);
    match align
    case AlignLeft => text + Repeat(fill, pad)
    case AlignCenter => Repeat(fill, pad / 2) + text + Repeat(fill, pad - pad / 2)
    case AlignNumeric => sign + Repeat(fill, pad) + Decimal(Abs(v))
    case _ => Repeat(fill, pad) + text
  }

  lemma AlignedField(v: int, w: nat, align: Alignment, zero: bool, ahead: string)
    requires 0 < w <= INT_MAX && ahead == if zero then "0" else AlignText(align)
    requires zero ==> align == AlignDefault
    ensures Writes("{:" + ahead + Decimal(w) + "}", v,
                   Widened(v, w, if zero then AlignNumeric else if align == AlignDefault then AlignRight else align,
                           if zero then '0' else ' '))
  {
    var x := EMPTY.(align := align, zero := zero);
    var align' := if zero then AlignNumeric else align;
    var spec := FormatSpec(w, if zero then '0' else ' ', align', false, false, false, false, -1, '\0');
    assert FlagsMeant(WithWidth(x, w), "").(width := w, kind := x.kind) == spec;
    assert align == AlignDefault ==> Widened(v, w, AlignDefault, ' ') == Widened(v, w, AlignRight, ' ');
    hide *;
    SizedField(x, w, ahead);
    FieldWrites(x, w, v);
    WidthText(v, spec);
  }

  /** The syntax of a field with nothing but a width, and perhaps an alignment or the zero flag. */
  lemma SizedField(x: SpecSyntax, w: nat, ahead: string)
    requires 0 < w <= INT_MAX && x == EMPTY.(align := x.align, zero := x.zero)
    requires x.zero ==> x.align == AlignDefault
    requires ahead == if x.zero then "0" else AlignText(x.align)
    ensures GoodSpec(WithWidth(x, w)) && KnownType(x.kind)
    ensures FieldText(Implicit, Some(WithWidth(x, w)), "") == "{:" + ahead + Decimal(w) + "}"
  {
    SizedGood(x, w);
    FieldSpelled(x, w);
    hide GoodSpec, Numeral, FieldText;
    if x.zero {
      hide AlignText;
      Quoted("", "0", Decimal(w));
    } else {
      hide AlignText;
      Quoted(ahead, "", Decimal(w));
    }
  }

  lemma Quoted(align: string, zero: string, size: string)
    requires align == "" || zero == ""
    ensures "{:" + "" + align + "" + "" + zero + size + "" + "}" == "{:" + (align + zero) + size + "}"
    ensures align + zero == if zero == "" then align else zero
  {
  }

  lemma SizedGood(x: SpecSyntax, w: nat)
    requires 0 < w <= INT_MAX && x == EMPTY.(align := x.align, zero := x.zero)
    ensures GoodSpec(WithWidth(x, w))
  {
    var y := WithWidth(x, w);
    DecimalIsGood(w);
    NumeralDigits(w, 10, false);
    hide Numeral, GoodNumeral, AlignText;
    assert KindFits(y);
    hide KindFits;
  }

  lemma WidthText(v: int, spec: FormatSpec)
    requires spec.kind == '\0' && !spec.sign && spec.precision == -1
    ensures KnownType(spec.kind) && IntegerText(v, spec) == Widened(v, spec.width, spec.align, spec.fill)
  {
    var digits, p := Decimal(Abs(v)), if v < 0 then "-" else "";
    DecimalCase(v, spec);
    SignedCases(v);
    assert SignPrefix(v, spec) == p;
    assert SignedText(v) == p + digits;
    hide Numeral, SignPrefix, SignedText, Laid;
    WidthLaid(digits, p, spec);
    hide Pad, Repeat;
  }

  lemma WidthLaid(digits: string, p: string, spec: FormatSpec)
    requires spec.precision == -1
    ensures var pad := Pad(|p + digits|, spec.width);
            Laid(digits, spec, p) ==
            match spec.align
            case AlignLeft => p + digits + Repeat(spec.fill, pad)
            case AlignCenter => Repeat(spec.fill, pad / 2) + (p + digits) + Repeat(spec.fill, pad - pad / 2)
            case AlignNumeric => p + Repeat(spec.fill, pad) + digits
            case _ => Repeat(spec.fill, pad) + (p + digits)
  {
    var pad, n := Pad(|p + digits|, spec.width), |digits|;
    if pad == 0 {
      LayoutFull(n, spec, p);
      assert Repeat(spec.fill, 0) == "";
    } else if spec.align == AlignLeft {
      LayoutLeft(n, spec, p, pad);
    } else if spec.align == AlignCenter {
      LayoutCenter(n, spec, p, pad);
    } else if spec.align == AlignNumeric {
      LayoutNumeric(n, spec, p, pad);
    } else {
      LayoutRight(n, spec, p, pad);
    }
    assert Laid(digits, spec, p) == LeftText(n, spec, p) + digits + RightText(n, spec, p);
    hide LeftText, RightText, Repeat, Laid, Pad;
    Joins(Repeat(spec.fill, pad), p, digits);
    Joins(Repeat(spec.fill, pad / 2), p, digits);
  }

  lemma Joins(fill: string, p: string, digits: string)
    ensures fill + p + digits == fill + (p + digits)
    ensures fill + p + digits + "" == fill + (p + digits) && p + fill + digits + "" == p + fill + digits
    ensures "" + (p + digits) == p + digits && p + digits + "" == p + digits && p + "" == p
  {
  }
}
