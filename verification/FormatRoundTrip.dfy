/** A format string written from its pieces produces exactly what the pieces mean: the parser takes the
    text apart as it was put together, and reports an error exactly where a piece is wrong. */
module FormatRoundTrip {
  import opened Wrappers
  import opened Numerals
  import opened IntegerWriter
  import opened FormatParser
  import opened FormatNumerals

  // ----- syntax -------------------------------------------------------------------------------------------

  datatype Sign = NoSign | Plus | Minus | Space

  /** A reference as written. */
  datatype Reference = Implicit | Digits(ds: string) | Word(name: string)

  datatype CountSyntax = Absent | Fixed(ds: string) | Dynamic(ref: Reference)

  datatype SpecSyntax = SpecSyntax(
    fill: Option<char>,
    align: Alignment,
    sign: Sign,
    hash: bool,
    zero: bool,
    width: CountSyntax,
    precision: CountSyntax,
    kind: char)

  datatype Piece = Literal(text: string) | Field(ref: Reference, spec: Option<SpecSyntax>)

  predicate IsName(s: string) {
    IsNameStart(First(s)) && forall k :: 0 <= k < |s| ==> IsNameChar(s[k])
  }

  ghost predicate GoodRef(r: Reference) {
    match r
    case Implicit => true
    case Digits(ds) => GoodNumeral(ds)
    case Word(name) => IsName(name)
  }

  ghost predicate GoodCount(c: CountSyntax) {
    match c
    case Absent => true
    case Fixed(ds) => GoodNumeral(ds)
    case Dynamic(ref) => GoodRef(ref)
  }

  /** The character behind everything else in a specification: its presentation type or the brace. */
  function Last(x: SpecSyntax): char {
    if x.kind == '\0' then '}' else x.kind
  }

  /** A presentation type can be any character that is not taken for something that could stand in its
      place. */
  predicate KindFits(x: SpecSyntax) {
    var c := Last(x);
    && x.kind != '}'
    && (x.precision.Absent? ==> c != '.')
    && (x.precision.Fixed? || (x.precision.Absent? && !x.width.Dynamic?) ==> !IsDigit(c))
    && (x.precision.Absent? && x.width.Absent? ==>
          && c != '{'
          && (!x.zero && !x.hash ==> c != '#' && (x.sign == NoSign ==> c != '+' && c != '-' && c != ' ')))
    && (x.fill.None? && |AlignText(x.align)| + |Middle(x)| <= 2 ==> AlignOf(c) == AlignDefault)
  }

  /** A fill needs an alignment and is no brace; a width starts with a zero only after the zero flag. */
  ghost predicate GoodSpec(x: SpecSyntax) {
    && (x.fill.Some? ==> x.align != AlignDefault && x.fill.value != '{' && x.fill.value != '}' && x.fill.value != '\0')
    && GoodCount(x.width) && GoodCount(x.precision)
    && (x.width.Fixed? && !x.zero ==> x.width.ds[0] != '0')
    && KindFits(x)
  }

  ghost predicate GoodPiece(piece: Piece) {
    match piece
    case Literal(text) => forall k :: 0 <= k < |text| ==> text[k] != '\0'
    case Field(ref, spec) => GoodRef(ref) && (spec.Some? ==> GoodSpec(spec.value))
  }

  // ----- text ---------------------------------------------------------------------------------------------

  function RefText(r: Reference): string {
    match r
    case Implicit => ""
    case Digits(ds) => ds
    case Word(name) => name
  }

  function AlignText(align: Alignment): (s: string)
    ensures |s| == (if align == AlignDefault then 0 else 1)
    ensures s != "" ==> AlignOf(s[0]) == align
  {
    match align
    case AlignDefault => ""
    case AlignLeft => "<"
    case AlignRight => ">"
    case AlignCenter => "^"
    case AlignNumeric => "="
  }

  function SignText(sign: Sign): string {
    match sign
    case NoSign => ""
    case Plus => "+"
    case Minus => "-"
    case Space => " "
  }

  function CountText(c: CountSyntax): string {
    match c
    case Absent => ""
    case Fixed(ds) => ds
    case Dynamic(ref) => "{" + RefText(ref) + "}"
  }

  function If(present: bool, text: string): string {
    if present then text else ""
  }

  /** A specification without fill, alignment and presentation type. */
  function Core(x: SpecSyntax): string {
    SignText(x.sign) + If(x.hash, "#") + If(x.zero, "0") + CountText(x.width) +
    If(!x.precision.Absent?, ".") + CountText(x.precision)
  }

  /** A specification without fill and alignment. */
  function Middle(x: SpecSyntax): string {
    Core(x) + If(x.kind != '\0', [x.kind])
  }

  /** A specification from its kind on, then from its precision on, and so forth, with the closing brace
      and the text after it. */
  function KindTail(x: SpecSyntax, after: string): string {
    If(x.kind != '\0', [x.kind]) + ("}" + after)
  }

  function PrecisionTail(x: SpecSyntax, after: string): string {
    If(!x.precision.Absent?, ".") + (CountText(x.precision) + KindTail(x, after))
  }

  function WidthTail(x: SpecSyntax, after: string): string {
    CountText(x.width) + PrecisionTail(x, after)
  }

  function ZeroTail(x: SpecSyntax, after: string): string {
    If(x.zero, "0") + WidthTail(x, after)
  }

  function HashTail(x: SpecSyntax, after: string): string {
    If(x.hash, "#") + ZeroTail(x, after)
  }

  function SignTail(x: SpecSyntax, after: string): string {
    SignText(x.sign) + HashTail(x, after)
  }

  function AlignTail(x: SpecSyntax, after: string): string {
    (if x.fill.Some? then [x.fill.value] else "") + (AlignText(x.align) + SignTail(x, after))
  }

  function FieldText(ref: Reference, spec: Option<SpecSyntax>, after: string): string {
    "{" + (RefText(ref) + if spec.Some? then ":" + AlignTail(spec.value, after) else "}" + after)
  }

  function Doubled(text: string): string {
    if text == "" then ""
    else (if text[0] == '{' || text[0] == '}' then [text[0], text[0]] else [text[0]]) + Doubled(text[1..])
  }

  function Render(pieces: seq<Piece>): string {
    if pieces == [] then ""
    else
      match pieces[0]
      case Literal(text) => Doubled(text) + Render(pieces[1..])
      case Field(ref, spec) => FieldText(ref, spec, Render(pieces[1..]))
  }

  // ----- meaning ------------------------------------------------------------------------------------------

  function RefMeant(r: Reference): RefSyntax {
    match r
    case Implicit => Next
    case Digits(ds) => Index(NumeralMeant(ds))
    case Word(name) => Name(name)
  }

  predicate Bare(x: SpecSyntax) {
    x.sign == NoSign && !x.hash && !x.zero && x.width == Absent && x.precision == Absent && x.kind == '\0'
  }

  /** A specification with nothing in it picks up an alignment character from the text behind the
      field. */
  function AlignMeant(x: SpecSyntax, after: string): Alignment {
    if x.zero then AlignNumeric
    else if x.align == AlignDefault && Bare(x) then AlignOf(First(after))
    else x.align
  }

  function FlagsMeant(x: SpecSyntax, after: string): FormatSpec {
    FormatSpec(0, if x.zero then '0' else if x.fill.Some? then x.fill.value else ' ', AlignMeant(x, after),
               x.sign == Plus || x.sign == Space, x.sign == Plus, x.sign == Minus, x.hash, -1, '\0')
  }

  function AlignError(x: SpecSyntax, arg: Arg): Option<string> {
    if x.align == AlignNumeric then NumericError(arg, '=') else None
  }

  function SignErrorOf(x: SpecSyntax, arg: Arg): Option<string> {
    if x.sign == NoSign then None else SignError(arg, SignText(x.sign)[0])
  }

  /** The first thing an argument does not allow. */
  function FlagsError(x: SpecSyntax, arg: Arg): Option<string> {
    if AlignError(x, arg).Some? then AlignError(x, arg)
    else if SignErrorOf(x, arg).Some? then SignErrorOf(x, arg)
    else if x.hash && !IsNumeric(arg) then NumericError(arg, '#')
    else if x.zero then NumericError(arg, '0')
    else None
  }

  function CountMeant(args: seq<Passed>, next: int, c: CountSyntax, what: string): Outcome<Count> {
    match c
    case Absent => Done(Count(0, None, next))
    case Fixed(ds) => Done(Count(NumeralMeant(ds), None, next))
    case Dynamic(ref) =>
      var r :- Refer(args, next, RefMeant(ref));
      var n :- CountValue(r.arg, what);
      Done(Count(n, Some(r.ref), r.next))
  }

  /** The precision and the kind, for a specification read up to its width. */
  function TailMeant(args: seq<Passed>, arg: Arg, x: SpecSyntax, sized: Specified): Outcome<Specified> {
    if x.precision.Absent? then Done(sized.(spec := sized.spec.(kind := x.kind)))
    else
      var precision :- CountMeant(args, sized.next, x.precision, "precision");
      Unless(PrecisionError(arg),
             Specified(sized.spec.(precision := precision.n, kind := x.kind), sized.width, precision.ref,
                       precision.next))
  }

  function SpecMeant(args: seq<Passed>, next: int, arg: Arg, x: SpecSyntax, after: string): Outcome<Specified> {
    var flags :- Unless(FlagsError(x, arg), FlagsMeant(x, after));
    var width :- CountMeant(args, next, x.width, "width");
    TailMeant(args, arg, x, Specified(flags.(width := width.n), width.ref, None, width.next))
  }

  function FieldMeant(args: seq<Passed>, next: int, arg: Arg, spec: Option<SpecSyntax>, after: string)
    : Outcome<Specified>
  {
    if spec.Some? then SpecMeant(args, next, arg, spec.value, after)
    else Done(Specified(DEFAULT, None, None, next))
  }

  /** What a list of pieces produces. */
  function Meant(args: seq<Passed>, next: int, pieces: seq<Piece>): Outcome<seq<Output>>
    decreases |pieces|
  {
    if pieces == [] then Done([])
    else
      match pieces[0]
      case Literal(text) => Then(Chars(text), Meant(args, next, pieces[1..]))
      case Field(ref, spec) =>
        var r :- Refer(args, next, RefMeant(ref));
        var how :- FieldMeant(args, r.next, r.arg, spec, Render(pieces[1..]));
        Then([Formatted(r.ref, r.arg, how)], Meant(args, how.next, pieces[1..]))
  }

  // ----- references ---------------------------------------------------------------------------------------

  lemma {:induction false} ReadName(name: string, rest: string)
    requires forall k :: 0 <= k < |name| ==> IsNameChar(name[k])
    requires !IsNameChar(First(rest))
    ensures TakeName(name + rest) == name
  {
    if name != "" {
      ReadName(name[1..], rest);
      assert (name + rest)[1..] == name[1..] + rest;
    } else {
      assert name + rest == rest;
    }
  }

  lemma ReadReference(args: seq<Passed>, next: int, r: Reference, rest: string)
    requires GoodRef(r) && (First(rest) == '}' || First(rest) == ':')
    ensures First(RefText(r) + rest) != '{'
    ensures ParseRef(args, next, RefText(r) + rest) ==
            var found := Refer(args, next, RefMeant(r));
            if found.Done? then Done(At(found.value, rest)) else Fail(found.message)
  {
    hide Refer, GoodNumeral, NumeralMeant;
    match r
    case Implicit =>
      assert "" + rest == rest;
    case Digits(ds) =>
      ReadNumeral(ds, rest);
      hide ParseInt;
    case Word(name) =>
      ReadName(name, rest);
      hide TakeName;
      ReferenceByName(args, next, name + rest);
      hide ParseRef;
      assert (name + rest)[|name|..] == rest;
  }

  // ----- specifications -----------------------------------------------------------------------------------

  /** How the tails begin. */
  lemma KindHeads(x: SpecSyntax, after: string)
    requires GoodSpec(x)
    ensures First(KindTail(x, after)) == Last(x) != '\0'
    ensures x.precision.Absent? ==> PrecisionTail(x, after) == KindTail(x, after)
    ensures !x.precision.Absent? ==> First(PrecisionTail(x, after)) == '.'
  {
  }

  lemma WidthHead(x: SpecSyntax, after: string)
    requires GoodSpec(x)
    ensures var c := First(WidthTail(x, after));
            match x.width
            case Absent => c == if x.precision.Absent? then Last(x) else '.'
            case Fixed(ds) => c == ds[0] && IsDigit(c)
            case Dynamic(_) => c == '{'
  {
    KindHeads(x, after);
    hide KindTail, PrecisionTail, KindFits;
    match x.width
    case Absent =>
      assert "" + PrecisionTail(x, after) == PrecisionTail(x, after);
    case Fixed(ds) =>
      FirstDigit(ds);
    case Dynamic(ref) =>
  }

  lemma ReadKind(x: SpecSyntax, after: string, sp: Specified)
    requires GoodSpec(x) && sp.spec.kind == '\0'
    ensures ParseKind(KindTail(x, after), sp) == At(sp.(spec := sp.spec.(kind := x.kind)), "}" + after)
  {
    if x.kind != '\0' {
      assert KindTail(x, after)[1..] == "}" + after;
    }
  }

  lemma ReadDynamic(args: seq<Passed>, next: int, r: Reference, rest: string, what: string)
    requires GoodRef(r)
    ensures ParseDynamic(args, next, RefText(r) + ("}" + rest), what) ==
            var count := CountMeant(args, next, Dynamic(r), what);
            if count.Done? then Done(At(count.value, rest)) else Fail(count.message)
  {
    hide Refer, CountValue, ParseRef, RefText;
    ReadReference(args, next, r, "}" + rest);
    assert ("}" + rest)[1..] == rest;
  }

  lemma ReadWidth(args: seq<Passed>, next: int, x: SpecSyntax, after: string)
    requires GoodSpec(x)
    ensures ParseWidth(args, next, WidthTail(x, after)) ==
            var count := CountMeant(args, next, x.width, "width");
            if count.Done? then Done(At(count.value, PrecisionTail(x, after))) else Fail(count.message)
  {
    KindHeads(x, after);
    var rest := PrecisionTail(x, after);
    hide KindTail, PrecisionTail, GoodNumeral, NumeralMeant, Middle;
    match x.width
    case Absent =>
      assert "" + rest == rest;
    case Fixed(ds) =>
      ReadNumeral(ds, rest);
      hide ParseInt;
    case Dynamic(ref) =>
      BracedTail(ref, rest);
      ReadDynamic(args, next, ref, rest, "width");
      hide ParseDynamic, RefText, CountMeant;
  }

  lemma BracedTail(ref: Reference, rest: string)
    ensures First(CountText(Dynamic(ref)) + rest) == '{'
    ensures (CountText(Dynamic(ref)) + rest)[1..] == RefText(ref) + ("}" + rest)
  {
  }

  lemma ReadPrecision(args: seq<Passed>, next: int, x: SpecSyntax, after: string)
    requires GoodSpec(x) && !x.precision.Absent?
    ensures ParsePrecision(args, next, CountText(x.precision) + KindTail(x, after)) ==
            var count := CountMeant(args, next, x.precision, "precision");
            if count.Done? then Done(At(count.value, KindTail(x, after))) else Fail(count.message)
  {
    KindHeads(x, after);
    var rest := KindTail(x, after);
    hide KindTail, PrecisionTail, GoodNumeral, NumeralMeant, Middle;
    match x.precision
    case Fixed(ds) =>
      ReadNumeral(ds, rest);
      hide ParseInt;
    case Dynamic(ref) =>
      BracedTail(ref, rest);
      ReadDynamic(args, next, ref, rest, "precision");
      hide ParseDynamic, RefText, CountMeant;
  }

  lemma ReadZero(x: SpecSyntax, after: string, arg: Arg, spec: FormatSpec)
    requires GoodSpec(x)
    ensures ParseZero(ZeroTail(x, after), arg, spec) ==
            if x.zero
            then Unless(NumericError(arg, '0'), At(spec.(align := AlignNumeric, fill := '0'), WidthTail(x, after)))
            else Done(At(spec, WidthTail(x, after)))
  {
    WidthHead(x, after);
    hide WidthTail;
    if x.zero {
      assert ZeroTail(x, after)[1..] == WidthTail(x, after);
    } else {
      assert ZeroTail(x, after) == WidthTail(x, after);
    }
  }

  lemma ReadHash(x: SpecSyntax, after: string, arg: Arg, spec: FormatSpec)
    requires GoodSpec(x)
    ensures First(HashTail(x, after)) ==
            if x.hash then '#' else if x.zero then '0' else First(WidthTail(x, after))
    ensures ParseHash(HashTail(x, after), arg, spec) ==
            if x.hash then Unless(NumericError(arg, '#'), At(spec.(hash := true), ZeroTail(x, after)))
            else Done(At(spec, ZeroTail(x, after)))
  {
    WidthHead(x, after);
    hide WidthTail;
    if x.hash {
      assert HashTail(x, after)[1..] == ZeroTail(x, after);
    } else {
      assert HashTail(x, after) == ZeroTail(x, after);
    }
  }

  function SignMeant(spec: FormatSpec, sign: Sign): FormatSpec {
    spec.(sign := spec.sign || sign == Plus || sign == Space, plus := spec.plus || sign == Plus,
          minus := spec.minus || sign == Minus)
  }

  lemma ReadSign(x: SpecSyntax, after: string, arg: Arg, spec: FormatSpec)
    requires GoodSpec(x)
    ensures ParseSign(SignTail(x, after), arg, spec) ==
            Unless(SignErrorOf(x, arg), At(SignMeant(spec, x.sign), HashTail(x, after)))
  {
    ReadHash(x, after, arg, spec);
    WidthHead(x, after);
    hide HashTail, WidthTail, SignError, Middle;
    SignBefore(x.sign, HashTail(x, after), arg, spec);
  }

  lemma SignBefore(sign: Sign, rest: string, arg: Arg, spec: FormatSpec)
    requires sign == NoSign ==> First(rest) != '+' && First(rest) != '-' && First(rest) != ' '
    ensures ParseSign(SignText(sign) + rest, arg, spec) ==
            Unless(if sign == NoSign then None else SignError(arg, First(SignText(sign))),
                   At(SignMeant(spec, sign), rest))
  {
    hide SignError;
    var s := SignText(sign) + rest;
    if sign == NoSign {
      assert s == rest;
    } else {
      assert s[1..] == rest;
    }
  }

  predicate NoAligns(s: string) {
    forall k :: 0 <= k < |s| ==> AlignOf(s[k]) == AlignDefault && s[k] != '\0'
  }

  lemma CountHasNoAligns(c: CountSyntax)
    requires GoodCount(c)
    ensures NoAligns(CountText(c))
    ensures CountText(c) == "" <==> c == Absent
  {
    match c
    case Absent =>
    case Fixed(ds) =>
      DigitsAreNoAligns(ds);
    case Dynamic(ref) =>
      if ref.Digits? {
        DigitsAreNoAligns(ref.ds);
      }
  }

  lemma DigitsAreNoAligns(ds: string)
    requires GoodNumeral(ds)
    ensures NoAligns(ds) && ds != ""
  {
    hide Value, Rising;
  }

  lemma CoreFacts(x: SpecSyntax, after: string)
    requires GoodSpec(x)
    ensures SignTail(x, after) == Core(x) + KindTail(x, after) == Middle(x) + ("}" + after)
    ensures NoAligns(Core(x)) && (Middle(x) == "" <==> Bare(x))
  {
    CountHasNoAligns(x.width);
    CountHasNoAligns(x.precision);
    hide CountText;
    Joined(x, after);
    hide KindTail, PrecisionTail, WidthTail, ZeroTail, HashTail, SignTail;
  }

  lemma Joined(x: SpecSyntax, after: string)
    ensures SignTail(x, after) == Core(x) + KindTail(x, after) == Middle(x) + ("}" + after)
  {
    hide CountText, SignText, If;
    var a, b, c, d := SignText(x.sign), If(x.hash, "#"), If(x.zero, "0"), CountText(x.width);
    var e, f, g := If(!x.precision.Absent?, "."), CountText(x.precision), If(x.kind != '\0', [x.kind]);
    JoinedSeven(a, b, c, d, e, f, g, "}" + after);
  }

  lemma JoinedSeven(a: string, b: string, c: string, d: string, e: string, f: string, g: string, h: string)
    ensures a + (b + (c + (d + (e + (f + (g + h)))))) == a + b + c + d + e + f + (g + h)
    ensures a + b + c + d + e + f + (g + h) == a + b + c + d + e + f + g + h
  {
    assert e + (f + (g + h)) == e + f + (g + h);
    assert b + (c + (d + (e + f + (g + h)))) == b + c + d + e + f + (g + h);
  }

  function AlignedMeant(x: SpecSyntax, after: string): FormatSpec {
    DEFAULT.(align := if x.align == AlignDefault && Bare(x) then AlignOf(First(after)) else x.align,
             fill := if x.fill.Some? then x.fill.value else ' ')
  }

  lemma ReadAlign(x: SpecSyntax, after: string, arg: Arg)
    requires GoodSpec(x)
    ensures ParseAlign(AlignTail(x, after), arg) ==
            Unless(AlignError(x, arg), At(AlignedMeant(x, after), SignTail(x, after)))
  {
    CoreFacts(x, after);
    var s, m := SignTail(x, after), Middle(x);
    TwoHeads(x, after);
    hide SignTail, Middle, Core, KindTail, NumericError, Bare;
    if x.fill.Some? {
      FilledAlign(x.fill.value, x.align, s, arg);
    } else if x.align != AlignDefault {
      PlainAlign(x.align, s, arg);
    } else {
      assert AlignTail(x, after) == s;
    }
  }

  /** The first characters of a specification behind its fill and alignment are no alignments. */
  lemma TwoHeads(x: SpecSyntax, after: string)
    requires GoodSpec(x) && NoAligns(Core(x))
    ensures var s := Middle(x) + ("}" + after);
            && First(s) != '\0'
            && (x.fill.None? ==> AlignOf(s[0]) == AlignDefault)
            && (Middle(x) == "" ==> s[0] == '}' && s[1..] == after)
            && (x.fill.None? && x.align == AlignDefault && Middle(x) != "" ==> AlignOf(First(s[1..])) == AlignDefault)
  {
    var s, n := Middle(x) + ("}" + after), |Core(x)|;
    assert s[n] == Last(x);
    assert forall k :: 0 <= k < n ==> s[k] == Core(x)[k];
    hide Core, CountText, SignText;
    if Middle(x) == "" {
      assert s[1..] == after;
    } else {
      assert s[1..][0] == s[1];
    }
  }

  lemma FilledAlign(fill: char, align: Alignment, rest: string, arg: Arg)
    requires align != AlignDefault && fill != '{' && fill != '}' && fill != '\0'
    ensures ParseAlign([fill] + (AlignText(align) + rest), arg) ==
            Unless(if align == AlignNumeric then NumericError(arg, '=') else None,
                   At(DEFAULT.(align := align, fill := fill), rest))
  {
    var s := [fill] + (AlignText(align) + rest);
    assert s[2..] == rest && s[0] == fill && s[1..][0] == AlignText(align)[0];
    hide NumericError, AlignText;
  }

  lemma PlainAlign(align: Alignment, rest: string, arg: Arg)
    requires align != AlignDefault && AlignOf(First(rest)) == AlignDefault
    ensures ParseAlign("" + (AlignText(align) + rest), arg) ==
            Unless(if align == AlignNumeric then NumericError(arg, '=') else None,
                   At(DEFAULT.(align := align), rest))
  {
    var s := "" + (AlignText(align) + rest);
    assert s[1..] == rest && s[0] == AlignText(align)[0];
    hide NumericError, AlignText;
  }

  lemma ReadFlags(x: SpecSyntax, after: string, arg: Arg)
    requires GoodSpec(x)
    ensures ParseFlags(AlignTail(x, after), arg) ==
            Unless(FlagsError(x, arg), At(FlagsMeant(x, after), WidthTail(x, after)))
  {
    hide ParseAlign, ParseSign, ParseHash, ParseZero, AlignTail, SignTail, HashTail, ZeroTail, WidthTail, Bare,
         SignErrorOf, AlignError, NumericError;
    ReadAlign(x, after, arg);
    if AlignError(x, arg).None? {
      var aligned := AlignedMeant(x, after);
      ReadSign(x, after, arg, aligned);
      if SignErrorOf(x, arg).None? {
        var signed := SignMeant(aligned, x.sign);
        ReadHash(x, after, arg, signed);
        var hashed := if x.hash then signed.(hash := true) else signed;
        ReadZero(x, after, arg, hashed);
        NumericOnly(arg, '#');
        NumericOnly(arg, '0');
      }
    }
  }

  lemma NumericOnly(arg: Arg, c: char)
    ensures NumericError(arg, c).None? <==> IsNumeric(arg)
  {
  }

  lemma ReadSpec(args: seq<Passed>, next: int, arg: Arg, x: SpecSyntax, after: string)
    requires GoodSpec(x)
    ensures ParseSpec(args, next, arg, ":" + AlignTail(x, after)) ==
            var how := SpecMeant(args, next, arg, x, after);
            if how.Done? then Done(At(how.value, after)) else Fail(how.message)
  {
    assert (":" + AlignTail(x, after))[1..] == AlignTail(x, after);
    ReadFlags(x, after, arg);
    ReadWidth(args, next, x, after);
    hide ParseFlags, ParseWidth, FlagsError, CountMeant, WidthTail, AlignTail, PrecisionError, FlagsMeant, ParseTail,
         TailMeant;
    if FlagsError(x, arg).None? && CountMeant(args, next, x.width, "width").Done? {
      var width := CountMeant(args, next, x.width, "width").value;
      ReadTail(args, arg, x, after, Specified(FlagsMeant(x, after).(width := width.n), width.ref, None, width.next));
    }
  }

  lemma ReadTail(args: seq<Passed>, arg: Arg, x: SpecSyntax, after: string, sized: Specified)
    requires GoodSpec(x) && sized.spec.kind == '\0'
    ensures ParseTail(args, PrecisionTail(x, after), arg, sized) ==
            var how := TailMeant(args, arg, x, sized);
            if how.Done? then Done(At(how.value, after)) else Fail(how.message)
  {
    TailUnfolds(args, PrecisionTail(x, after), arg, sized);
    ReadPrecisionPart(args, arg, x, after, sized);
    var part := ParsePrecisionPart(args, PrecisionTail(x, after), arg, sized);
    hide ParseTail, ParsePrecisionPart, PrecisionTail, PrecisionError, CountMeant, GoodSpec, KindTail, ParseKind;
    if part.Done? {
      ReadKind(x, after, part.value.value);
      ClosedBrace(after, part.value.value.(spec := part.value.value.spec.(kind := x.kind)));
    }
    hide Closed;
  }

  lemma TailUnfolds(args: seq<Passed>, s: string, arg: Arg, sized: Specified)
    ensures var part := ParsePrecisionPart(args, s, arg, sized);
            ParseTail(args, s, arg, sized) ==
            if part.Fail? then Fail(part.message)
            else
              var typed := ParseKind(part.value.rest, part.value.value);
              Closed(typed.rest, typed.value)
  {
    hide ParsePrecisionPart, ParseKind, Closed;
  }

  lemma ClosedBrace(after: string, sp: Specified)
    ensures Closed("}" + after, sp) == Done(At(sp, after))
  {
    assert ("}" + after)[1..] == after;
  }

  /** The precision, or the kind at once if there is none. */
  lemma ReadPrecisionPart(args: seq<Passed>, arg: Arg, x: SpecSyntax, after: string, sp: Specified)
    requires GoodSpec(x)
    ensures ParsePrecisionPart(args, PrecisionTail(x, after), arg, sp) ==
            if x.precision.Absent? then Done(At(sp, KindTail(x, after)))
            else
              var count := CountMeant(args, sp.next, x.precision, "precision");
              if count.Fail? then Fail(count.message)
              else Unless(PrecisionError(arg),
                          At(sp.(spec := sp.spec.(precision := count.value.n), precision := count.value.ref,
                                 next := count.value.next), KindTail(x, after)))
  {
    KindHeads(x, after);
    if !x.precision.Absent? {
      assert PrecisionTail(x, after)[1..] == CountText(x.precision) + KindTail(x, after);
      ReadPrecision(args, sp.next, x, after);
    }
    hide KindTail, PrecisionTail, ParsePrecision, CountMeant, PrecisionError, CountText;
  }

  // ----- whole strings ------------------------------------------------------------------------------------

  lemma {:induction false} RunLiteral(args: seq<Passed>, next: int, text: string, rest: string)
    requires forall k :: 0 <= k < |text| ==> text[k] != '\0'
    ensures Run(args, next, Doubled(text) + rest) == Then(Chars(text), Run(args, next, rest))
  {
    hide Run, Doubled, Then, Chars;
    EmptyText(rest);
    if text == "" {
      NothingBefore(Run(args, next, rest));
    } else {
      var c, t := text[0], text[1..];
      var s := Doubled(text) + rest;
      RunLiteral(args, next, t, rest);
      DoubledOne(text, rest);
      if c == '{' || c == '}' {
        RunDoubled(args, next, s);
      } else {
        RunText(args, next, s);
      }
      ThenThen([Text(c)], Chars(t), Run(args, next, rest));
      CharsOne(text);
    }
  }

  lemma EmptyText(rest: string)
    ensures Doubled("") + rest == rest && Chars("") == []
  {
  }

  lemma CharsOne(text: string)
    requires text != ""
    ensures [Text(text[0])] + Chars(text[1..]) == Chars(text)
  {
  }

  lemma DoubledOne(text: string, rest: string)
    requires text != ""
    ensures var s := Doubled(text) + rest;
            && s != "" && s[0] == text[0]
            && (if text[0] == '{' || text[0] == '}'
                then First(s[1..]) == text[0] && s[2..] == Doubled(text[1..]) + rest
                else s[1..] == Doubled(text[1..]) + rest)
  {
    var s, more := Doubled(text) + rest, Doubled(text[1..]) + rest;
    if text[0] == '{' || text[0] == '}' {
      assert s == [text[0], text[0]] + more;
    } else {
      assert s == [text[0]] + more;
    }
    hide Doubled;
  }

  lemma NothingBefore(more: Outcome<seq<Output>>)
    ensures Then([], more) == more
  {
    if more.Done? {
      assert [] + more.value == more.value;
    }
  }

  lemma ReadField(args: seq<Passed>, next: int, arg: Arg, spec: Option<SpecSyntax>, after: string)
    requires spec.Some? ==> GoodSpec(spec.value)
    ensures var s := if spec.Some? then ":" + AlignTail(spec.value, after) else "}" + after;
            ParseSpec(args, next, arg, s) ==
            var how := FieldMeant(args, next, arg, spec, after);
            if how.Done? then Done(At(how.value, after)) else Fail(how.message)
  {
    if spec.Some? {
      ReadSpec(args, next, arg, spec.value, after);
      hide ParseSpec, SpecMeant, AlignTail;
    } else {
      assert ("}" + after)[1..] == after;
    }
  }

  lemma RunFieldText(args: seq<Passed>, next: int, ref: Reference, spec: Option<SpecSyntax>, after: string)
    requires GoodPiece(Field(ref, spec))
    ensures Run(args, next, FieldText(ref, spec, after)) ==
            var r := Refer(args, next, RefMeant(ref));
            if r.Fail? then Fail(r.message)
            else
              var how := FieldMeant(args, r.value.next, r.value.arg, spec, after);
              if how.Fail? then Fail(how.message)
              else Then([Formatted(r.value.ref, r.value.arg, how.value)], Run(args, how.value.next, after))
  {
    var rest := if spec.Some? then ":" + AlignTail(spec.value, after) else "}" + after;
    var s := FieldText(ref, spec, after);
    assert s[1..] == RefText(ref) + rest;
    ReadReference(args, next, ref, rest);
    RunField(args, next, s);
    var r := Refer(args, next, RefMeant(ref));
    hide Run, ParseRef, Refer, FieldText, RefText, RefMeant;
    if r.Done? {
      ReadField(args, r.value.next, r.value.arg, spec, after);
    }
    hide ParseSpec, FieldMeant, AlignTail;
  }

  /** Formatting the text of any pieces gives what the pieces mean, errors included. */
  lemma {:induction false} RunRendered(args: seq<Passed>, next: int, pieces: seq<Piece>)
    requires forall piece <- pieces :: GoodPiece(piece)
    ensures Run(args, next, Render(pieces)) == Meant(args, next, pieces)
    decreases |pieces|
  {
    hide Run, Refer, RefMeant, FieldMeant, FieldText, Chars, Then, Doubled, GoodPiece;
    if pieces == [] {
      RunEnd(args, next);
    } else {
      var rest := Render(pieces[1..]);
      assert pieces[0] in pieces;
      match pieces[0]
      case Literal(text) =>
        LiteralIsText(text);
        RunLiteral(args, next, text, rest);
        RunRendered(args, next, pieces[1..]);
      case Field(ref, spec) =>
        RunFieldText(args, next, ref, spec, rest);
        var r := Refer(args, next, RefMeant(ref));
        if r.Done? && FieldMeant(args, r.value.next, r.value.arg, spec, rest).Done? {
          RunRendered(args, FieldMeant(args, r.value.next, r.value.arg, spec, rest).value.next, pieces[1..]);
        }
    }
  }

  lemma RunEnd(args: seq<Passed>, next: int)
    ensures Run(args, next, "") == Done([])
  {
  }

  lemma LiteralIsText(text: string)
    requires GoodPiece(Literal(text))
    ensures forall k :: 0 <= k < |text| ==> text[k] != '\0'
  {
  }

  /** Text with its braces doubled comes out as it was, without any argument. */
  lemma TextComesThrough(text: string)
    requires forall k :: 0 <= k < |text| ==> text[k] != '\0'
    ensures Run([], 0, Doubled(text)) == Done(Chars(text))
  {
    hide Run;
    RunLiteral([], 0, text, "");
    RunEnd([], 0);
    assert Doubled(text) + "" == Doubled(text) && Chars(text) + [] == Chars(text);
  }

  // ----- the empty specification --------------------------------------------------------------------------

  const EMPTY := SpecSyntax(None, AlignDefault, NoSign, false, false, Absent, Absent, '\0')

  /** `{:}` means the same as `{}` exactly when no alignment character comes right behind it. */
  lemma EmptySpec(args: seq<Passed>, next: int, arg: Arg, after: string)
    ensures ParseSpec(args, next, arg, ":}" + after) ==
            Done(At(Specified(DEFAULT.(align := AlignOf(First(after))), None, None, next), after))
    ensures ParseSpec(args, next, arg, ":}" + after) == ParseSpec(args, next, arg, "}" + after) <==>
            AlignOf(First(after)) == AlignDefault
  {
    ReadSpec(args, next, arg, EMPTY, after);
    ReadField(args, next, arg, None, after);
    EmptyTail(after);
    hide ParseSpec, AlignTail;
  }

  lemma EmptyTail(after: string)
    ensures ":" + AlignTail(EMPTY, after) == ":}" + after
  {
    hide KindTail;
    assert KindTail(EMPTY, after) == "}" + after by { EmptyKind(after); }
    assert AlignTail(EMPTY, after) == KindTail(EMPTY, after);
  }

  lemma EmptyKind(after: string)
    ensures KindTail(EMPTY, after) == "}" + after
  {
  }

  /** `{:}=` formats its argument with numeric alignment, and the `=` is written as well. */
  lemma StrayAlignment(arg: Arg)
    ensures Run([Passed(None, arg)], 0, "{:}=") ==
            Done([Formatted(Auto(0), arg, Specified(DEFAULT.(align := AlignNumeric), None, None, 1)), Text('=')])
  {
    var args := [Passed(None, arg)];
    var value := Formatted(Auto(0), arg, Specified(DEFAULT.(align := AlignNumeric), None, None, 1));
    StrayField();
    RunFieldText(args, 0, Implicit, Some(EMPTY), "=");
    EmptyMeant(args, 1, arg, "=");
    assert Refer(args, 0, Next) == Done(Referred(Auto(0), arg, 1));
    hide FieldMeant, Refer, FieldText;
    RunText(args, 1, "=");
    RunEnd(args, 1);
    hide Run;
    assert "="[1..] == "" && [Text('=')] + [] == [Text('=')];
    assert [value] + [Text('=')] == [value, Text('=')];
  }

  lemma EmptyMeant(args: seq<Passed>, next: int, arg: Arg, after: string)
    ensures FieldMeant(args, next, arg, Some(EMPTY), after) ==
            Done(Specified(DEFAULT.(align := AlignOf(First(after))), None, None, next))
  {
  }

  lemma StrayField()
    ensures FieldText(Implicit, Some(EMPTY), "=") == "{:}="
  {
    EmptyTail("=");
    hide AlignTail;
  }
}
