/** Which arguments a field's flags and precision go with, and what is said about the others. */
module FormatArguments {
  import opened Words
  import opened Wrappers
  import opened IntegerWriter
  import opened FormatParser

  ghost predicate IsTextual(arg: Arg) {
    arg.CStringArg? || arg.StringArg? || arg.WStringArg? || arg.PointerArg?
  }

  ghost predicate IsUnsigned(arg: Arg) {
    arg.UIntArg? || arg.ULongLongArg?
  }

  ghost predicate IsFloating(arg: Arg) {
    arg.DoubleArg? || arg.LongDoubleArg?
  }

  /** A specification that ends with its flags. */
  lemma FlagsOnly(args: seq<Passed>, next: int, arg: Arg, s: string, after: string)
    requires First(s) == ':'
    ensures var flags := ParseFlags(s[1..], arg);
            match flags
            case Fail(message) => ParseSpec(args, next, arg, s) == Fail(message)
            case Done(at) =>
              at.rest == "}" + after ==>
                ParseSpec(args, next, arg, s) ==
                Done(At(Specified(at.value.(width := 0), None, None, next), after))
  {
    hide ParseFlags;
  }

  lemma NoAlign(s: string, arg: Arg)
    requires s != "" && AlignOf(First(s)) == AlignDefault && AlignOf(First(s[1..])) == AlignDefault
    ensures ParseAlign(s, arg) == Done(At(DEFAULT, s))
  {
  }

  lemma Behind(c: char, after: string)
    ensures var s := ":" + [c] + "}" + after;
            First(s) == ':' && s[1..] == [c] + ("}" + after)
    ensures ([c] + ("}" + after))[1..] == "}" + after
  {
    assert ":" + [c] + "}" + after == ":" + ([c] + ("}" + after));
  }

  /** A sign flag needs a number whose type has a sign. */
  lemma SignFlag(args: seq<Passed>, next: int, arg: Arg, c: char, after: string)
    requires c == '+' || c == '-' || c == ' '
    ensures ParseSpec(args, next, arg, ":" + [c] + "}" + after) ==
            if IsTextual(arg) then Fail("format specifier '" + [c] + "' requires numeric argument")
            else if IsUnsigned(arg) then Fail("format specifier '" + [c] + "' requires signed argument")
            else
              Done(At(Specified(FormatSpec(0, ' ', AlignDefault, c != '-', c == '+', c == '-', false, -1, '\0'), None,
                                None, next), after))
  {
    Behind(c, after);
    FlagsOnly(args, next, arg, ":" + [c] + "}" + after, after);
    hide ParseSpec, ParseFlags;
    SignRead(arg, c, after);
  }

  lemma SignRead(arg: Arg, c: char, after: string)
    requires c == '+' || c == '-' || c == ' '
    ensures ParseFlags([c] + ("}" + after), arg) ==
            if IsTextual(arg) then Fail("format specifier '" + [c] + "' requires numeric argument")
            else if IsUnsigned(arg) then Fail("format specifier '" + [c] + "' requires signed argument")
            else
              Done(At(FormatSpec(0, ' ', AlignDefault, c != '-', c == '+', c == '-', false, -1, '\0'), "}" + after))
  {
    var s := [c] + ("}" + after);
    assert s[1..] == "}" + after;
    NoAlign(s, arg);
    hide ParseAlign;
  }

  /** The hash and zero flags and numeric alignment need a number. */
  lemma NumericFlag(args: seq<Passed>, next: int, arg: Arg, c: char, after: string)
    requires c == '#' || c == '0' || c == '='
    ensures ParseSpec(args, next, arg, ":" + [c] + "}" + after) ==
            if IsTextual(arg) then Fail("format specifier '" + [c] + "' requires numeric argument")
            else
              Done(At(Specified(FormatSpec(0, if c == '0' then '0' else ' ',
                                           if c == '#' then AlignDefault else AlignNumeric,
                                           false, false, false, c == '#', -1, '\0'), None, None, next), after))
  {
    Behind(c, after);
    FlagsOnly(args, next, arg, ":" + [c] + "}" + after, after);
    hide ParseSpec, ParseFlags;
    NumericRead(arg, c, after);
  }

  lemma NumericRead(arg: Arg, c: char, after: string)
    requires c == '#' || c == '0' || c == '='
    ensures ParseFlags([c] + ("}" + after), arg) ==
            if IsTextual(arg) then Fail("format specifier '" + [c] + "' requires numeric argument")
            else
              Done(At(FormatSpec(0, if c == '0' then '0' else ' ', if c == '#' then AlignDefault else AlignNumeric,
                                 false, false, false, c == '#', -1, '\0'), "}" + after))
  {
    var s := [c] + ("}" + after);
    assert s[1..] == "}" + after;
    if c == '=' {
      assert ParseAlign(s, arg) == Unless(NumericError(arg, '='), At(DEFAULT.(align := AlignNumeric), s[1..]));
    } else {
      NoAlign(s, arg);
    }
    hide ParseAlign;
  }

  /** The other alignments go with every argument. */
  lemma AlignFlag(args: seq<Passed>, next: int, arg: Arg, fill: char, after: string)
    requires fill != '{' && fill != '}' && fill != '\0'
    ensures ParseSpec(args, next, arg, ":" + [fill] + "<}" + after) ==
            Done(At(Specified(DEFAULT.(fill := fill, align := AlignLeft), None, None, next), after))
    ensures ParseSpec(args, next, arg, ":" + [fill] + ">}" + after) ==
            Done(At(Specified(DEFAULT.(fill := fill, align := AlignRight), None, None, next), after))
    ensures ParseSpec(args, next, arg, ":" + [fill] + "^}" + after) ==
            Done(At(Specified(DEFAULT.(fill := fill, align := AlignCenter), None, None, next), after))
  {
    Filled(args, next, arg, fill, '<', after);
    Filled(args, next, arg, fill, '>', after);
    Filled(args, next, arg, fill, '^', after);
    hide *;
    assert ":" + [fill] + ['<', '}'] + after == ":" + [fill] + "<}" + after;
    assert ":" + [fill] + ['>', '}'] + after == ":" + [fill] + ">}" + after;
    assert ":" + [fill] + ['^', '}'] + after == ":" + [fill] + "^}" + after;
  }

  lemma Filled(args: seq<Passed>, next: int, arg: Arg, fill: char, c: char, after: string)
    requires fill != '{' && fill != '}' && fill != '\0' && (c == '<' || c == '>' || c == '^')
    ensures ParseSpec(args, next, arg, ":" + [fill] + [c, '}'] + after) ==
            Done(At(Specified(DEFAULT.(fill := fill,
                                       align := if c == '<' then AlignLeft else if c == '>' then AlignRight
                                                else AlignCenter), None, None, next), after))
  {
    var s := ":" + [fill] + [c, '}'] + after;
    assert s[1..] == [fill, c, '}'] + after && First(s) == ':';
    FlagsOnly(args, next, arg, s, after);
    hide ParseSpec, ParseFlags;
    FillRead(arg, fill, c, after);
  }

  lemma FillRead(arg: Arg, fill: char, c: char, after: string)
    requires fill != '{' && fill != '}' && fill != '\0' && (c == '<' || c == '>' || c == '^')
    ensures ParseFlags([fill, c, '}'] + after, arg) ==
            Done(At(DEFAULT.(fill := fill,
                             align := if c == '<' then AlignLeft else if c == '>' then AlignRight else AlignCenter),
                    "}" + after))
  {
    var s := [fill, c, '}'] + after;
    assert s[1..] == [c, '}'] + after && s[2..] == "}" + after;
    assert ParseAlign(s, arg) == Done(At(DEFAULT.(fill := fill, align := AlignOf(c)), s[2..]));
    hide ParseAlign;
  }

  /** A precision goes with floating point and text. */
  lemma PrecisionFlag(args: seq<Passed>, next: int, arg: Arg, after: string)
    ensures ParseSpec(args, next, arg, ":.7}" + after) ==
            if arg.PointerArg? then Fail("precision not allowed in pointer format specifier")
            else if IsFloating(arg) || IsTextual(arg) then
              Done(At(Specified(DEFAULT.(precision := 7), None, None, next), after))
            else Fail("precision not allowed in integer format specifier")
  {
    var s := ":.7}" + after;
    assert First(s) == ':' && s[1..] == ".7}" + after && s[1..][1..] == "7}" + after;
    NoFlags(args, next, arg, s);
    hide ParseSpec, ParseTail;
    SevenTail(args, next, arg, after);
  }

  lemma NoFlags(args: seq<Passed>, next: int, arg: Arg, s: string)
    requires First(s) == ':' && First(s[1..]) == '.' && AlignOf(First(s[1..][1..])) == AlignDefault
    ensures ParseSpec(args, next, arg, s) == ParseTail(args, s[1..], arg, Specified(DEFAULT, None, None, next))
  {
    NoAlign(s[1..], arg);
    hide ParseAlign;
    assert ParseFlags(s[1..], arg) == Done(At(DEFAULT, s[1..]));
    hide ParseFlags;
    assert ParseWidth(args, next, s[1..]) == Done(At(Count(0, None, next), s[1..]));
    hide ParseWidth, ParseTail;
  }

  lemma SevenTail(args: seq<Passed>, next: int, arg: Arg, after: string)
    ensures ParseTail(args, ".7}" + after, arg, Specified(DEFAULT, None, None, next)) ==
            if arg.PointerArg? then Fail("precision not allowed in pointer format specifier")
            else if IsFloating(arg) || IsTextual(arg) then
              Done(At(Specified(DEFAULT.(precision := 7), None, None, next), after))
            else Fail("precision not allowed in integer format specifier")
  {
    SevenPart(args, next, arg, after);
    hide ParsePrecisionPart;
    Precisions(arg);
    BraceOnly(after, Specified(DEFAULT.(precision := 7), None, None, next));
    hide ParseKind, Closed, PrecisionError;
  }

  lemma Precisions(arg: Arg)
    ensures PrecisionError(arg) ==
            if arg.PointerArg? then Some("precision not allowed in pointer format specifier")
            else if IsFloating(arg) || IsTextual(arg) then None
            else Some("precision not allowed in integer format specifier")
  {
  }

  lemma BraceOnly(after: string, sp: Specified)
    ensures ParseKind("}" + after, sp) == At(sp, "}" + after)
    ensures Closed("}" + after, sp) == Done(At(sp, after))
  {
    assert ("}" + after)[1..] == after;
  }

  lemma SevenPart(args: seq<Passed>, next: int, arg: Arg, after: string)
    ensures ParsePrecisionPart(args, ".7}" + after, arg, Specified(DEFAULT, None, None, next)) ==
            Unless(PrecisionError(arg), At(Specified(DEFAULT.(precision := 7), None, None, next), "}" + after))
  {
    var s := ".7}" + after;
    assert s[1..] == "7}" + after && First(s) == '.';
    SevenRead(args, next, after);
    hide ParsePrecision, PrecisionError;
  }

  lemma SevenRead(args: seq<Passed>, next: int, after: string)
    ensures ParsePrecision(args, next, "7}" + after) == Done(At(Count(7, None, next), "}" + after))
  {
    var s := "7}" + after;
    assert s[1..] == "}" + after;
    assert Accumulate(0, s) == Accumulate(7, s[1..]) == At(7, s[1..]);
  }

  // ----- characters and refusals --------------------------------------------------------------------------

  ghost predicate Codes(c: char, first: int, last: int) {
    first <= c as int <= last
  }

  /** The characters of numbers, names and alignments, by their codes. */
  lemma Characters(c: char)
    ensures IsDigit(c) <==> Codes(c, 48, 57)
    ensures IsNameStart(c) <==> Codes(c, 65, 90) || Codes(c, 97, 122) || c as int == 95
    ensures IsNameChar(c) <==> Codes(c, 48, 57) || Codes(c, 65, 90) || Codes(c, 97, 122) || c as int == 95
    ensures AlignOf(c) == AlignLeft <==> c as int == 60
    ensures AlignOf(c) == AlignNumeric <==> c as int == 61
    ensures AlignOf(c) == AlignRight <==> c as int == 62
    ensures AlignOf(c) == AlignCenter <==> c as int == 94
    ensures AlignOf(c) == AlignDefault <==> c as int !in {60, 61, 62, 94}
  {
  }

  /** A closing brace has to be doubled outside a field. */
  lemma Unmatched(args: seq<Passed>, next: int, after: string)
    requires First(after) != '}'
    ensures Run(args, next, "}" + after) == Fail("unmatched '}' in format string")
  {
    assert ("}" + after)[1..] == after;
  }

  /** A field that is not closed, with its argument there and without. */
  lemma Unclosed(args: seq<Passed>, next: int)
    requires next >= 0
    ensures Run(args, next, "{") ==
            Fail(if next < |args| then "missing '}' in format string" else "invalid format string")
  {
    var s := "{";
    assert s[1..] == "";
    assert ParseRef(args, next, "") == Referring(Refer(args, next, Next), "");
    RunField(args, next, s);
    hide Run, ParseRef;
  }

  /** An opening brace is no fill, and a full stop announces a precision. */
  lemma SpecRefusals(args: seq<Passed>, next: int, arg: Arg, c: char, after: string)
    requires !IsDigit(c) && c != '{'
    ensures ParseSpec(args, next, arg, ":{<" + after) == Fail("invalid fill character '{'")
    ensures AlignOf(c) == AlignDefault ==>
              ParseSpec(args, next, arg, ":." + [c] + after) == Fail("missing precision specifier")
  {
    BraceFill(args, next, arg, after);
    if AlignOf(c) == AlignDefault {
      NoPrecision(args, next, arg, c, after);
    }
  }

  lemma BraceFill(args: seq<Passed>, next: int, arg: Arg, after: string)
    ensures ParseSpec(args, next, arg, ":{<" + after) == Fail("invalid fill character '{'")
  {
    var s := ":{<" + after;
    assert s[1..] == "{<" + after && s[1..][1..] == "<" + after;
    assert ParseFlags(s[1..], arg) == Fail("invalid fill character '{'");
    hide ParseFlags;
  }

  lemma NoPrecision(args: seq<Passed>, next: int, arg: Arg, c: char, after: string)
    requires !IsDigit(c) && c != '{' && AlignOf(c) == AlignDefault
    ensures ParseSpec(args, next, arg, ":." + [c] + after) == Fail("missing precision specifier")
  {
    var s := ":." + [c] + after;
    assert First(s) == ':' && s[1..] == "." + ([c] + after) && s[1..][1..] == [c] + after;
    NoFlags(args, next, arg, s);
    hide ParseSpec;
    assert ParsePrecision(args, next, s[1..][1..]) == Fail("missing precision specifier");
    hide ParsePrecision;
  }
}
