/** fmt's format-string parser: argument references, format specifications and the loop over the
    text. A C string is the part of it from the cursor on. */
module FormatParser {
  import opened Words
  import opened Wrappers
  import opened Numerals
  import opened IntegerWriter

  /** A thrown FormatError, or a result. */
  datatype Outcome<T> = Done(value: T) | Fail(message: string) {
    predicate IsFailure() {
      Fail?
    }

    function PropagateFailure<U>(): Outcome<U>
      requires Fail?
    {
      Fail(message)
    }

    function Extract(): T
      requires Done?
    {
      value
    }
  }

  // ----- arguments ----------------------------------------------------------------------------------------

  datatype Arg =
    | IntArg(i: int)
    | UIntArg(u: nat)
    | LongLongArg(i: int)
    | ULongLongArg(u: nat)
    | BoolArg(b: bool)
    | CharArg(c: char)
    | DoubleArg(r: real)
    | LongDoubleArg(r: real)
    | CStringArg(s: string)
    | StringArg(s: string)
    | WStringArg(s: string)
    | PointerArg(address: nat)

  predicate IsInteger(arg: Arg) {
    arg.IntArg? || arg.UIntArg? || arg.LongLongArg? || arg.ULongLongArg? || arg.BoolArg? || arg.CharArg?
  }

  predicate IsNumeric(arg: Arg) {
    IsInteger(arg) || arg.DoubleArg? || arg.LongDoubleArg?
  }

  /** An argument as passed to `format`, perhaps under a name. */
  datatype Passed = Passed(name: Option<string>, arg: Arg)

  datatype Ref = Auto(index: nat) | Manual(index: nat) | Named(name: string)

  function FindNamed(args: seq<Passed>, name: string): Option<Arg> {
    if args == [] then None
    else if args[0].name == Some(name) then Some(args[0].arg)
    else FindNamed(args[1..], name)
  }

  function Lookup(args: seq<Passed>, ref: Ref): Option<Arg> {
    match ref
    case Named(name) => FindNamed(args, name)
    case _ => if ref.index < |args| then Some(args[ref.index].arg) else None
  }

  /** A reference as written: nothing, an index or a name. */
  datatype RefSyntax = Next | Index(n: nat) | Name(name: string)

  datatype Referred = Referred(ref: Ref, arg: Arg, next: int)

  /** Looks a reference up. `next` is the index of the next automatic argument, or -1 once arguments are
      chosen by hand. */
  function Refer(args: seq<Passed>, next: int, r: RefSyntax): Outcome<Referred> {
    if r.Next? then
      if next < 0 then Fail("cannot switch from manual to automatic argument indexing")
      else Fetch(args, Auto(next), next + 1)
    else if next > 0 then Fail("cannot switch from automatic to manual argument indexing")
    else Fetch(args, if r.Index? then Manual(r.n) else Named(r.name), -1)
  }

  function Fetch(args: seq<Passed>, ref: Ref, next: int): Outcome<Referred> {
    match Lookup(args, ref)
    case Some(arg) => Done(Referred(ref, arg, next))
    case None => Fail(if ref.Named? then "argument not found" else "argument index out of range")
  }

  // ----- the cursor ---------------------------------------------------------------------------------------

  /** The character under the cursor; NUL at the end. */
  function First(s: string): char {
    if s == "" then '\0' else s[0]
  }

  predicate IsDigit(c: char) {
    '0' <= c <= '9'
  }

  predicate IsNameStart(c: char) {
    'a' <= c <= 'z' || 'A' <= c <= 'Z' || c == '_'
  }

  predicate IsNameChar(c: char) {
    IsNameStart(c) || IsDigit(c)
  }

  datatype Cursor<T> = At(value: T, rest: string)

  /** Decimal accumulation in an unsigned word, given up when the word gets smaller. */
  function Accumulate(value: nat, s: string): (r: Cursor<nat>)
    ensures |r.rest| <= |s| && (IsDigit(First(s)) ==> |r.rest| < |s|)
    decreases |s|
  {
    if !IsDigit(First(s)) then At(value, s)
    else
      var larger := (value * 10 + DigitValue(s[0])) % TWO32;
      if larger < value then At(UINT_MAX, s[1..]) else Accumulate(larger, s[1..])
  }

  function ParseInt(s: string): (r: Outcome<Cursor<nat>>)
    ensures r.Done? ==> |r.value.rest| <= |s| && (IsDigit(First(s)) ==> |r.value.rest| < |s|)
  {
    var end := Accumulate(0, s);
    if end.value > INT_MAX then Fail("number is too big") else Done(end)
  }

  method ParseNonnegativeInt(s: string) returns (r: Outcome<Cursor<nat>>)
    requires IsDigit(First(s))
    ensures r == ParseInt(s)
  {
    var rest := s;
    var value: nat := 0;
    while true
      invariant IsDigit(First(rest)) && Accumulate(value, rest) == Accumulate(0, s)
      decreases |rest|
    {
      var larger := (value * 10 + DigitValue(rest[0])) % TWO32;
      rest := rest[1..];
      if larger < value {
        value := UINT_MAX;
        break;
      }
      value := larger;
      if !IsDigit(First(rest)) { break; }
    }
    if value > INT_MAX { return Fail("number is too big"); }
    return Done(At(value, rest));
  }

  function TakeName(s: string): (name: string)
    ensures name <= s
  {
    if IsNameChar(First(s)) then [s[0]] + TakeName(s[1..]) else ""
  }

  lemma NameStep(s: string, n: nat)
    requires n < |s| && IsNameChar(s[n])
    ensures s[..n] + TakeName(s[n..]) == s[..n + 1] + TakeName(s[n + 1..])
  {
    assert s[n..][1..] == s[n + 1..] && First(s[n..]) == s[n];
    assert s[..n + 1] == s[..n] + [s[n]];
    var more := TakeName(s[n + 1..]);
    assert TakeName(s[n..]) == [s[n]] + more;
    hide TakeName;
    assert s[..n] + ([s[n]] + more) == s[..n] + [s[n]] + more;
  }

  lemma NameEnd(s: string, n: nat)
    requires n <= |s| && !IsNameChar(First(s[n..]))
    ensures s[..n] + TakeName(s[n..]) == s[..n]
  {
  }

  /** A reference and what it refers to. An error other than in a name is reported as such only where the
      reference ends properly. */
  function ParseRef(args: seq<Passed>, next: int, s: string): (r: Outcome<Cursor<Referred>>)
    ensures r.Done? ==> |r.value.rest| <= |s|
  {
    if IsNameStart(First(s)) then
      var referred :- Refer(args, next, Name(TakeName(s)));
      Done(At(referred, s[|TakeName(s)|..]))
    else if IsDigit(First(s)) then
      var index :- ParseInt(s);
      Referring(Refer(args, next, Index(index.value)), index.rest)
    else
      Referring(Refer(args, next, Next), s)
  }

  lemma ReferenceByName(args: seq<Passed>, next: int, s: string)
    requires IsNameStart(First(s))
    ensures var found := Refer(args, next, Name(TakeName(s)));
            ParseRef(args, next, s) ==
            if found.Done? then Done(At(found.value, s[|TakeName(s)|..])) else Fail(found.message)
  {
  }

  function Referring(referred: Outcome<Referred>, s: string): (r: Outcome<Cursor<Referred>>)
    ensures r.Done? ==> r.value.rest == s
  {
    match referred
    case Done(value) => Done(At(value, s))
    case Fail(message) => Fail(if First(s) != '}' && First(s) != ':' then "invalid format string" else message)
  }

  // ----- format specifications ----------------------------------------------------------------------------

  const DEFAULT := FormatSpec(0, ' ', AlignDefault, false, false, false, false, -1, '\0')

  function AlignOf(c: char): Alignment {
    match c
    case '<' => AlignLeft
    case '>' => AlignRight
    case '=' => AlignNumeric
    case '^' => AlignCenter
    case _ => AlignDefault
  }

  function NumericError(arg: Arg, c: char): Option<string> {
    if IsNumeric(arg) then None else Some("format specifier '" + [c] + "' requires numeric argument")
  }

  function SignError(arg: Arg, c: char): Option<string> {
    if !IsNumeric(arg) then NumericError(arg, c)
    else if arg.UIntArg? || arg.ULongLongArg? then Some("format specifier '" + [c] + "' requires signed argument")
    else None
  }

  function Unless<T>(error: Option<string>, value: T): Outcome<T> {
    if error.Some? then Fail(error.value) else Done(value)
  }

  /** Fill and alignment. A fill of '}' is taken for the end of the field, but the alignment after it has
      been noted. */
  function ParseAlign(s: string, arg: Arg): (r: Outcome<Cursor<FormatSpec>>)
    ensures r.Done? ==> |r.value.rest| <= |s|
  {
    if First(s) == '\0' then Done(At(DEFAULT, s))
    else
      var second, first := AlignOf(First(s[1..])), AlignOf(s[0]);
      if second != AlignDefault then
        if s[0] == '}' then Done(At(DEFAULT.(align := second), s))
        else if s[0] == '{' then Fail("invalid fill character '{'")
        else Unless(if second == AlignNumeric then NumericError(arg, '=') else None,
                    At(DEFAULT.(align := second, fill := s[0]), s[2..]))
      else if first != AlignDefault then
        Unless(if first == AlignNumeric then NumericError(arg, '=') else None,
               At(DEFAULT.(align := first), s[1..]))
      else Done(At(DEFAULT, s))
  }

  function ParseSign(s: string, arg: Arg, spec: FormatSpec): (r: Outcome<Cursor<FormatSpec>>)
    ensures r.Done? ==> |r.value.rest| <= |s|
  {
    match First(s)
    case '+' => Unless(SignError(arg, '+'), At(spec.(sign := true, plus := true), s[1..]))
    case '-' => Unless(SignError(arg, '-'), At(spec.(minus := true), s[1..]))
    case ' ' => Unless(SignError(arg, ' '), At(spec.(sign := true), s[1..]))
    case _ => Done(At(spec, s))
  }

  function ParseHash(s: string, arg: Arg, spec: FormatSpec): (r: Outcome<Cursor<FormatSpec>>)
    ensures r.Done? ==> |r.value.rest| <= |s|
  {
    if First(s) == '#' then Unless(NumericError(arg, '#'), At(spec.(hash := true), s[1..])) else Done(At(spec, s))
  }

  function ParseZero(s: string, arg: Arg, spec: FormatSpec): (r: Outcome<Cursor<FormatSpec>>)
    ensures r.Done? ==> |r.value.rest| <= |s|
  {
    if First(s) == '0'
    then Unless(NumericError(arg, '0'), At(spec.(align := AlignNumeric, fill := '0'), s[1..]))
    else Done(At(spec, s))
  }

  function ParseFlags(s: string, arg: Arg): (r: Outcome<Cursor<FormatSpec>>)
    ensures r.Done? ==> |r.value.rest| <= |s|
  {
    var aligned :- ParseAlign(s, arg);
    var signed :- ParseSign(aligned.rest, arg, aligned.value);
    var hashed :- ParseHash(signed.rest, arg, signed.value);
    ParseZero(hashed.rest, arg, hashed.value)
  }

  /** A width or precision: its value, and where it came from if not from the text. */
  datatype Count = Count(n: nat, ref: Option<Ref>, next: int)

  /** The value of an argument used as width or precision. */
  function CountValue(arg: Arg, what: string): Outcome<nat> {
    match arg
    case IntArg(i) => if i < 0 then Fail("negative " + what) else Bounded(i)
    case LongLongArg(i) => if i < 0 then Fail("negative " + what) else Bounded(i)
    case UIntArg(u) => Bounded(u)
    case ULongLongArg(u) => Bounded(u)
    case _ => Fail(what + " is not integer")
  }

  function Bounded(n: nat): Outcome<nat> {
    if n > INT_MAX then Fail("number is too big") else Done(n)
  }

  /** A width or precision given by an argument, after its opening brace. */
  function ParseDynamic(args: seq<Passed>, next: int, s: string, what: string): (r: Outcome<Cursor<Count>>)
    ensures r.Done? ==> |r.value.rest| <= |s|
  {
    var at :- ParseRef(args, next, s);
    if First(at.rest) != '}' then Fail("invalid format string")
    else
      var n :- CountValue(at.value.arg, what);
      Done(At(Count(n, Some(at.value.ref), at.value.next), at.rest[1..]))
  }

  function ParseWidth(args: seq<Passed>, next: int, s: string): (r: Outcome<Cursor<Count>>)
    ensures r.Done? ==> |r.value.rest| <= |s|
  {
    if IsDigit(First(s)) then
      var at :- ParseInt(s);
      Done(At(Count(at.value, None, next), at.rest))
    else if First(s) == '{' then ParseDynamic(args, next, s[1..], "width")
    else Done(At(Count(0, None, next), s))
  }

  /** The precision after its point. */
  function ParsePrecision(args: seq<Passed>, next: int, s: string): (r: Outcome<Cursor<Count>>)
    ensures r.Done? ==> |r.value.rest| <= |s|
  {
    if IsDigit(First(s)) then
      var at :- ParseInt(s);
      Done(At(Count(at.value, None, next), at.rest))
    else if First(s) == '{' then ParseDynamic(args, next, s[1..], "precision")
    else Fail("missing precision specifier")
  }

  function PrecisionError(arg: Arg): Option<string> {
    if arg.PointerArg? then Some("precision not allowed in pointer format specifier")
    else if IsInteger(arg) then Some("precision not allowed in integer format specifier")
    else None
  }

  /** A field's specification and the references in it. */
  datatype Specified = Specified(spec: FormatSpec, width: Option<Ref>, precision: Option<Ref>, next: int)

  function ParsePrecisionPart(args: seq<Passed>, s: string, arg: Arg, sp: Specified): (r: Outcome<Cursor<Specified>>)
    ensures r.Done? ==> |r.value.rest| <= |s|
  {
    if First(s) != '.' then Done(At(sp, s))
    else
      var at :- ParsePrecision(args, sp.next, s[1..]);
      Unless(PrecisionError(arg),
             At(sp.(spec := sp.spec.(precision := at.value.n), precision := at.value.ref, next := at.value.next),
                at.rest))
  }

  function ParseKind(s: string, sp: Specified): (r: Cursor<Specified>)
    ensures |r.rest| <= |s|
  {
    if First(s) != '}' && First(s) != '\0' then At(sp.(spec := sp.spec.(kind := s[0])), s[1..]) else At(sp, s)
  }

  /** The part of a field after the reference, its closing brace included. */
  function ParseSpec(args: seq<Passed>, next: int, arg: Arg, s: string): (r: Outcome<Cursor<Specified>>)
    ensures r.Done? ==> |r.value.rest| < |s|
  {
    if First(s) != ':' then Closed(s, Specified(DEFAULT, None, None, next))
    else
      var flagged :- ParseFlags(s[1..], arg);
      var width :- ParseWidth(args, next, flagged.rest);
      var sized := Specified(flagged.value.(width := width.value.n), width.value.ref, None, width.value.next);
      ParseTail(args, width.rest, arg, sized)
  }

  /** What follows the width. */
  function ParseTail(args: seq<Passed>, s: string, arg: Arg, sized: Specified): (r: Outcome<Cursor<Specified>>)
    ensures r.Done? ==> |r.value.rest| < |s|
  {
    var precise :- ParsePrecisionPart(args, s, arg, sized);
    var typed := ParseKind(precise.rest, precise.value);
    Closed(typed.rest, typed.value)
  }

  function Closed(s: string, sp: Specified): (r: Outcome<Cursor<Specified>>)
    ensures r.Done? ==> |r.value.rest| < |s|
  {
    if First(s) != '}' then Fail("missing '}' in format string") else Done(At(sp, s[1..]))
  }

  // ----- the whole string ---------------------------------------------------------------------------------

  /** What the formatter hands to the writer: a character of text, or an argument to be formatted. */
  datatype Output = Text(c: char) | Formatted(ref: Ref, arg: Arg, how: Specified)

  function Chars(s: string): (out: seq<Output>)
    ensures |out| == |s|
  {
    seq(|s|, i requires 0 <= i < |s| => Text(s[i]))
  }

  function Then(out: seq<Output>, more: Outcome<seq<Output>>): Outcome<seq<Output>> {
    if more.Done? then Done(out + more.value) else more
  }

  /** What a format string produces from the cursor on. */
  function Run(args: seq<Passed>, next: int, s: string): Outcome<seq<Output>>
    decreases |s|
  {
    if First(s) == '\0' then Done([])
    else if s[0] != '{' && s[0] != '}' then Then([Text(s[0])], Run(args, next, s[1..]))
    else if First(s[1..]) == s[0] then Then([Text(s[0])], Run(args, next, s[2..]))
    else if s[0] == '}' then Fail("unmatched '}' in format string")
    else
      var referred :- ParseRef(args, next, s[1..]);
      var how :- ParseSpec(args, referred.value.next, referred.value.arg, referred.rest);
      Then([Formatted(referred.value.ref, referred.value.arg, how.value)], Run(args, how.value.next, how.rest))
  }

  lemma ThenThen(a: seq<Output>, b: seq<Output>, more: Outcome<seq<Output>>)
    ensures Then(a, Then(b, more)) == Then(a + b, more)
  {
    if more.Done? {
      assert a + (b + more.value) == a + b + more.value;
    }
  }

  class Formatter {
    const args: seq<Passed>
    var nextArgIndex: int
    var out: seq<Output>

    constructor (args: seq<Passed>)
      ensures this.args == args && nextArgIndex == 0 && out == []
    {
      this.args, nextArgIndex, out := args, 0, [];
    }

    method DoGetArg(ref: Ref) returns (r: Outcome<Arg>)
      requires !ref.Named?
      ensures r == match Lookup(args, ref) case Some(arg) => Done(arg) case None => Fail("argument index out of range")
    {
      if ref.index < |args| { return Done(args[ref.index].arg); }
      return Fail("argument index out of range");
    }

    method NextArg() returns (r: Outcome<Referred>)
      modifies this`nextArgIndex
      ensures r == Refer(args, old(nextArgIndex), Next)
      ensures r.Done? ==> nextArgIndex == r.value.next
    {
      if nextArgIndex >= 0 {
        var ref := Auto(nextArgIndex);
        nextArgIndex := nextArgIndex + 1;
        var arg :- DoGetArg(ref);
        return Done(Referred(ref, arg, nextArgIndex));
      }
      return Fail("cannot switch from manual to automatic argument indexing");
    }

    method CheckNoAutoIndex() returns (r: Outcome<int>)
      modifies this`nextArgIndex
      ensures old(nextArgIndex) > 0 ==>
                && r == Fail("cannot switch from automatic to manual argument indexing")
                && nextArgIndex == old(nextArgIndex)
      ensures old(nextArgIndex) <= 0 ==> r == Done(-1) && nextArgIndex == -1
    {
      if nextArgIndex > 0 { return Fail("cannot switch from automatic to manual argument indexing"); }
      nextArgIndex := -1;
      return Done(-1);
    }

    method GetArg(index: nat) returns (r: Outcome<Referred>)
      modifies this`nextArgIndex
      ensures r == Refer(args, old(nextArgIndex), Index(index))
      ensures r.Done? ==> nextArgIndex == r.value.next
    {
      var next :- CheckNoAutoIndex();
      var arg :- DoGetArg(Manual(index));
      return Done(Referred(Manual(index), arg, next));
    }

    method GetNamedArg(name: string) returns (r: Outcome<Referred>)
      modifies this`nextArgIndex
      ensures r == Refer(args, old(nextArgIndex), Name(name))
      ensures r.Done? ==> nextArgIndex == r.value.next
    {
      var next :- CheckNoAutoIndex();
      var i := 0;
      while i < |args|
        invariant i <= |args| && FindNamed(args, name) == FindNamed(args[i..], name)
      {
        if args[i].name == Some(name) { return Done(Referred(Named(name), args[i].arg, next)); }
        i := i + 1;
      }
      return Fail("argument not found");
    }

    method ParseArgIndex(s: string) returns (r: Outcome<Cursor<Referred>>)
      requires !IsNameStart(First(s))
      modifies this`nextArgIndex
      ensures r == ParseRef(args, old(nextArgIndex), s)
      ensures r.Done? ==> nextArgIndex == r.value.value.next
    {
      var rest := s;
      var referred: Outcome<Referred>;
      if !IsDigit(First(s)) {
        referred := NextArg();
      } else {
        var index :- ParseNonnegativeInt(s);
        rest := index.rest;
        referred := GetArg(index.value);
      }
      if referred.Fail? {
        return Fail(if First(rest) != '}' && First(rest) != ':' then "invalid format string" else referred.message);
      }
      return Done(At(referred.value, rest));
    }

    method ParseArgName(s: string) returns (r: Outcome<Cursor<Referred>>)
      requires IsNameStart(First(s))
      modifies this`nextArgIndex
      ensures r == ParseRef(args, old(nextArgIndex), s)
      ensures r.Done? ==> nextArgIndex == r.value.value.next
    {
      hide TakeName, Refer;
      var n := 0;
      assert s[0..] == s;
      while true
        invariant n < |s| && IsNameChar(s[n]) && TakeName(s) == s[..n] + TakeName(s[n..])
        invariant nextArgIndex == old(nextArgIndex)
        decreases |s| - n
      {
        NameStep(s, n);
        n := n + 1;
        if !IsNameChar(First(s[n..])) { break; }
      }
      NameEnd(s, n);
      ReferenceByName(args, nextArgIndex, s);
      var referred :- GetNamedArg(s[..n]);
      return Done(At(referred, s[n..]));
    }

    method ParseReference(s: string) returns (r: Outcome<Cursor<Referred>>)
      modifies this`nextArgIndex
      ensures r == ParseRef(args, old(nextArgIndex), s)
      ensures r.Done? ==> nextArgIndex == r.value.value.next
    {
      if IsNameStart(First(s)) {
        r := ParseArgName(s);
      } else {
        r := ParseArgIndex(s);
      }
    }

    /** A width or precision taken from an argument. */
    method ParseCountArg(s: string, what: string) returns (r: Outcome<Cursor<Count>>)
      modifies this`nextArgIndex
      ensures r == ParseDynamic(args, old(nextArgIndex), s, what)
      ensures r.Done? ==> nextArgIndex == r.value.value.next
    {
      var at :- ParseReference(s);
      if First(at.rest) != '}' { return Fail("invalid format string"); }
      var n :- CountValue(at.value.arg, what);
      return Done(At(Count(n, Some(at.value.ref), nextArgIndex), at.rest[1..]));
    }

    method ParseWidthField(s: string) returns (r: Outcome<Cursor<Count>>)
      modifies this`nextArgIndex
      ensures r == ParseWidth(args, old(nextArgIndex), s)
      ensures r.Done? ==> nextArgIndex == r.value.value.next
    {
      if IsDigit(First(s)) {
        var at :- ParseNonnegativeInt(s);
        return Done(At(Count(at.value, None, nextArgIndex), at.rest));
      }
      if First(s) == '{' {
        r := ParseCountArg(s[1..], "width");
        return;
      }
      return Done(At(Count(0, None, nextArgIndex), s));
    }

    method ParsePrecisionField(s: string) returns (r: Outcome<Cursor<Count>>)
      modifies this`nextArgIndex
      ensures r == ParsePrecision(args, old(nextArgIndex), s)
      ensures r.Done? ==> nextArgIndex == r.value.value.next
    {
      if IsDigit(First(s)) {
        var at :- ParseNonnegativeInt(s);
        return Done(At(Count(at.value, None, nextArgIndex), at.rest));
      }
      if First(s) == '{' {
        r := ParseCountArg(s[1..], "precision");
        return;
      }
      return Fail("missing precision specifier");
    }

    /** A field after its reference: the specification is filled in step by step. */
    method FormatField(s: string, arg: Arg) returns (r: Outcome<Cursor<Specified>>)
      modifies this`nextArgIndex
      ensures r == ParseSpec(args, old(nextArgIndex), arg, s)
      ensures r.Done? ==> nextArgIndex == r.value.value.next
    {
      hide ParseFlags, ParseWidth, ParseTail;
      var rest := s;
      var how := Specified(DEFAULT, None, None, nextArgIndex);
      if First(rest) == ':' {
        var flagged :- ParseFlags(rest[1..], arg);
        var width :- ParseWidthField(flagged.rest);
        how := Specified(flagged.value.(width := width.value.n), width.value.ref, None, nextArgIndex);
        r := FormatTail(width.rest, arg, how);
        return;
      }
      if First(rest) != '}' { return Fail("missing '}' in format string"); }
      return Done(At(how, rest[1..]));
    }

    /** The field from its precision on. */
    method FormatTail(s: string, arg: Arg, sized: Specified) returns (r: Outcome<Cursor<Specified>>)
      requires sized.next == nextArgIndex
      modifies this`nextArgIndex
      ensures r == ParseTail(args, s, arg, sized)
      ensures r.Done? ==> nextArgIndex == r.value.value.next
    {
      hide ParsePrecision, PrecisionError;
      var how, rest := sized, s;
      if First(rest) == '.' {
        var at :- ParsePrecisionField(rest[1..]);
        how := how.(spec := how.spec.(precision := at.value.n), precision := at.value.ref, next := nextArgIndex);
        rest := at.rest;
        if PrecisionError(arg).Some? { return Fail(PrecisionError(arg).value); }
      }
      if First(rest) != '}' && First(rest) != '\0' {
        how, rest := how.(spec := how.spec.(kind := rest[0])), rest[1..];
      }
      if First(rest) != '}' { return Fail("missing '}' in format string"); }
      return Done(At(how, rest[1..]));
    }

    method Write(start: string, s: string)
      requires |s| <= |start|
      modifies this`out
      ensures out == old(out) + Chars(start[..|start| - |s|])
    {
      if |start| != |s| { out := out + Chars(start[..|start| - |s|]); }
    }

    /** A field behind its opening brace is parsed and handed on; returns what follows it. */
    method FormatNext(s: string) returns (r: Outcome<string>)
      requires First(s) != '{'
      modifies this
      ensures r.Fail? ==> Run(args, old(nextArgIndex), "{" + s) == Fail(r.message) && out == old(out)
      ensures r.Done? ==>
                && |r.value| < |s| && old(out) <= out
                && Then(old(out), Run(args, old(nextArgIndex), "{" + s)) == Then(out, Run(args, nextArgIndex, r.value))
    {
      assert ("{" + s)[1..] == s;
      RunField(args, nextArgIndex, "{" + s);
      hide Run, ParseRef, ParseSpec, Then;
      var referred := ParseReference(s);
      if referred.Fail? { return Fail(referred.message); }
      var how := FormatField(referred.value.rest, referred.value.value.arg);
      if how.Fail? { return Fail(how.message); }
      var value := Formatted(referred.value.value.ref, referred.value.value.arg, how.value.value);
      ThenThen(out, [value], Run(args, nextArgIndex, how.value.rest));
      out := out + [value];
      return Done(how.value.rest);
    }

    /** Text is written when a brace or the end is met; fields are parsed and handed on. */
    method Format(format: string) returns (error: Option<string>)
      modifies this
      ensures error.Some? ==> Then(old(out), Run(args, old(nextArgIndex), format)) == Fail(error.value)
      ensures error.None? ==> Then(old(out), Run(args, old(nextArgIndex), format)) == Done(out)
      ensures old(out) <= out
    {
      hide *;
      ghost var whole := Then(out, Run(args, nextArgIndex, format));
      var s, start := format, format;
      NothingPending(out);
      while First(s) != '\0'
        invariant |s| <= |start| && s == start[|start| - |s|..] && old(out) <= out
        invariant Then(out + Chars(start[..|start| - |s|]), Run(args, nextArgIndex, s)) == whole
        decreases |s|
      {
        FirstThere(s);
        assert s == [s[0]] + s[1..];
        var c := s[0];
        var before := s;
        ghost var pending := start[..|start| - |s|];
        s := s[1..];
        PendingGrows(start, before);
        if c != '{' && c != '}' {
          RunText(args, nextArgIndex, before);
          ThenText(out, pending, c, Run(args, nextArgIndex, s));
          continue;
        }
        if First(s) == c {
          RunDoubled(args, nextArgIndex, before);
          FirstThere(s);
          ThenText(out, pending, c, Run(args, nextArgIndex, s[1..]));
          assert before[2..] == s[1..];
          Write(start, s);
          s := s[1..];
          start := s;
          NothingPending(out);
          continue;
        }
        if c == '}' {
          RunUnmatched(args, nextArgIndex, before);
          ThenFails(out + Chars(pending), "unmatched '}' in format string");
          return Some("unmatched '}' in format string");
        }
        Write(start, before);
        var rest := FormatNext(s);
        if rest.Fail? {
          ThenFails(out, rest.message);
          return Some(rest.message);
        }
        s := rest.value;
        start := s;
        NothingPending(out);
      }
      RunStops(args, nextArgIndex, s);
      Write(start, s);
      ThenNothing(out);
      return None;
    }
  }

  lemma FirstThere(s: string)
    requires First(s) != '\0'
    ensures s != "" && First(s) == s[0]
  {
  }

  lemma ThenText(out: seq<Output>, pending: string, c: char, more: Outcome<seq<Output>>)
    ensures Then(out + Chars(pending), Then([Text(c)], more)) == Then(out + (Chars(pending) + [Text(c)]), more)
  {
    hide Chars;
    ThenThen(out + Chars(pending), [Text(c)], more);
    assert out + (Chars(pending) + [Text(c)]) == out + Chars(pending) + [Text(c)];
  }

  lemma ThenFails(out: seq<Output>, message: string)
    ensures Then(out, Fail(message)) == Fail(message)
  {
  }

  lemma ThenNothing(out: seq<Output>)
    ensures Then(out, Done([])) == Done(out)
  {
    assert out + [] == out;
  }

  lemma RunStops(args: seq<Passed>, next: int, s: string)
    requires First(s) == '\0'
    ensures Run(args, next, s) == Done([])
  {
  }

  lemma RunUnmatched(args: seq<Passed>, next: int, s: string)
    requires First(s) == '}' && First(s[1..]) != '}'
    ensures Run(args, next, s) == Fail("unmatched '}' in format string")
  {
  }

  lemma RunText(args: seq<Passed>, next: int, s: string)
    requires First(s) != '\0' && s[0] != '{' && s[0] != '}'
    ensures Run(args, next, s) == Then([Text(s[0])], Run(args, next, s[1..]))
  {
  }

  lemma RunDoubled(args: seq<Passed>, next: int, s: string)
    requires First(s) == '{' || First(s) == '}'
    requires First(s) == First(s[1..])
    ensures Run(args, next, s) == Then([Text(s[0])], Run(args, next, s[2..]))
  {
  }

  lemma RunField(args: seq<Passed>, next: int, s: string)
    requires First(s) == '{' && First(s[1..]) != '{'
    ensures Run(args, next, s) ==
            match ParseRef(args, next, s[1..])
            case Fail(message) => Fail(message)
            case Done(at) =>
              match ParseSpec(args, at.value.next, at.value.arg, at.rest)
              case Fail(message) => Fail(message)
              case Done(how) =>
                Then([Formatted(at.value.ref, at.value.arg, how.value)], Run(args, how.value.next, how.rest))
  {
    hide ParseRef, ParseSpec;
  }

  lemma NothingPending(out: seq<Output>)
    ensures out + Chars("") == out
  {
  }

  lemma PendingGrows(start: string, s: string)
    requires 0 < |s| <= |start| && s == start[|start| - |s|..]
    ensures s[1..] == start[|start| - |s| + 1..]
    ensures Chars(start[..|start| - |s| + 1]) == Chars(start[..|start| - |s|]) + [Text(s[0])]
  {
  }
}
