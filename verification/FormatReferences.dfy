/** In an accepted format string all references are automatic or none is, and every value and every
    width and precision comes from the argument its reference names. */
module FormatReferences {
  import opened Words
  import opened Wrappers
  import opened FormatParser
  import opened IntegerWriter

  function Optional(ref: Option<Ref>): seq<Ref> {
    if ref.Some? then [ref.value] else []
  }

  /** The references of a field in the order they are resolved: itself, its width, its precision. */
  function FieldRefs(ref: Ref, how: Specified): seq<Ref> {
    [ref] + Optional(how.width) + Optional(how.precision)
  }

  function Refs(out: seq<Output>): seq<Ref> {
    if out == [] then []
    else (if out[0].Text? then [] else FieldRefs(out[0].ref, out[0].how)) + Refs(out[1..])
  }

  ghost predicate AutomaticFrom(refs: seq<Ref>, first: nat) {
    forall k :: 0 <= k < |refs| ==> refs[k] == Auto(first + k)
  }

  ghost predicate ByHand(refs: seq<Ref>) {
    forall k :: 0 <= k < |refs| ==> !refs[k].Auto?
  }

  /** The references that take the formatter's counter from `next` to `after`. */
  ghost predicate Follows(next: int, refs: seq<Ref>, after: int) {
    if after >= 0 then next >= 0 && after == next + |refs| && AutomaticFrom(refs, next)
    else after == -1 && -1 <= next <= 0 && ByHand(refs)
  }

  lemma FollowOn(a: int, refs: seq<Ref>, b: int, more: seq<Ref>, c: int)
    requires Follows(a, refs, b) && Follows(b, more, c)
    ensures Follows(a, refs + more, c)
  {
  }

  /** The argument at this index, or the first one of this name. */
  ghost predicate PointsTo(args: seq<Passed>, ref: Ref, arg: Arg) {
    match ref
    case Auto(index) => index < |args| && arg == args[index].arg
    case Manual(index) => index < |args| && arg == args[index].arg
    case Named(name) => exists i :: FirstOfName(args, name, arg, i)
  }

  ghost predicate FirstOfName(args: seq<Passed>, name: string, arg: Arg, i: int) {
    && 0 <= i < |args| && args[i] == Passed(Some(name), arg)
    && forall j :: 0 <= j < i ==> args[j].name != Some(name)
  }

  /** No argument has this index or name. */
  ghost predicate Dangles(args: seq<Passed>, ref: Ref) {
    match ref
    case Auto(index) => index >= |args|
    case Manual(index) => index >= |args|
    case Named(name) => forall i :: 0 <= i < |args| ==> args[i].name != Some(name)
  }

  lemma {:induction false} FirstNamed(args: seq<Passed>, name: string)
    ensures FindNamed(args, name).Some? ==> PointsTo(args, Named(name), FindNamed(args, name).value)
    ensures FindNamed(args, name).None? ==> Dangles(args, Named(name))
  {
    if args != [] && args[0].name != Some(name) {
      var rest := args[1..];
      FirstNamed(rest, name);
      if FindNamed(rest, name).Some? {
        var arg := FindNamed(rest, name).value;
        var i :| FirstOfName(rest, name, arg, i);
        assert args[i + 1] == rest[i];
        forall j | 0 <= j < i + 1 ensures args[j].name != Some(name) {
          if j > 0 {
            assert args[j] == rest[j - 1];
          }
        }
        assert FirstOfName(args, name, arg, i + 1);
      } else {
        forall i | 0 <= i < |args| ensures args[i].name != Some(name) {
          if i > 0 {
            assert args[i] == rest[i - 1];
          }
        }
      }
    } else if args != [] {
      assert FirstOfName(args, name, args[0].arg, 0);
    }
  }

  /** An index counts the arguments from the front, a name finds the first that bears it; otherwise the
      error says which is missing. */
  lemma ReferredTo(args: seq<Passed>, ref: Ref, next: int)
    ensures match Fetch(args, ref, next)
            case Done(found) => found.ref == ref && found.next == next && PointsTo(args, ref, found.arg)
            case Fail(message) =>
              Dangles(args, ref)
              && message == if ref.Named? then "argument not found" else "argument index out of range"
  {
    if ref.Named? {
      FirstNamed(args, ref.name);
    }
    hide FindNamed;
  }

  /** A value whose argument, width and precision come from where its references point. */
  ghost predicate Sourced(args: seq<Passed>, o: Output) {
    o.Formatted? ==>
      && PointsTo(args, o.ref, o.arg)
      && (o.how.width.Some? ==> CountFrom(args, o.how.width.value, o.how.spec.width))
      && (o.how.precision.Some? ==> CountFrom(args, o.how.precision.value, o.how.spec.precision))
  }

  /** The reference points to an integer with this value. */
  ghost predicate CountFrom(args: seq<Passed>, ref: Ref, n: int) {
    0 <= n <= INT_MAX && exists arg :: PointsTo(args, ref, arg) && IsCount(arg, n)
  }

  ghost predicate IsCount(arg: Arg, n: int) {
    || arg == IntArg(n) || arg == LongLongArg(n)
    || (n >= 0 && (arg == UIntArg(n) || arg == ULongLongArg(n)))
  }

  /** Widths and precisions are integers of at least 0 that fit an int; characters and truth values are
      not taken for integers here. */
  lemma CountsAccepted(arg: Arg, what: string)
    ensures match CountValue(arg, what)
            case Done(n) => n <= INT_MAX && IsCount(arg, n)
            case Fail(message) =>
              && (forall n: nat :: n <= INT_MAX ==> !IsCount(arg, n))
              && ((exists n: int :: n < 0 && IsCount(arg, n)) ==> message == "negative " + what)
              && ((exists n: int :: n > INT_MAX && IsCount(arg, n)) ==> message == "number is too big")
              && ((forall n: int :: !IsCount(arg, n)) ==> message == what + " is not integer")
  {
    match arg
    case IntArg(i) => assert IsCount(arg, i);
    case LongLongArg(i) => assert IsCount(arg, i);
    case UIntArg(u) => assert IsCount(arg, u);
    case ULongLongArg(u) => assert IsCount(arg, u);
    case _ =>
  }

  /** The counter's next value and the argument of a reference. */
  lemma ReferFollows(args: seq<Passed>, next: int, written: RefSyntax)
    requires next >= -1 && Refer(args, next, written).Done?
    ensures var r := Refer(args, next, written).value;
            Follows(next, [r.ref], r.next) && PointsTo(args, r.ref, r.arg)
  {
    hide Fetch, PointsTo;
    var ref := if written.Next? then Auto(next) else if written.Index? then Manual(written.n) else Named(written.name);
    ReferredTo(args, ref, if written.Next? then next + 1 else -1);
  }

  lemma ReferenceFollows(args: seq<Passed>, next: int, s: string)
    requires next >= -1 && ParseRef(args, next, s).Done?
    ensures var r := ParseRef(args, next, s).value.value;
            Follows(next, [r.ref], r.next) && PointsTo(args, r.ref, r.arg)
  {
    hide Accumulate, Refer, TakeName, Follows, PointsTo;
    if IsNameStart(First(s)) {
      ReferFollows(args, next, Name(TakeName(s)));
    } else if IsDigit(First(s)) {
      ReferFollows(args, next, Index(ParseInt(s).value.value));
    } else {
      ReferFollows(args, next, Next);
    }
  }

  lemma DynamicFollows(args: seq<Passed>, next: int, s: string, what: string)
    requires next >= -1 && ParseDynamic(args, next, s, what).Done?
    ensures var c := ParseDynamic(args, next, s, what).value.value;
            && c.ref.Some? && Follows(next, [c.ref.value], c.next)
            && CountFrom(args, c.ref.value, c.n)
  {
    hide ParseRef, PointsTo, CountValue, IsCount;
    ReferenceFollows(args, next, s);
    CountsAccepted(ParseRef(args, next, s).value.value.arg, what);
  }

  lemma WidthFollows(args: seq<Passed>, next: int, s: string)
    requires next >= -1 && ParseWidth(args, next, s).Done?
    ensures var c := ParseWidth(args, next, s).value.value;
            && Follows(next, Optional(c.ref), c.next)
            && (c.ref.Some? ==> CountFrom(args, c.ref.value, c.n))
  {
    hide ParseDynamic, ParseInt, CountFrom;
    if First(s) == '{' {
      DynamicFollows(args, next, s[1..], "width");
    }
  }

  lemma PrecisionFollows(args: seq<Passed>, next: int, s: string)
    requires next >= -1 && ParsePrecision(args, next, s).Done?
    ensures var c := ParsePrecision(args, next, s).value.value;
            && Follows(next, Optional(c.ref), c.next)
            && (c.ref.Some? ==> CountFrom(args, c.ref.value, c.n))
  {
    hide ParseDynamic, ParseInt, CountFrom;
    if First(s) == '{' {
      DynamicFollows(args, next, s[1..], "precision");
    }
  }

  lemma SpecFollows(args: seq<Passed>, next: int, arg: Arg, s: string)
    requires next >= -1 && ParseSpec(args, next, arg, s).Done?
    ensures var how := ParseSpec(args, next, arg, s).value.value;
            && Follows(next, Optional(how.width) + Optional(how.precision), how.next)
            && (how.width.Some? ==> CountFrom(args, how.width.value, how.spec.width))
            && (how.precision.Some? ==> CountFrom(args, how.precision.value, how.spec.precision))
  {
    hide ParseFlags, ParseWidth, ParsePrecision, CountFrom;
    if First(s) == ':' {
      var flagged := ParseFlags(s[1..], arg).value;
      WidthFollows(args, next, flagged.rest);
      var width := ParseWidth(args, next, flagged.rest).value;
      if First(width.rest) == '.' {
        PrecisionFollows(args, width.value.next, width.rest[1..]);
        var p := ParsePrecision(args, width.value.next, width.rest[1..]).value.value;
        FollowOn(next, Optional(width.value.ref), width.value.next, Optional(p.ref), p.next);
      }
    }
  }

  /** Whatever the text, the references of what is produced follow the counter, and every output is
      sourced by its references. */
  lemma {:induction false} RunFollows(args: seq<Passed>, next: int, s: string)
    requires next >= -1 && Run(args, next, s).Done?
    ensures exists after :: Follows(next, Refs(Run(args, next, s).value), after)
    ensures forall o <- Run(args, next, s).value :: Sourced(args, o)
    decreases |s|
  {
    hide ParseRef, ParseSpec, Follows, Sourced;
    if First(s) == '\0' {
      NoReferences(next);
    } else if s[0] != '{' && s[0] != '}' {
      RunFollows(args, next, s[1..]);
      TextHasNone(args, s[0], Run(args, next, s[1..]).value);
    } else if First(s[1..]) == s[0] {
      RunFollows(args, next, s[2..]);
      TextHasNone(args, s[0], Run(args, next, s[2..]).value);
    } else {
      var r := ParseRef(args, next, s[1..]).value;
      var how := ParseSpec(args, r.value.next, r.value.arg, r.rest).value;
      FieldFollows(args, next, s[1..]);
      RunFollows(args, how.value.next, how.rest);
      var more := Run(args, how.value.next, how.rest).value;
      var after :| Follows(how.value.next, Refs(more), after);
      FollowOn(next, FieldRefs(r.value.ref, how.value), how.value.next, Refs(more), after);
      RunField(args, next, s);
      FieldThen(Formatted(r.value.ref, r.value.arg, how.value), more);
      assert Follows(next, Refs(Run(args, next, s).value), after);
    }
  }

  lemma NoReferences(next: int)
    requires next >= -1
    ensures Follows(next, Refs([]), next)
  {
  }

  lemma TextHasNone(args: seq<Passed>, c: char, out: seq<Output>)
    ensures Refs([Text(c)] + out) == Refs(out) && Sourced(args, Text(c))
  {
    assert ([Text(c)] + out)[1..] == out;
  }

  lemma FieldThen(value: Output, more: seq<Output>)
    requires value.Formatted?
    ensures Refs([value] + more) == FieldRefs(value.ref, value.how) + Refs(more)
  {
    assert ([value] + more)[1..] == more;
  }

  lemma FieldFollows(args: seq<Passed>, next: int, s: string)
    requires next >= -1 && ParseRef(args, next, s).Done?
    requires var r := ParseRef(args, next, s).value; ParseSpec(args, r.value.next, r.value.arg, r.rest).Done?
    ensures var r := ParseRef(args, next, s).value;
            var how := ParseSpec(args, r.value.next, r.value.arg, r.rest).value.value;
            && r.value.next >= -1 && how.next >= -1
            && Follows(next, FieldRefs(r.value.ref, how), how.next)
            && Sourced(args, Formatted(r.value.ref, r.value.arg, how))
  {
    hide ParseRef, ParseSpec, CountFrom, PointsTo;
    var r := ParseRef(args, next, s).value;
    ReferenceFollows(args, next, s);
    SpecFollows(args, r.value.next, r.value.arg, r.rest);
    var how := ParseSpec(args, r.value.next, r.value.arg, r.rest).value.value;
    FollowOn(next, [r.value.ref], r.value.next, Optional(how.width) + Optional(how.precision), how.next);
    assert FieldRefs(r.value.ref, how) == [r.value.ref] + (Optional(how.width) + Optional(how.precision));
  }

  /** All references of an accepted string are automatic, the k-th naming argument k, or none is. */
  lemma AutomaticOrByHand(args: seq<Passed>, format: string)
    requires Run(args, 0, format).Done?
    ensures var refs := Refs(Run(args, 0, format).value); AutomaticFrom(refs, 0) || ByHand(refs)
    ensures forall o <- Run(args, 0, format).value :: Sourced(args, o)
  {
    RunFollows(args, 0, format);
  }

  /** Mixing the two kinds is refused, whatever follows. */
  lemma MixedFails(args: seq<Passed>, after: string)
    requires args != []
    ensures Run(args, 0, "{}{0}" + after) == Fail("cannot switch from automatic to manual argument indexing")
    ensures Run(args, 0, "{0}{}" + after) == Fail("cannot switch from manual to automatic argument indexing")
  {
    EmptyField(args, 0, "{0}" + after);
    ZeroField(args, 1, after);
    ZeroField(args, 0, "{}" + after);
    EmptyField(args, -1, after);
    hide Run;
    assert "{}" + ("{0}" + after) == "{}{0}" + after && "{0}" + ("{}" + after) == "{0}{}" + after;
  }

  lemma EmptyField(args: seq<Passed>, next: int, after: string)
    requires next <= 0 < |args|
    ensures next < 0 ==>
              Run(args, next, "{}" + after) == Fail("cannot switch from manual to automatic argument indexing")
    ensures next == 0 ==>
              Run(args, 0, "{}" + after) ==
              Then([Formatted(Auto(0), args[0].arg, Specified(DEFAULT, None, None, 1))], Run(args, 1, after))
  {
    var s := "{}" + after;
    assert s[1..] == "}" + after && s[1..][1..] == after;
    assert ParseRef(args, next, s[1..]) == Referring(Refer(args, next, Next), s[1..]);
    if next == 0 {
      assert ParseSpec(args, 1, args[0].arg, s[1..]) == Done(At(Specified(DEFAULT, None, None, 1), after));
    }
    hide ParseRef, ParseSpec;
    RunField(args, next, s);
  }

  lemma ZeroField(args: seq<Passed>, next: int, after: string)
    requires args != [] && 0 <= next <= 1
    ensures next > 0 ==>
              Run(args, next, "{0}" + after) == Fail("cannot switch from automatic to manual argument indexing")
    ensures next == 0 ==>
              Run(args, 0, "{0}" + after) ==
              Then([Formatted(Manual(0), args[0].arg, Specified(DEFAULT, None, None, -1))], Run(args, -1, after))
  {
    var s, t := "{0}" + after, "}" + after;
    assert s[1..] == "0}" + after && t[1..] == after;
    ZeroRead(args, next, after);
    hide ParseRef;
    if next == 0 {
      assert ParseSpec(args, -1, args[0].arg, t) == Done(At(Specified(DEFAULT, None, None, -1), after));
    }
    hide ParseSpec;
    RunField(args, next, s);
    hide Run;
  }

  lemma ZeroRead(args: seq<Passed>, next: int, after: string)
    ensures ParseRef(args, next, "0}" + after) == Referring(Refer(args, next, Index(0)), "}" + after)
  {
    var s := "0}" + after;
    assert s[1..] == "}" + after;
    assert Accumulate(0, s) == Accumulate(0, s[1..]) == At(0, s[1..]);
    hide Accumulate, Refer;
  }
}
