/** The accepted format strings are exactly the texts of well-formed pieces: whatever the parser accepts
    can be taken apart again. */
module FormatGrammar {
  import opened Wrappers
  import opened Numerals
  import opened IntegerWriter
  import opened FormatParser
  import opened FormatNumerals
  import opened FormatRoundTrip

  predicate NoNul(s: string) {
    forall k :: 0 <= k < |s| ==> s[k] != '\0'
  }

  // ----- references, widths and precisions ----------------------------------------------------------------

  lemma {:induction false} NameTaken(s: string)
    ensures forall k :: 0 <= k < |TakeName(s)| ==> IsNameChar(TakeName(s)[k])
    ensures IsNameStart(First(s)) ==> TakeName(s) != "" && TakeName(s)[0] == s[0]
  {
    if IsNameChar(First(s)) {
      NameTaken(s[1..]);
    }
  }

  lemma ReferenceRead(args: seq<Passed>, next: int, s: string) returns (r: Reference)
    requires ParseRef(args, next, s).Done?
    ensures GoodRef(r) && s == RefText(r) + ParseRef(args, next, s).value.rest
  {
    hide Refer, GoodNumeral, TakeName;
    r := Implicit;
    if IsNameStart(First(s)) {
      NameTaken(s);
      r := Word(TakeName(s));
      assert s == TakeName(s) + s[|TakeName(s)|..];
    } else if IsDigit(First(s)) {
      var ds := NumeralRead(s);
      r := Digits(ds);
      hide ParseInt;
    } else {
      assert s == "" + s;
    }
  }

  lemma DynamicRead(args: seq<Passed>, next: int, s: string, what: string) returns (r: Reference)
    requires ParseDynamic(args, next, s, what).Done?
    ensures GoodRef(r) && s == RefText(r) + ("}" + ParseDynamic(args, next, s, what).value.rest)
  {
    hide ParseRef, CountValue, GoodRef, RefText;
    r := ReferenceRead(args, next, s);
    var rest := ParseRef(args, next, s).value.rest;
    assert rest == "}" + rest[1..];
  }

  lemma Braced(r: Reference, s: string, rest: string)
    requires First(s) == '{' && s[1..] == RefText(r) + ("}" + rest)
    ensures s == CountText(Dynamic(r)) + rest
  {
    assert s == "{" + s[1..];
  }

  lemma WidthRead(args: seq<Passed>, next: int, s: string) returns (c: CountSyntax)
    requires ParseWidth(args, next, s).Done?
    ensures var rest := ParseWidth(args, next, s).value.rest;
            && GoodCount(c) && s == CountText(c) + rest
            && (c.Absent? ==> !IsDigit(First(s)) && First(s) != '{')
            && (c.Fixed? ==> c.ds != "" && First(s) == c.ds[0] && !IsDigit(First(rest)))
  {
    hide ParseInt, ParseDynamic, GoodNumeral, RefText, GoodRef;
    c := Absent;
    if IsDigit(First(s)) {
      var ds := NumeralRead(s);
      c := Fixed(ds);
      NumeralNotEmpty(ds);
    } else if First(s) == '{' {
      var r := DynamicRead(args, next, s[1..], "width");
      c := Dynamic(r);
      Braced(r, s, ParseDynamic(args, next, s[1..], "width").value.rest);
    } else {
      assert s == "" + s;
    }
  }

  lemma NumeralNotEmpty(ds: string)
    requires GoodNumeral(ds)
    ensures ds != ""
  {
  }

  lemma PrecisionRead(args: seq<Passed>, next: int, s: string) returns (c: CountSyntax)
    requires ParsePrecision(args, next, s).Done?
    ensures var rest := ParsePrecision(args, next, s).value.rest;
            && GoodCount(c) && !c.Absent? && s == CountText(c) + rest
            && (c.Fixed? ==> !IsDigit(First(rest)))
  {
    hide ParseInt, ParseDynamic, GoodNumeral, RefText, GoodRef;
    if IsDigit(First(s)) {
      var ds := NumeralRead(s);
      c := Fixed(ds);
    } else {
      var r := DynamicRead(args, next, s[1..], "precision");
      c := Dynamic(r);
      Braced(r, s, ParseDynamic(args, next, s[1..], "precision").value.rest);
    }
  }

  // ----- specifications -----------------------------------------------------------------------------------

  function LastOf(kind: char): char {
    if kind == '\0' then '}' else kind
  }

  function KindText(kind: char, after: string): string {
    If(kind != '\0', [kind]) + ("}" + after)
  }

  lemma KindRead(s: string, sp: Specified) returns (kind: char)
    requires NoNul(s) && Closed(ParseKind(s, sp).rest, ParseKind(s, sp).value).Done?
    ensures s == KindText(kind, Closed(ParseKind(s, sp).rest, ParseKind(s, sp).value).value.rest)
    ensures kind != '}' && First(s) == LastOf(kind)
  {
    var rest := ParseKind(s, sp).rest;
    assert rest == "}" + rest[1..];
    if First(s) != '}' && First(s) != '\0' {
      kind := s[0];
      assert s == [kind] + rest;
    } else {
      kind := '\0';
      assert s == "" + rest;
    }
  }

  lemma NoNulBehind(s: string, t: string, rest: string)
    requires NoNul(s) && s == t + rest
    ensures NoNul(rest)
  {
    assert forall k :: 0 <= k < |rest| ==> rest[k] == s[|t| + k];
  }

  lemma TailRead(args: seq<Passed>, s: string, arg: Arg, sized: Specified) returns (precision: CountSyntax, kind: char)
    requires NoNul(s) && ParseTail(args, s, arg, sized).Done?
    ensures var rest := ParseTail(args, s, arg, sized).value.rest;
            && GoodCount(precision) && kind != '}'
            && s == If(!precision.Absent?, ".") + (CountText(precision) + KindText(kind, rest))
            && First(s) == (if precision.Absent? then LastOf(kind) else '.')
            && (precision.Absent? ==> LastOf(kind) != '.')
            && (precision.Fixed? ==> !IsDigit(LastOf(kind)))
  {
    hide ParsePrecision, ParseKind, Closed, PrecisionError, GoodCount, CountText, KindText, NoNul;
    precision := Absent;
    if First(s) == '.' {
      precision := PrecisionRead(args, sized.next, s[1..]);
      var at := ParsePrecision(args, sized.next, s[1..]).value;
      assert s == "." + s[1..];
      assert s == ("." + CountText(precision)) + at.rest;
      NoNulBehind(s, "." + CountText(precision), at.rest);
      var sp := ParsePrecisionPart(args, s, arg, sized).value;
      kind := KindRead(at.rest, sp.value);
    } else {
      kind := KindRead(s, sized);
      NoCount();
      assert s == "" + ("" + s);
    }
  }

  lemma NoCount()
    ensures GoodCount(Absent) && CountText(Absent) == ""
  {
  }

  lemma ZeroRead(s: string, arg: Arg, spec: FormatSpec) returns (zero: bool)
    requires ParseZero(s, arg, spec).Done?
    ensures s == If(zero, "0") + ParseZero(s, arg, spec).value.rest
    ensures !zero ==> First(s) != '0' && ParseZero(s, arg, spec).value.rest == s
  {
    hide NumericError;
    zero := First(s) == '0';
    assert s == if zero then "0" + s[1..] else "" + s;
  }

  lemma HashRead(s: string, arg: Arg, spec: FormatSpec) returns (hash: bool)
    requires ParseHash(s, arg, spec).Done?
    ensures s == If(hash, "#") + ParseHash(s, arg, spec).value.rest
    ensures !hash ==> First(s) != '#' && ParseHash(s, arg, spec).value.rest == s
  {
    hide NumericError;
    hash := First(s) == '#';
    assert s == if hash then "#" + s[1..] else "" + s;
  }

  lemma SignRead(s: string, arg: Arg, spec: FormatSpec) returns (sign: Sign)
    requires ParseSign(s, arg, spec).Done?
    ensures s == SignText(sign) + ParseSign(s, arg, spec).value.rest
    ensures sign == NoSign ==>
              First(s) != '+' && First(s) != '-' && First(s) != ' ' && ParseSign(s, arg, spec).value.rest == s
  {
    hide SignError;
    sign := match First(s) case '+' => Plus case '-' => Minus case ' ' => Space case _ => NoSign;
    assert s == if sign == NoSign then "" + s else [s[0]] + s[1..];
  }

  function FillText(fill: Option<char>): string {
    if fill.Some? then [fill.value] else ""
  }

  lemma AlignRead(s: string, arg: Arg) returns (fill: Option<char>, align: Alignment)
    requires ParseAlign(s, arg).Done?
    ensures var rest := ParseAlign(s, arg).value.rest;
            && s == FillText(fill) + (AlignText(align) + rest)
            && (fill.Some? ==>
                  align != AlignDefault && fill.value != '{' && fill.value != '}' && fill.value != '\0')
            && (fill.None? && align != AlignDefault ==> AlignOf(First(rest)) == AlignDefault)
            && (fill.None? && align == AlignDefault ==>
                  First(rest) in {'\0', '}'} ||
                  (AlignOf(First(rest)) == AlignDefault && AlignOf(First(rest[1..])) == AlignDefault))
  {
    hide NumericError;
    fill, align := None, AlignDefault;
    if First(s) != '\0' {
      var second, first := AlignOf(First(s[1..])), AlignOf(s[0]);
      if second != AlignDefault && s[0] != '}' {
        fill, align := Some(s[0]), second;
        AlignSpelled(First(s[1..]));
        assert s == [s[0]] + ([s[1]] + s[2..]);
      } else if second == AlignDefault && first != AlignDefault {
        align := first;
        AlignSpelled(s[0]);
        assert s == "" + ([s[0]] + s[1..]);
      } else {
        assert s == "" + ("" + s);
      }
    } else {
      assert s == "" + ("" + s);
    }
  }

  lemma AlignSpelled(c: char)
    requires AlignOf(c) != AlignDefault
    ensures AlignText(AlignOf(c)) == [c]
  {
  }

  /** Sign, `#` and zero flag. */
  lemma MarksRead(s: string, arg: Arg, aligned: FormatSpec) returns (sign: Sign, hash: bool, zero: bool, rest: string)
    requires ParseSign(s, arg, aligned).Done?
    requires var a := ParseSign(s, arg, aligned).value; ParseHash(a.rest, arg, a.value).Done?
    requires var a := ParseSign(s, arg, aligned).value; var b := ParseHash(a.rest, arg, a.value).value;
             ParseZero(b.rest, arg, b.value).Done?
    ensures var a := ParseSign(s, arg, aligned).value; var b := ParseHash(a.rest, arg, a.value).value;
            rest == ParseZero(b.rest, arg, b.value).value.rest
    ensures s == SignText(sign) + (If(hash, "#") + (If(zero, "0") + rest))
    ensures !zero ==> First(rest) != '0'
    ensures !zero && !hash ==> First(rest) != '#'
    ensures !zero && !hash && sign == NoSign ==> First(rest) != '+' && First(rest) != '-' && First(rest) != ' '
  {
    hide ParseSign, ParseHash, ParseZero;
    var a := ParseSign(s, arg, aligned).value;
    var b := ParseHash(a.rest, arg, a.value).value;
    sign := SignRead(s, arg, aligned);
    hash := HashRead(a.rest, arg, a.value);
    zero := ZeroRead(b.rest, arg, b.value);
    rest := ParseZero(b.rest, arg, b.value).value.rest;
  }

  /** What a specification was read from. */
  lemma SpecRead(args: seq<Passed>, next: int, arg: Arg, s: string) returns (x: SpecSyntax)
    requires NoNul(s) && First(s) == ':' && ParseSpec(args, next, arg, s).Done?
    ensures GoodSpec(x) && s == ":" + AlignTail(x, ParseSpec(args, next, arg, s).value.rest)
  {
    assert s == ":" + s[1..];
    var aligned := ParseAlign(s[1..], arg).value;
    var flagged := ParseFlags(s[1..], arg).value;
    var width := ParseWidth(args, next, flagged.rest).value;
    var sized := Specified(flagged.value.(width := width.value.n), width.value.ref, None, width.value.next);
    var rest := ParseTail(args, width.rest, arg, sized).value.rest;
    assert rest == ParseSpec(args, next, arg, s).value.rest;
    var fill, align := AlignRead(s[1..], arg);
    var sign, hash, zero, core := MarksRead(aligned.rest, arg, aligned.value);
    hide ParseAlign, ParseSign, ParseHash, ParseZero, ParseFlags, ParseWidth, ParseTail, ParseSpec, NoNul;
    var w := WidthRead(args, next, flagged.rest);
    var marks := SignText(sign) + If(hash, "#") + If(zero, "0") + CountText(w);
    ToTheWidth(s, FillText(fill), AlignText(align), SignText(sign), If(hash, "#"), If(zero, "0"), CountText(w),
               width.rest);
    NoNulBehind(s, ":" + FillText(fill) + AlignText(align) + marks, width.rest);
    var p, kind := TailRead(args, width.rest, arg, sized);
    x := SpecSyntax(fill, align, sign, hash, zero, w, p, kind);
    SpecIsGood(x, aligned.rest, flagged.rest, width.rest, rest);
  }

  lemma ToTheWidth(s: string, f: string, a: string, g: string, h: string, z: string, w: string, rest: string)
    requires s == ":" + (f + (a + (g + (h + (z + (w + rest))))))
    ensures s == ":" + f + a + (g + h + z + w) + rest
  {
    assert g + (h + (z + (w + rest))) == g + h + z + w + rest;
  }

  /** The components that were read make up a well-formed specification. */
  lemma SpecIsGood(x: SpecSyntax, marks: string, width: string, tail: string, rest: string)
    requires marks == SignText(x.sign) + (If(x.hash, "#") + (If(x.zero, "0") + width))
    requires width == CountText(x.width) + tail
    requires tail == If(!x.precision.Absent?, ".") + (CountText(x.precision) + KindText(x.kind, rest))
    requires GoodCount(x.width) && GoodCount(x.precision) && x.kind != '}'
    requires x.fill.Some? ==>
               x.align != AlignDefault && x.fill.value != '{' && x.fill.value != '}' && x.fill.value != '\0'
    requires x.fill.None? && x.align != AlignDefault ==> AlignOf(First(marks)) == AlignDefault
    requires x.fill.None? && x.align == AlignDefault ==>
               First(marks) in {'\0', '}'} ||
               (AlignOf(First(marks)) == AlignDefault && AlignOf(First(marks[1..])) == AlignDefault)
    requires !x.zero ==> First(width) != '0'
    requires !x.zero && !x.hash ==> First(width) != '#'
    requires !x.zero && !x.hash && x.sign == NoSign ==>
               First(width) != '+' && First(width) != '-' && First(width) != ' '
    requires x.width.Absent? ==> !IsDigit(First(width)) && First(width) != '{'
    requires x.width.Fixed? ==> x.width.ds != "" && First(width) == x.width.ds[0] && !IsDigit(First(tail))
    requires First(tail) == (if x.precision.Absent? then LastOf(x.kind) else '.')
    requires x.precision.Absent? ==> LastOf(x.kind) != '.'
    requires x.precision.Fixed? ==> !IsDigit(LastOf(x.kind))
    ensures GoodSpec(x) && FillText(x.fill) + (AlignText(x.align) + marks) == AlignTail(x, rest)
  {
    assert x.width.Absent? ==> width == tail;
    assert marks == SignTail(x, rest);
    LastIsNoAlign(x, marks, rest);
    hide AlignText, Middle, CountText, GoodCount;
  }

  lemma LastIsNoAlign(x: SpecSyntax, marks: string, rest: string)
    requires marks == SignTail(x, rest) && GoodCount(x.width) && GoodCount(x.precision) && x.kind != '}'
    requires x.fill.None? && x.align != AlignDefault ==> AlignOf(First(marks)) == AlignDefault
    requires x.fill.None? && x.align == AlignDefault ==>
               First(marks) in {'\0', '}'} ||
               (AlignOf(First(marks)) == AlignDefault && AlignOf(First(marks[1..])) == AlignDefault)
    ensures x.fill.None? && |AlignText(x.align)| + |Middle(x)| <= 2 ==> AlignOf(Last(x)) == AlignDefault
  {
    Joined(x, rest);
    CoreStart(x);
    var m := Middle(x);
    assert x.kind != '\0' ==> m[|m| - 1] == x.kind;
    hide Core, Middle, SignTail, GoodCount;
    EndNearStart(m, "}" + rest, x.kind, x.fill.None?, |AlignText(x.align)|);
  }

  /** The last character of a short specification is among those the parser looked at for an alignment. */
  lemma EndNearStart(m: string, rest: string, kind: char, bare: bool, aligned: nat)
    requires kind != '\0' ==> m != "" && m[|m| - 1] == kind
    requires m != "" ==> m[0] != '}' && m[0] != '\0'
    requires bare && aligned > 0 ==> AlignOf(First(m + rest)) == AlignDefault
    requires bare && aligned == 0 ==>
               First(m + rest) in {'\0', '}'} ||
               (AlignOf(First(m + rest)) == AlignDefault && AlignOf(First((m + rest)[1..])) == AlignDefault)
    ensures bare && aligned + |m| <= 2 ==> AlignOf(LastOf(kind)) == AlignDefault
  {
    var s := m + rest;
    assert forall k :: 0 <= k < |m| ==> s[k] == m[k];
    if bare && kind != '\0' && |m| >= 2 {
      assert s[1..][0] == m[1];
    }
  }

  /** No specification starts like the end of one. */
  lemma CoreStart(x: SpecSyntax)
    requires GoodCount(x.width) && GoodCount(x.precision) && x.kind != '}'
    ensures Middle(x) != "" ==> Middle(x)[0] != '}' && Middle(x)[0] != '\0'
  {
    CountStart(x.width);
    hide CountText, GoodCount;
  }

  lemma CountStart(c: CountSyntax)
    requires GoodCount(c)
    ensures CountText(c) != "" ==> CountText(c)[0] != '}' && CountText(c)[0] != '\0'
  {
    match c
    case Absent =>
    case Fixed(ds) => FirstDigit(ds);
    case Dynamic(_) =>
  }

  // ----- whole strings ------------------------------------------------------------------------------------

  ghost predicate AllGood(pieces: seq<Piece>) {
    forall piece <- pieces :: GoodPiece(piece)
  }

  /** Every accepted string is the text of well-formed pieces. */
  lemma {:induction false} AcceptedIsRendered(args: seq<Passed>, next: int, s: string) returns (pieces: seq<Piece>)
    requires NoNul(s) && Run(args, next, s).Done?
    ensures AllGood(pieces) && Render(pieces) == s
    decreases |s|
  {
    hide ParseRef, ParseSpec, GoodPiece, Then;
    if s == "" {
      pieces := [];
    } else if s[0] != '{' && s[0] != '}' {
      RunText(args, next, s);
      NoNulBehind(s, [s[0]], s[1..]);
      ThenDone([Text(s[0])], Run(args, next, s[1..]));
      var more := AcceptedIsRendered(args, next, s[1..]);
      pieces := LiteralFirst(s[0], more);
      assert s == [s[0]] + s[1..];
    } else if First(s[1..]) == s[0] {
      RunDoubled(args, next, s);
      NoNulBehind(s, [s[0], s[0]], s[2..]);
      ThenDone([Text(s[0])], Run(args, next, s[2..]));
      var more := AcceptedIsRendered(args, next, s[2..]);
      pieces := LiteralFirst(s[0], more);
      assert s == [s[0], s[0]] + s[2..];
    } else {
      RunField(args, next, s);
      var r := ParseRef(args, next, s[1..]).value;
      var how := ParseSpec(args, r.value.next, r.value.arg, r.rest).value;
      hide Run;
      var field := FieldRead(args, next, s);
      ThenDone([Formatted(r.value.ref, r.value.arg, how.value)], Run(args, how.value.next, how.rest));
      var more := AcceptedIsRendered(args, how.value.next, how.rest);
      pieces := FieldFirst(field, more);
    }
  }

  lemma ThenDone(out: seq<Output>, more: Outcome<seq<Output>>)
    ensures Then(out, more).Done? <==> more.Done?
  {
  }

  lemma LiteralFirst(c: char, more: seq<Piece>) returns (pieces: seq<Piece>)
    requires c != '\0' && AllGood(more)
    ensures AllGood(pieces)
    ensures Render(pieces) == (if c == '{' || c == '}' then [c, c] else [c]) + Render(more)
  {
    pieces := [Literal([c])] + more;
    assert pieces[1..] == more;
    assert [c][1..] == "";
    assert Doubled([c]) == (if c == '{' || c == '}' then [c, c] else [c]) + "";
  }

  lemma FieldFirst(field: Piece, more: seq<Piece>) returns (pieces: seq<Piece>)
    requires field.Field? && GoodPiece(field) && AllGood(more)
    ensures AllGood(pieces) && Render(pieces) == FieldText(field.ref, field.spec, Render(more))
  {
    hide GoodPiece, FieldText;
    pieces := [field] + more;
    assert pieces[1..] == more;
  }

  lemma FieldRead(args: seq<Passed>, next: int, s: string) returns (field: Piece)
    requires NoNul(s) && First(s) == '{' && ParseRef(args, next, s[1..]).Done?
    requires var r := ParseRef(args, next, s[1..]).value; ParseSpec(args, r.value.next, r.value.arg, r.rest).Done?
    ensures var r := ParseRef(args, next, s[1..]).value;
            var rest := ParseSpec(args, r.value.next, r.value.arg, r.rest).value.rest;
            && field.Field? && GoodPiece(field) && s == FieldText(field.ref, field.spec, rest) && NoNul(rest)
  {
    var r := ParseRef(args, next, s[1..]).value;
    hide ParseRef, GoodRef, GoodSpec, NoNul, FieldText;
    var ref := ReferenceRead(args, next, s[1..]);
    NoNulBehindField(s, ref, r.rest);
    hide ParseSpec, AlignTail, RefText, GoodPiece;
    var rest := ParseSpec(args, r.value.next, r.value.arg, r.rest).value.rest;
    var spec := FieldSpecRead(args, r.value.next, r.value.arg, r.rest);
    field := Field(ref, spec);
    GoodField(ref, spec);
    FieldSpelled(s, ref, spec, r.rest, rest);
    var front := FieldEnds(ref, spec, rest);
    NoNulBehind(s, front, rest);
  }

  lemma GoodField(ref: Reference, spec: Option<SpecSyntax>)
    requires GoodRef(ref) && (spec.Some? ==> GoodSpec(spec.value))
    ensures GoodPiece(Field(ref, spec))
  {
  }

  lemma FieldSpecRead(args: seq<Passed>, next: int, arg: Arg, s: string) returns (spec: Option<SpecSyntax>)
    requires NoNul(s) && ParseSpec(args, next, arg, s).Done?
    ensures spec.Some? ==> GoodSpec(spec.value)
    ensures var rest := ParseSpec(args, next, arg, s).value.rest;
            s == if spec.Some? then ":" + AlignTail(spec.value, rest) else "}" + rest
  {
    spec := None;
    if First(s) == ':' {
      hide ParseSpec, AlignTail;
      var x := SpecRead(args, next, arg, s);
      spec := Some(x);
    } else {
      assert s == "}" + s[1..];
    }
  }

  lemma NoNulBehindField(s: string, ref: Reference, tail: string)
    requires NoNul(s) && First(s) == '{' && s[1..] == RefText(ref) + tail
    ensures NoNul(tail)
  {
    assert s == ("{" + RefText(ref)) + tail;
    NoNulBehind(s, "{" + RefText(ref), tail);
  }

  lemma FieldSpelled(s: string, ref: Reference, spec: Option<SpecSyntax>, tail: string, rest: string)
    requires First(s) == '{' && s[1..] == RefText(ref) + tail
    requires tail == if spec.Some? then ":" + AlignTail(spec.value, rest) else "}" + rest
    ensures s == FieldText(ref, spec, rest)
  {
    hide RefText, AlignTail;
    assert s == "{" + s[1..];
  }

  lemma FieldEnds(ref: Reference, spec: Option<SpecSyntax>, after: string) returns (front: string)
    ensures FieldText(ref, spec, after) == front + after
  {
    hide RefText, AlignText, Middle, Core, SignTail;
    if spec.Some? {
      var x := spec.value;
      Joined(x, after);
      front := "{" + RefText(ref) + ":" + FillText(x.fill) + AlignText(x.align) + Middle(x) + "}";
    } else {
      front := "{" + RefText(ref) + "}";
    }
  }

  /** A C string is accepted exactly when it is the text of well-formed pieces that mean something. */
  lemma AcceptedIff(args: seq<Passed>, s: string)
    requires NoNul(s)
    ensures Run(args, 0, s).Done? <==>
            exists pieces :: AllGood(pieces) && Render(pieces) == s && Meant(args, 0, pieces).Done?
    ensures forall pieces :: AllGood(pieces) && Render(pieces) == s ==> Run(args, 0, s) == Meant(args, 0, pieces)
  {
    hide Run, Render, Meant, GoodPiece;
    if Run(args, 0, s).Done? {
      var pieces := AcceptedIsRendered(args, 0, s);
      RunRendered(args, 0, pieces);
    }
    forall pieces | AllGood(pieces) && Render(pieces) == s ensures Run(args, 0, s) == Meant(args, 0, pieces) {
      RunRendered(args, 0, pieces);
    }
  }
}
