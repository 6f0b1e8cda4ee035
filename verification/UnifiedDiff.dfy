/** gtest's unified diff: hunks with context, and what it means that they are a patch. */
module UnifiedDiff {
  import opened Wrappers
  import opened EditScript
  import opened Numerals

  /** The part of a string that a C string pointer to it shows. */
  function CText(s: string): (t: string)
    ensures '\0' !in t && t <= s
    ensures t == s || s[|t|] == '\0'
  {
    if s == [] || s[0] == '\0' then [] else [s[0]] + CText(s[1..])
  }

  function CTexts(ss: seq<string>): (ts: seq<string>)
    ensures |ts| == |ss|
  {
    seq(|ss|, i requires 0 <= i < |ss| => CText(ss[i]))
  }

  datatype Line = Line(tag: char, text: string)

  /** The texts a hunk body claims for the old file: everything but additions. */
  function OldSide(lines: seq<Line>): seq<string> {
    if lines == [] then []
    else
      var last := lines[|lines| - 1];
      OldSide(lines[..|lines| - 1]) + if last.tag == '+' then [] else [last.text]
  }

  /** The texts it claims for the new file: everything but removals. */
  function NewSide(lines: seq<Line>): seq<string> {
    if lines == [] then []
    else
      var last := lines[|lines| - 1];
      NewSide(lines[..|lines| - 1]) + if last.tag == '-' then [] else [last.text]
  }

  lemma SidesSnoc(lines: seq<Line>, line: Line)
    ensures OldSide(lines + [line]) == OldSide(lines) + if line.tag == '+' then [] else [line.text]
    ensures NewSide(lines + [line]) == NewSide(lines) + if line.tag == '-' then [] else [line.text]
  {
    assert (lines + [line])[..|lines|] == lines;
  }

  lemma {:induction false} SidesAppend(a: seq<Line>, b: seq<Line>)
    ensures OldSide(a + b) == OldSide(a) + OldSide(b)
    ensures NewSide(a + b) == NewSide(a) + NewSide(b)
    decreases |b|
  {
    if b == [] {
      assert a + b == a;
    } else {
      var front, last := b[..|b| - 1], b[|b| - 1];
      assert b == front + [last] && a + b == a + front + [last];
      SidesSnoc(front, last);
      SidesSnoc(a + front, last);
      hide OldSide, NewSide;
      SidesAppend(a, front);
    }
  }

  predicate WellTagged(lines: seq<Line>) {
    forall k :: 0 <= k < |lines| ==> lines[k].tag in {' ', '-', '+'}
  }

  predicate AllTagged(lines: seq<Line>, tag: char) {
    forall k :: 0 <= k < |lines| ==> lines[k].tag == tag
  }

  lemma {:induction false} OneSided(lines: seq<Line>)
    ensures AllTagged(lines, '+') ==> OldSide(lines) == [] && |NewSide(lines)| == |lines|
    ensures AllTagged(lines, '-') ==> NewSide(lines) == [] && |OldSide(lines)| == |lines|
    decreases |lines|
  {
    if lines != [] {
      OneSided(lines[..|lines| - 1]);
    }
  }

  /** A finished hunk: where it starts on both sides (counted from 1), its counters and its body. */
  datatype Printed = Printed(leftStart: nat, rightStart: nat, adds: nat, removes: nat, common: nat, lines: seq<Line>)

  /** The header without its newline. A side without edits is left out. */
  function HeaderLine(h: Printed): string {
    "@@ "
    + (if h.removes > 0 then "-" + Decimal(h.leftStart) + "," + Decimal(h.removes + h.common) else "")
    + (if h.removes > 0 && h.adds > 0 then " " else "")
    + (if h.adds > 0 then "+" + Decimal(h.rightStart) + "," + Decimal(h.adds + h.common) else "")
    + " @@"
  }

  function Header(h: Printed): string {
    HeaderLine(h) + "\n"
  }

  function Body(lines: seq<Line>): string {
    if lines == [] then ""
    else Body(lines[..|lines| - 1]) + [lines[|lines| - 1].tag] + lines[|lines| - 1].text + "\n"
  }

  function Rendered(hunks: seq<Printed>): string {
    if hunks == [] then ""
    else
      var h := hunks[|hunks| - 1];
      Rendered(hunks[..|hunks| - 1]) + Header(h) + Body(h.lines)
  }

  /** In a body `-` stands before old text, `+` before new text and a space before common text. */
  lemma BodyForm(a: string, b: string, c: string)
    ensures var lines := [Line('-', a), Line('+', b), Line(' ', c)];
            && OldSide(lines) == [a, c] && NewSide(lines) == [b, c]
            && Body(lines) == "-" + a + "\n" + "+" + b + "\n" + " " + c + "\n"
  {
    var l1, l2 := [Line('-', a)], [Line('-', a), Line('+', b)];
    assert l1 == [] + [Line('-', a)] && l2 == l1 + [Line('+', b)];
    SidesSnoc([], Line('-', a));
    SidesSnoc(l1, Line('+', b));
    SidesSnoc(l2, Line(' ', c));
    BodySnoc([], Line('-', a));
    BodySnoc(l1, Line('+', b));
    BodySnoc(l2, Line(' ', c));
    assert l2 + [Line(' ', c)] == [Line('-', a), Line('+', b), Line(' ', c)];
    assert OldSide([]) == NewSide([]) == [] && Body([]) == "";
    hide OldSide, NewSide, Body;
  }

  lemma BodySnoc(lines: seq<Line>, line: Line)
    ensures Body(lines + [line]) == Body(lines) + [line.tag] + line.text + "\n"
  {
    assert (lines + [line])[..|lines|] == lines;
  }

  /** A hunk is printed as its header, which leaves out a side without edits, and its body. */
  lemma HeaderForms(h: Printed)
    ensures Rendered([h]) == HeaderLine(h) + "\n" + Body(h.lines)
    ensures h.removes > 0 && h.adds > 0 ==>
              HeaderLine(h) == "@@ -" + Decimal(h.leftStart) + "," + Decimal(h.removes + h.common) +
                               " +" + Decimal(h.rightStart) + "," + Decimal(h.adds + h.common) + " @@"
    ensures h.removes > 0 && h.adds == 0 ==>
              HeaderLine(h) == "@@ -" + Decimal(h.leftStart) + "," + Decimal(h.removes + h.common) + " @@"
    ensures h.removes == 0 && h.adds > 0 ==>
              HeaderLine(h) == "@@ +" + Decimal(h.rightStart) + "," + Decimal(h.adds + h.common) + " @@"
  {
    assert Rendered([h]) == "" + Header(h) + Body(h.lines) by { assert [h][..0] == []; }
    hide Numeral, Body, Rendered;
    var l, r := Decimal(h.leftStart), Decimal(h.rightStart);
    var m, n := Decimal(h.removes + h.common), Decimal(h.adds + h.common);
    HeaderJoined(l, m, r, n);
    if h.removes > 0 && h.adds > 0 {
      assert HeaderLine(h) == "@@ " + ("-" + l + "," + m) + " " + ("+" + r + "," + n) + " @@";
    } else if h.removes > 0 {
      assert HeaderLine(h) == "@@ " + ("-" + l + "," + m) + "" + "" + " @@";
    } else if h.adds > 0 {
      assert HeaderLine(h) == "@@ " + "" + "" + ("+" + r + "," + n) + " @@";
    }
    hide HeaderLine;
  }

  lemma HeaderJoined(l: string, m: string, r: string, n: string)
    ensures "@@ " + ("-" + l + "," + m) + " " + ("+" + r + "," + n) + " @@" ==
            "@@ -" + l + "," + m + " +" + r + "," + n + " @@"
    ensures "@@ " + ("-" + l + "," + m) + "" + "" + " @@" == "@@ -" + l + "," + m + " @@"
    ensures "@@ " + "" + "" + ("+" + r + "," + n) + " @@" == "@@ +" + r + "," + n + " @@"
  {
  }

  class Hunk {
    var leftStart: nat
    var rightStart: nat
    var adds: nat
    var removes: nat
    var common: nat
    var hunk: seq<Line>
    var hunkAdds: seq<Line>
    var hunkRemoves: seq<Line>

    ghost predicate Valid()
      reads this
    {
      && AllTagged(hunkAdds, '+') && AllTagged(hunkRemoves, '-') && WellTagged(Lines())
      && |OldSide(Lines())| == removes + common
      && |NewSide(Lines())| == adds + common
    }

    /** Until it is printed, the flushed part ends with a common line, so that the edits behind it can
        still be ordered. */
    ghost predicate Building()
      reads this
    {
      Valid() && EndsCommon(hunk) && Grouped(Lines())
    }

    /** The body as it will be printed: pending removals come before pending additions. */
    ghost function Lines(): seq<Line>
      reads this
    {
      hunk + hunkRemoves + hunkAdds
    }

    ghost function Old(): seq<string>
      reads this
    {
      OldSide(Lines())
    }

    ghost function New(): seq<string>
      reads this
    {
      NewSide(Lines())
    }

    constructor (leftStart: nat, rightStart: nat)
      ensures Building() && Old() == [] && New() == [] && Lines() == []
      ensures this.leftStart == leftStart && this.rightStart == rightStart
      ensures adds == removes == common == 0
    {
      this.leftStart := leftStart;
      this.rightStart := rightStart;
      adds, removes, common := 0, 0, 0;
      hunk, hunkAdds, hunkRemoves := [], [], [];
    }

    lemma Sizes()
      requires Valid()
      ensures |OldSide(Lines())| == removes + common && |NewSide(Lines())| == adds + common
      ensures Old() == OldSide(Lines()) && New() == NewSide(Lines()) && WellTagged(Lines())
      ensures Building() ==> Grouped(Lines())
    {
    }

    method FlushEdits()
      modifies this`hunk, this`hunkRemoves, this`hunkAdds
      ensures hunk == old(Lines()) && Lines() == old(Lines())
      ensures hunkAdds == hunkRemoves == []
    {
      hunk := hunk + hunkRemoves;
      hunkRemoves := [];
      hunk := hunk + hunkAdds;
      hunkAdds := [];
      assert hunk + [] + [] == hunk;
    }

    /** Whatever reordering the pending edits undergo, a line ends up last on the sides it belongs
        to. */
    method PushLine(edit: char, text: string)
      requires Valid() && edit in {' ', '-', '+'}
      modifies this`hunk, this`hunkRemoves, this`hunkAdds, this`adds, this`removes, this`common
      ensures Valid() && (old(Building()) ==> Building())
      ensures Old() == old(Old()) + if edit == '+' then [] else [text]
      ensures New() == old(New()) + if edit == '-' then [] else [text]
      ensures Lines() == Pushed(old(Lines()), if edit == '-' then |old(hunkAdds)| else 0, Line(edit, text))
      ensures |old(hunkAdds)| <= |old(Lines())| && AllTagged(old(hunkAdds), '+')
      ensures old(hunkAdds) == old(Lines())[|old(Lines())| - |old(hunkAdds)|..]
      ensures common == old(common) + if edit == ' ' then 1 else 0
      ensures removes == old(removes) + if edit == '-' then 1 else 0
      ensures adds == old(adds) + if edit == '+' then 1 else 0
    {
      hide OldSide, NewSide, Pushed, Grouped;
      ghost var h, r, a := hunk, hunkRemoves, hunkAdds;
      if Grouped(h + r + a) && EndsCommon(h) {
        GroupedMore(h, r, a, Line(edit, text));
      }
      PushedPlaces(h, r, a, Line(edit, text));
      PushedTags(h + r + a, 0, Line(edit, text));
      PushedTags(h + r + a, |a|, Line(edit, text));
      if edit == ' ' {
        common := common + 1;
        FlushEdits();
        hunk := hunk + [Line(' ', text)];
        assert Lines() == h + r + a + [Line(' ', text)];
        PushedCommon(h, r, a, text);
      } else if edit == '-' {
        removes := removes + 1;
        hunkRemoves := hunkRemoves + [Line('-', text)];
        PushedRemove(h, r, a, text);
      } else {
        adds := adds + 1;
        hunkAdds := hunkAdds + [Line('+', text)];
        PushedAdd(h, r, a, text);
      }
    }

    /** Header first, then the flushed body. */
    method PrintTo(text: string) returns (text': string, ghost printed: Printed)
      requires Valid()
      modifies this`hunk, this`hunkRemoves, this`hunkAdds
      ensures Valid()
      ensures printed == Printed(leftStart, rightStart, adds, removes, common, old(Lines()))
      ensures text' == text + Header(printed) + Body(printed.lines)
    {
      printed := Printed(leftStart, rightStart, adds, removes, common, Lines());
      text' := text + Header(Printed(leftStart, rightStart, adds, removes, common, []));
      assert text' == text + Header(printed);
      FlushEdits();
      assert Lines() == printed.lines;
      hide Body, Header, OldSide, NewSide;
      ghost var headed := text';
      assert headed == headed + Body(hunk[..0]) by { assert Body([]) == ""; }
      var i := 0;
      while i < |hunk|
        invariant 0 <= i <= |hunk| && hunk == printed.lines && Lines() == printed.lines
        invariant hunkAdds == hunkRemoves == []
        invariant text' == headed + Body(hunk[..i])
      {
        BodyStep(headed, hunk, i);
        text' := text' + [hunk[i].tag] + hunk[i].text + "\n";
        i := i + 1;
      }
      assert hunk[..i] == hunk;
    }
  }

  lemma BodyStep(text: string, lines: seq<Line>, i: nat)
    requires i < |lines|
    ensures text + Body(lines[..i + 1]) == text + Body(lines[..i]) + [lines[i].tag] + lines[i].text + "\n"
  {
    assert lines[..i + 1][..i] == lines[..i];
  }

  /** A line put before the last `skip` lines. */
  ghost function Pushed(lines: seq<Line>, skip: nat, line: Line): (r: seq<Line>)
    ensures |r| == |lines| + 1
  {
    var at := if skip <= |lines| then |lines| - skip else 0;
    lines[..at] + [line] + lines[at..]
  }

  ghost predicate EndsCommon(lines: seq<Line>) {
    lines == [] || lines[|lines| - 1].tag == ' '
  }

  /** Between two common lines all removals stand before all additions. */
  ghost predicate Grouped(lines: seq<Line>) {
    forall k, m :: 0 <= k < m < |lines| && lines[k].tag == '+' && lines[m].tag == '-' ==> CommonBetween(lines, k, m)
  }

  ghost predicate CommonBetween(lines: seq<Line>, k: int, m: int)
    requires 0 <= k < m < |lines|
  {
    exists j :: k < j < m && lines[j].tag == ' '
  }

  /** A common line or an addition goes to the end, a removal before the pending additions. */
  lemma GroupedMore(h: seq<Line>, r: seq<Line>, a: seq<Line>, line: Line)
    requires Grouped(h + r + a) && EndsCommon(h) && AllTagged(r, '-') && AllTagged(a, '+')
    ensures line.tag == ' ' ==> Grouped(h + r + a + [line])
    ensures line.tag == '+' ==> Grouped(h + r + (a + [line]))
    ensures line.tag == '-' ==> Grouped(h + (r + [line]) + a)
  {
    if line.tag == '-' {
      GroupedByBlocks(h, r + [line], a, h + r + a);
    } else {
      assert h + r + (a + [line]) == h + r + a + [line];
      GroupedAtEnd(h + r + a, line);
    }
  }

  lemma GroupedAtEnd(lines: seq<Line>, line: Line)
    requires Grouped(lines) && line.tag != '-'
    ensures Grouped(lines + [line])
  {
    var more := lines + [line];
    forall k, m | 0 <= k < m < |more| && more[k].tag == '+' && more[m].tag == '-' ensures CommonBetween(more, k, m) {
      assert CommonBetween(lines, k, m);
      var j :| k < j < m && lines[j].tag == ' ';
      assert more[j].tag == ' ';
    }
  }

  lemma GroupedByBlocks(h: seq<Line>, r: seq<Line>, a: seq<Line>, old': seq<Line>)
    requires EndsCommon(h) && AllTagged(r, '-') && AllTagged(a, '+') && h <= old' && Grouped(old')
    ensures Grouped(h + r + a)
  {
    var s := h + r + a;
    forall k, m | 0 <= k < m < |s| && s[k].tag == '+' && s[m].tag == '-' ensures CommonBetween(s, k, m) {
      if m < |h| {
        assert CommonBetween(old', k, m);
        var j :| k < j < m && old'[j].tag == ' ';
        assert s[j].tag == ' ';
      } else {
        BlockOrder(h, r, a, k, m);
        assert s[|h| - 1].tag == ' ';
      }
    }
  }

  lemma BlockOrder(h: seq<Line>, r: seq<Line>, a: seq<Line>, k: nat, m: nat)
    requires k < m < |h| + |r| + |a| && |h| <= m && EndsCommon(h) && AllTagged(r, '-') && AllTagged(a, '+')
    requires (h + r + a)[k].tag == '+' && (h + r + a)[m].tag == '-'
    ensures k < |h| - 1
  {
    var s := h + r + a;
    assert forall i :: |h| <= i < |h| + |r| ==> s[i] == r[i - |h|];
    assert forall i :: |h| + |r| <= i < |s| ==> s[i] == a[i - |h| - |r|];
    assert forall i :: 0 <= i < |h| ==> s[i] == h[i];
  }

  ghost predicate RunAt(lines: seq<Line>, i: nat, n: nat) {
    i + n <= |lines| && forall k :: i <= k < i + n ==> lines[k].tag == ' '
  }

  /** No `n` common lines in a row. */
  ghost predicate NoLongRun(lines: seq<Line>, n: nat) {
    forall i: nat :: !RunAt(lines, i, n)
  }

  lemma RunsAfterCommon(lines: seq<Line>, lead: nat, trail: nat, n: nat, line: Line)
    requires Framed(lines, lead, trail) && NoLongRun(lines, n) && trail + 1 < n
    ensures NoLongRun(Pushed(lines, 0, line), n)
  {
    var more := Pushed(lines, 0, line);
    assert forall k :: 0 <= k < |lines| ==> more[k] == lines[k];
    forall i: nat ensures !RunAt(more, i, n) {
      assert !RunAt(lines, i, n);
      if i + n <= |lines| {
        var k :| i <= k < i + n && lines[k].tag != ' ';
        assert more[k].tag != ' ';
      } else if i + n <= |more| {
        assert more[|lines| - trail - 1].tag != ' ';
      }
    }
  }

  lemma RunsAfterEdit(lines: seq<Line>, skip: nat, n: nat, line: Line)
    requires skip <= |lines| && line.tag != ' ' && n > 0 && NoLongRun(lines, n)
    ensures NoLongRun(Pushed(lines, skip, line), n)
  {
    var more, at := Pushed(lines, skip, line), |lines| - skip;
    assert more[at] == line;
    assert forall k :: 0 <= k < at ==> more[k] == lines[k];
    assert forall k :: at < k < |more| ==> more[k] == lines[k - 1];
    forall i: nat ensures !RunAt(more, i, n) {
      if i + n <= at {
        assert !RunAt(lines, i, n);
        var k :| i <= k < i + n && lines[k].tag != ' ';
        assert more[k].tag != ' ';
      } else if i > at && i + n <= |more| {
        assert !RunAt(lines, i - 1, n);
        var k :| i - 1 <= k < i - 1 + n && lines[k].tag != ' ';
        assert more[k + 1].tag != ' ';
      }
    }
  }

  lemma PushedTags(lines: seq<Line>, skip: nat, line: Line)
    requires WellTagged(lines) && line.tag in {' ', '-', '+'}
    ensures WellTagged(Pushed(lines, skip, line))
  {
  }

  lemma PushedPlaces(h: seq<Line>, r: seq<Line>, a: seq<Line>, line: Line)
    ensures (h + r + a)[|h + r + a| - |a|..] == a
    ensures Pushed(h + r + a, 0, line) == h + r + a + [line] + [] + [] == h + r + (a + [line])
    ensures Pushed(h + r + a, |a|, line) == h + (r + [line]) + a
  {
    var all := h + r + a;
    assert all[..|all| - |a|] == h + r;
  }

  /** A body with `lead` common lines before its first edit and `trail` behind its last. */
  ghost predicate Framed(lines: seq<Line>, lead: nat, trail: nat) {
    && lead + trail < |lines|
    && AllTagged(lines[..lead], ' ') && lines[lead].tag != ' '
    && AllTagged(lines[|lines| - trail..], ' ') && lines[|lines| - trail - 1].tag != ' '
  }

  lemma FramedCommon(lines: seq<Line>, lead: nat, trail: nat, line: Line)
    requires Framed(lines, lead, trail) && line.tag == ' '
    ensures Framed(Pushed(lines, 0, line), lead, trail + 1)
  {
    var more := Pushed(lines, 0, line);
    assert more[..lead] == lines[..lead];
    assert more[|more| - trail - 1..] == lines[|lines| - trail..] + [line];
  }

  lemma EditsAreLate(lines: seq<Line>, lead: nat, at: nat)
    requires lead <= |lines| && at <= |lines|
    requires AllTagged(lines[at..], '+') && AllTagged(lines[..lead], ' ')
    ensures lead <= at
  {
    hide AllTagged;
    if at < lead {
      TagsOfSlice(lines, at, |lines|, '+', at);
      TagsOfSlice(lines, 0, lead, ' ', at);
    }
  }

  lemma TagsOfSlice(lines: seq<Line>, i: nat, j: nat, tag: char, k: nat)
    requires i <= k < j <= |lines| && (AllTagged(lines[i..j], tag) || (j == |lines| && AllTagged(lines[i..], tag))
                                       || (i == 0 && AllTagged(lines[..j], tag)))
    ensures lines[k].tag == tag
  {
    assert lines[k] == lines[i..j][k - i];
    assert j == |lines| ==> lines[i..j] == lines[i..];
    assert i == 0 ==> lines[i..j] == lines[..j];
  }

  /** An edit opens the middle of a body or closes its last run of common lines. */
  lemma FramedEdit(lines: seq<Line>, lead: nat, trail: nat, skip: nat, line: Line)
    requires line.tag != ' ' && skip <= |lines| && AllTagged(lines[|lines| - skip..], '+')
    requires Framed(lines, lead, trail) || (AllTagged(lines, ' ') && |lines| == lead)
    ensures Framed(Pushed(lines, skip, line), lead, 0)
  {
    var more, at := Pushed(lines, skip, line), |lines| - skip;
    assert forall k :: at <= k < |lines| ==> lines[k] == lines[at..][k - at];
    EditsAreLate(lines, lead, at);
    assert more[..lead] == lines[..lead];
    assert |more| - 1 == at ==> more[at] == line;
    assert |more| - 1 > at ==> more[|more| - 1] == lines[|lines| - 1];
  }

  lemma CommonPushed(lines: seq<Line>, line: Line)
    ensures AllTagged(lines, ' ') && line.tag == ' ' ==> AllTagged(Pushed(lines, 0, line), ' ')
  {
  }

  lemma LinePushed(lines: seq<Line>, skip: nat, line: Line)
    requires skip <= |lines| && AllTagged(lines[|lines| - skip..], '+') && (line.tag == ' ' ==> skip == 0)
    ensures var more := Pushed(lines, skip, line);
            && (line.tag != ' ' && AllTagged(lines, ' ') ==> Framed(more, |lines|, 0))
            && (line.tag == ' ' && AllTagged(lines, ' ') ==> AllTagged(more, ' '))
            && (forall lead, trail: nat :: Framed(lines, lead, trail) ==>
                  Framed(more, lead, if line.tag == ' ' then trail + 1 else 0))
            && (line.tag == ' ' ==> forall lead: nat, trail: nat, n: nat ::
                  Framed(lines, lead, trail) && NoLongRun(lines, n) && trail + 1 < n ==> NoLongRun(more, n))
            && (line.tag != ' ' ==> forall n: nat :: n > 0 && NoLongRun(lines, n) ==> NoLongRun(more, n))
  {
    hide Framed, NoLongRun, Pushed;
    if line.tag == ' ' {
      forall lead: nat, trail: nat, n: nat | Framed(lines, lead, trail) && NoLongRun(lines, n) && trail + 1 < n
        ensures NoLongRun(Pushed(lines, skip, line), n)
      {
        RunsAfterCommon(lines, lead, trail, n, line);
      }
      CommonPushed(lines, line);
    } else {
      forall n: nat | n > 0 && NoLongRun(lines, n) ensures NoLongRun(Pushed(lines, skip, line), n) {
        RunsAfterEdit(lines, skip, n, line);
      }
    }
    if line.tag != ' ' && AllTagged(lines, ' ') {
      FramedEdit(lines, |lines|, 0, skip, line);
    }
    forall lead: nat, trail: nat | Framed(lines, lead, trail)
      ensures Framed(Pushed(lines, skip, line), lead, if line.tag == ' ' then trail + 1 else 0)
    {
      if line.tag == ' ' {
        FramedCommon(lines, lead, trail, line);
      } else {
        FramedEdit(lines, lead, trail, skip, line);
      }
    }
  }

  lemma PushedCommon(h: seq<Line>, r: seq<Line>, a: seq<Line>, text: string)
    ensures OldSide(h + r + a + [Line(' ', text)] + [] + []) == OldSide(h + r + a) + [text]
    ensures NewSide(h + r + a + [Line(' ', text)] + [] + []) == NewSide(h + r + a) + [text]
  {
    var all := h + r + a;
    assert h + r + a + [Line(' ', text)] + [] + [] == all + [Line(' ', text)];
    assert (all + [Line(' ', text)])[..|all|] == all;
  }

  lemma PushedAdd(h: seq<Line>, r: seq<Line>, a: seq<Line>, text: string)
    ensures OldSide(h + r + (a + [Line('+', text)])) == OldSide(h + r + a)
    ensures NewSide(h + r + (a + [Line('+', text)])) == NewSide(h + r + a) + [text]
  {
    var all := h + r + a;
    assert h + r + (a + [Line('+', text)]) == all + [Line('+', text)];
    assert (all + [Line('+', text)])[..|all|] == all;
  }

  lemma PushedRemove(h: seq<Line>, r: seq<Line>, a: seq<Line>, text: string)
    requires AllTagged(a, '+')
    ensures OldSide(h + (r + [Line('-', text)]) + a) == OldSide(h + r + a) + [text]
    ensures NewSide(h + (r + [Line('-', text)]) + a) == NewSide(h + r + a)
  {
    var front, line := h + r, Line('-', text);
    assert h + (r + [line]) == front + [line];
    SidesOfRemoval(front, line);
    hide OldSide, NewSide, AllTagged;
    SidesAppend(front + [line], a);
    SidesAppend(front, a);
    OneSided(a);
    assert OldSide(front) + [text] + [] == OldSide(front) + [] + [text];
  }

  lemma SidesOfRemoval(front: seq<Line>, line: Line)
    requires line.tag == '-'
    ensures OldSide(front + [line]) == OldSide(front) + [line.text] && NewSide(front + [line]) == NewSide(front)
  {
    assert (front + [line])[..|front|] == front;
  }

  // ----- patches --------------------------------------------------------------------------------

  /** What a patch tool does: copy up to the next hunk, insist that the hunk's old side is there,
      put its new side in place. */
  function Patch(a: seq<string>, from: nat, hunks: seq<Printed>): (r: Option<seq<string>>)
    requires from <= |a|
    decreases |hunks|
  {
    if hunks == [] then Some(a[from..])
    else
      var h := hunks[0];
      var start, stop := h.leftStart - 1, h.leftStart - 1 + |OldSide(h.lines)|;
      if start < from || stop > |a| || a[start..stop] != OldSide(h.lines) then None
      else
        match Patch(a, stop, hunks[1..])
        case None => None
        case Some(rest) => Some(a[from..start] + NewSide(h.lines) + rest)
  }

  /** Where the first `k` hunks stop on the old and on the new side. */
  function LeftEnd(hunks: seq<Printed>, k: nat): int
    requires k <= |hunks|
  {
    if k == 0 then 0 else hunks[k - 1].leftStart - 1 + |OldSide(hunks[k - 1].lines)|
  }

  function RightEnd(hunks: seq<Printed>, k: nat): int
    requires k <= |hunks|
  {
    if k == 0 then 0 else hunks[k - 1].rightStart - 1 + |NewSide(hunks[k - 1].lines)|
  }

  /** Hunk `k` starts after its predecessor on both sides, at the same distance and with equal text in
      between; its two sides are the slices that its starts and counters name. */
  ghost predicate Fits(a: seq<string>, b: seq<string>, hunks: seq<Printed>, k: nat)
    requires k < |hunks|
  {
    var h := hunks[k];
    var l, r := h.leftStart - 1, h.rightStart - 1;
    var l', r' := l + h.removes + h.common, r + h.adds + h.common;
    && 0 <= LeftEnd(hunks, k) <= l <= l' <= |a| && 0 <= RightEnd(hunks, k) <= r <= r' <= |b|
    && a[LeftEnd(hunks, k)..l] == b[RightEnd(hunks, k)..r]
    && OldSide(h.lines) == a[l..l'] && NewSide(h.lines) == b[r..r']
    && (h.adds > 0 || h.removes > 0)
  }

  /** The hunks, with the unchanged text around them, describe how `a` becomes `b`. */
  ghost predicate Describes(a: seq<string>, b: seq<string>, hunks: seq<Printed>) {
    && (forall k :: 0 <= k < |hunks| ==> Fits(a, b, hunks, k))
    && 0 <= LeftEnd(hunks, |hunks|) <= |a| && 0 <= RightEnd(hunks, |hunks|) <= |b|
    && a[LeftEnd(hunks, |hunks|)..] == b[RightEnd(hunks, |hunks|)..]
  }

  lemma {:induction false} DescribedPatches(a: seq<string>, b: seq<string>, hunks: seq<Printed>, k: nat)
    requires Describes(a, b, hunks) && k <= |hunks|
    ensures 0 <= LeftEnd(hunks, k) <= |a| && 0 <= RightEnd(hunks, k) <= |b|
    ensures Patch(a, LeftEnd(hunks, k), hunks[k..]) == Some(b[RightEnd(hunks, k)..])
    decreases |hunks| - k
  {
    if k < |hunks| {
      assert Fits(a, b, hunks, k);
      DescribedPatches(a, b, hunks, k + 1);
      assert hunks[k..][0] == hunks[k] && hunks[k..][1..] == hunks[k + 1..];
      var h := hunks[k];
      var r, r' := h.rightStart - 1, h.rightStart - 1 + h.adds + h.common;
      hide OldSide, NewSide, Describes;
      ThreeParts(b, RightEnd(hunks, k), r, r');
    }
  }

  lemma ThreeParts<T>(s: seq<T>, i: nat, j: nat, k: nat)
    requires i <= j <= k <= |s|
    ensures s[i..] == s[i..j] + s[j..k] + s[k..]
  {
  }

  // ----- reading the script -----------------------------------------------------------------------

  /** No edit among the next `n` steps from `e`, or none at all. */
  ghost predicate Quiet(es: seq<Edit>, e: nat, n: nat) {
    forall k :: e <= k < e + n && k < |es| ==> es[k] == Match
  }

  lemma UsedStep(es: seq<Edit>, e: nat)
    requires e < |es|
    ensures LeftUsed(es[..e + 1]) == LeftUsed(es[..e]) + if es[e] == Add then 0 else 1
    ensures RightUsed(es[..e + 1]) == RightUsed(es[..e]) + if es[e] == Remove then 0 else 1
  {
    assert es[..e + 1][..e] == es[..e];
  }

  /** The cursor into both inputs after `e` steps. */
  ghost predicate At(left: seq<string>, right: seq<string>, es: seq<Edit>, e: nat, l: nat, r: nat) {
    && e <= |es| && l == LeftUsed(es[..e]) && r == RightUsed(es[..e])
    && l <= |left| && r <= |right|
    && (e == |es| ==> l == |left| && r == |right|)
  }

  lemma AtStep(left: seq<string>, right: seq<string>, es: seq<Edit>, e: nat, l: nat, r: nat)
    requires Turns(left, right, es) && At(left, right, es, e, l, r) && e < |es|
    ensures es[e] != Add ==> l < |left|
    ensures es[e] != Remove ==> r < |right|
    ensures es[e] == Match ==> left[l] == right[r]
    ensures At(left, right, es, e + 1, l + (if es[e] == Add then 0 else 1), r + (if es[e] == Remove then 0 else 1))
  {
    assert StepFits(left, right, es, e);
    UsedStep(es, e);
    if e + 1 == |es| {
      assert es[..e + 1] == es;
    }
  }

  /** Skips to the next edit; what is skipped is the same text on both sides. */
  method FindFirstEdit(left: seq<string>, right: seq<string>, es: seq<Edit>, l0: nat, r0: nat, e0: nat)
    returns (li: nat, ri: nat, e: nat)
    requires Turns(left, right, es) && At(left, right, es, e0, l0, r0)
    ensures e0 <= e && At(left, right, es, e, li, ri)
    ensures li - l0 == ri - r0 == e - e0
    ensures CTexts(left)[l0..li] == CTexts(right)[r0..ri]
    ensures e < |es| ==> es[e] != Match
    ensures forall k :: e0 <= k < e ==> es[k] == Match
  {
    hide CText, CTexts;
    li, ri, e := l0, r0, e0;
    while e < |es| && es[e] == Match
      invariant e0 <= e && At(left, right, es, e, li, ri)
      invariant li - l0 == ri - r0 == e - e0
      invariant CTexts(left)[l0..li] == CTexts(right)[r0..ri]
      invariant forall k :: e0 <= k < e ==> es[k] == Match
    {
      AtStep(left, right, es, e, li, ri);
      EqualShown(left, right, li, ri);
      OneMore(CTexts(left), l0, li);
      OneMore(CTexts(right), r0, ri);
      li, ri, e := li + 1, ri + 1, e + 1;
    }
  }

  lemma EqualShown(left: seq<string>, right: seq<string>, l: nat, r: nat)
    requires l < |left| && r < |right| && left[l] == right[r]
    ensures CTexts(left)[l] == CTexts(right)[r]
  {
  }

  lemma OneMore<T>(s: seq<T>, i: nat, j: nat)
    requires i <= j < |s|
    ensures s[i..j + 1] == s[i..j] + [s[j]]
  {
  }

  /** Looks ahead from `e` for the next edit: is there none, or is it at least `context` steps off? */
  method NextEditIsFar(es: seq<Edit>, e: nat, context: nat) returns (far: bool)
    requires e < |es|
    ensures far <==> Quiet(es, e, context)
  {
    var it := e;
    while it < |es| && es[it] == Match
      invariant e <= it <= |es|
      invariant forall k :: e <= k < it ==> es[k] == Match
    {
      it := it + 1;
    }
    far := it == |es| || it - e >= context;
  }

  /** The state of a hunk under construction: its sides are the slices from its start to the cursor. */
  ghost predicate Covers(left: seq<string>, right: seq<string>, old': seq<string>, new': seq<string>, l0: int, l: int,
                         r0: int, r: int)
  {
    && 0 <= l0 <= l <= |left| && 0 <= r0 <= r <= |right|
    && old' == CTexts(left)[l0..l] && new' == CTexts(right)[r0..r]
  }

  lemma CoversMore(left: seq<string>, right: seq<string>, o: seq<string>, n: seq<string>, l0: int, l: int, r0: int,
                   r: int, edit: Edit)
    requires Covers(left, right, o, n, l0, l, r0, r)
    requires edit != Add ==> l < |left|
    requires edit != Remove ==> r < |right|
    ensures Covers(left, right, o + (if edit == Add then [] else [CText(left[l])]),
                   n + (if edit == Remove then [] else [CText(right[r])]),
                   l0, l + (if edit == Add then 0 else 1), r0, r + (if edit == Remove then 0 else 1))
  {
    hide CText;
    if edit != Add {
      assert CTexts(left)[l0..l + 1] == CTexts(left)[l0..l] + [CText(left[l])];
    }
    if edit != Remove {
      assert CTexts(right)[r0..r + 1] == CTexts(right)[r0..r] + [CText(right[r])];
    }
  }

  /** The lines of one edit, pushed onto a hunk that covers everything before it. */
  method PushEdit(h: Hunk, left: seq<string>, right: seq<string>, edit: Edit, l0: nat, li: nat, r0: nat, ri: nat)
    requires h.Valid() && Covers(left, right, h.Old(), h.New(), l0, li, r0, ri)
    requires edit != Add ==> li < |left|
    requires edit != Remove ==> ri < |right|
    requires edit == Match ==> CText(left[li]) == CText(right[ri])
    modifies h
    ensures h.Valid() && h.leftStart == old(h.leftStart) && h.rightStart == old(h.rightStart)
    ensures Covers(left, right, h.Old(), h.New(), l0, li + (if edit == Add then 0 else 1), r0,
                   ri + (if edit == Remove then 0 else 1))
    ensures h.removes == old(h.removes) + if edit in {Remove, Replace} then 1 else 0
    ensures h.adds == old(h.adds) + if edit in {Add, Replace} then 1 else 0
    ensures forall lead, trail: nat :: Framed(old(h.Lines()), lead, trail) ==>
              Framed(h.Lines(), lead, if edit == Match then trail + 1 else 0)
    ensures edit != Match && AllTagged(old(h.Lines()), ' ') ==> Framed(h.Lines(), |old(h.Lines())|, 0)
    ensures old(h.Building()) ==> h.Building()
    ensures edit != Match ==> forall n: nat :: n > 0 && NoLongRun(old(h.Lines()), n) ==> NoLongRun(h.Lines(), n)
    ensures edit == Match ==> forall lead: nat, trail: nat, n: nat ::
              Framed(old(h.Lines()), lead, trail) && NoLongRun(old(h.Lines()), n) && trail + 1 < n ==>
              NoLongRun(h.Lines(), n)
  {
    hide CText, Covers, OldSide, NewSide, CTexts, Framed, Pushed, NoLongRun, Grouped;
    CoversMore(left, right, h.Old(), h.New(), l0, li, r0, ri, edit);
    ghost var o, n := h.Old(), h.New();
    if edit == Match || edit == Remove || edit == Replace {
      ghost var lines, skip := h.Lines(), |h.hunkAdds|;
      h.PushLine(if edit == Match then ' ' else '-', CText(left[li]));
      LinePushed(lines, if edit == Match then 0 else skip, Line(if edit == Match then ' ' else '-', CText(left[li])));
    }
    if edit == Add || edit == Replace {
      ghost var lines := h.Lines();
      h.PushLine('+', CText(right[ri]));
      LinePushed(lines, 0, Line('+', CText(right[ri])));
    }
    assert h.Old() == o + (if edit == Add then [] else [CText(left[li])]);
    assert h.New() == n + (if edit == Remove then [] else [CText(right[ri])]);
  }

  /** The first lines of a hunk: `prefix` lines before the cursor, the same on both sides unless the
      hunk is going to be dropped. */
  method StartHunk(left: seq<string>, right: seq<string>, l: nat, r: nat, prefix: nat) returns (h: Hunk)
    requires prefix <= l <= |left| && prefix <= r <= |right|
    ensures fresh(h) && h.Valid() && h.leftStart == l - prefix + 1 && h.rightStart == r - prefix + 1
    ensures CTexts(left)[l - prefix..l] == CTexts(right)[r - prefix..r] ==>
              Covers(left, right, h.Old(), h.New(), l - prefix, l, r - prefix, r)
    ensures h.adds == h.removes == 0
    ensures AllTagged(h.Lines(), ' ') && |h.Lines()| == prefix && h.Building()
  {
    hide CText, OldSide, NewSide, Framed, Pushed, CTexts, NoLongRun, Grouped;
    ghost var same := CTexts(left)[l - prefix..l] == CTexts(right)[r - prefix..r];
    h := new Hunk(l - prefix + 1, r - prefix + 1);
    var i := prefix;
    while i > 0
      invariant 0 <= i <= prefix
      invariant fresh(h) && h.Valid() && h.leftStart == l - prefix + 1 && h.rightStart == r - prefix + 1
      invariant same ==> Covers(left, right, h.Old(), h.New(), l - prefix, l - i, r - prefix, r - i)
      invariant h.adds == h.removes == 0
      invariant AllTagged(h.Lines(), ' ') && |h.Lines()| == prefix - i && h.Building()
    {
      ghost var lines := h.Lines();
      LinePushed(lines, 0, Line(' ', CText(left[l - i])));
      if same {
        SameText(left, right, l, r, prefix, i);
        CoversMore(left, right, h.Old(), h.New(), l - prefix, l - i, r - prefix, r - i, Match);
      }
      h.PushLine(' ', CText(left[l - i]));
      i := i - 1;
    }
  }

  lemma SameText(left: seq<string>, right: seq<string>, l: nat, r: nat, prefix: nat, i: nat)
    requires 0 < i <= prefix && prefix <= l <= |left| && prefix <= r <= |right|
    requires CTexts(left)[l - prefix..l] == CTexts(right)[r - prefix..r]
    ensures CText(left[l - i]) == CText(right[r - i])
  {
    hide CText;
    var k := prefix - i;
    assert CTexts(left)[l - prefix..l][k] == CTexts(right)[r - prefix..r][k];
  }

  /** Extends the hunk until enough suffix is found or the input is over. */
  method GrowHunk(h: Hunk, left: seq<string>, right: seq<string>, es: seq<Edit>, context: nat, l1: nat, r1: nat,
                  e1: nat)
    returns (li: nat, ri: nat, e: nat, ghost trail: nat)
    requires h.Valid() && Turns(left, right, es) && At(left, right, es, e1, l1, r1)
    requires AllTagged(h.Lines(), ' ') && |h.Lines()| <= context && h.Building()
    requires 0 < h.leftStart && 0 < h.rightStart
    requires e1 < |es| ==> Covers(left, right, h.Old(), h.New(), h.leftStart - 1, l1, h.rightStart - 1, r1)
    requires h.adds == h.removes == 0 && e1 <= |es| && (e1 < |es| ==> es[e1] != Match)
    modifies h
    ensures h.Valid() && h.leftStart == old(h.leftStart) && h.rightStart == old(h.rightStart)
    ensures e1 <= e <= |es| && At(left, right, es, e, li, ri)
    ensures e1 < |es| ==> Covers(left, right, h.Old(), h.New(), h.leftStart - 1, li, h.rightStart - 1, ri)
    ensures (h.adds > 0 || h.removes > 0) <==> e1 < e
    ensures context > 0 && e1 < |es| ==> e1 < e
    ensures context == 0 ==> e == e1
    ensures e < |es| ==> Quiet(es, e, context) && context <= li && context <= ri
    ensures h.removes == Removed(es[e1..e]) && h.adds == Added(es[e1..e])
    ensures e1 < e ==> Framed(h.Lines(), |old(h.Lines())|, trail)
    ensures e1 < e ==> NoLongRun(h.Lines(), 2 * context)
    ensures h.Building()
    ensures trail <= context && (trail == context || e == |es|)
  {
    hide *;
    li, ri, e := l1, r1, e1;
    var suffix: nat := 0;
    CountNone(es, e1);
    ShortStart(h.Lines(), context);
    while e < |es|
      invariant h.Valid() && h.leftStart == old(h.leftStart) && h.rightStart == old(h.rightStart)
      invariant e1 <= e <= |es| && At(left, right, es, e, li, ri)
      invariant e1 < |es| ==> Covers(left, right, h.Old(), h.New(), h.leftStart - 1, li, h.rightStart - 1, ri)
      invariant (h.adds > 0 || h.removes > 0) <==> e1 < e
      invariant suffix <= li && suffix <= ri
      invariant e == e1 ==> suffix == 0 && AllTagged(h.Lines(), ' ') && |h.Lines()| == |old(h.Lines())|
      invariant e1 < e ==> Framed(h.Lines(), |old(h.Lines())|, suffix)
      invariant suffix > context ==> suffix < 2 * context && !Quiet(es, e, 2 * context - suffix)
      invariant h.Building() && (context > 0 ==> NoLongRun(h.Lines(), 2 * context))
      invariant context == 0 ==> e == e1
      invariant h.removes == Removed(es[e1..e]) && h.adds == Added(es[e1..e])
      decreases |es| - e
    {
      if suffix >= context {
        var far := NextEditIsFar(es, e, context);
        if far {
          break;
        }
        NotFarAtZero(es, e, context);
      }
      var edit := es[e];
      ghost var was := suffix;
      suffix := if edit == Match then suffix + 1 else 0;
      AtStep(left, right, es, e, li, ri);
      CountStep(es, e1, e);
      ghost var lines := h.Lines();
      PushEdit(h, left, right, edit, h.leftStart - 1, li, h.rightStart - 1, ri);
      assert e > e1 ==> Framed(lines, |old(h.Lines())|, was);
      assert Framed(h.Lines(), |old(h.Lines())|, suffix);
      if edit != Add { li := li + 1; }
      if edit != Remove { ri := ri + 1; }
      EditAhead(es, e, context, was);
      e := e + 1;
    }
    QuietAtEnd(es, 2 * context - suffix);
    QuietForLess(es, e, context, suffix);
    trail := suffix;
  }

  /** Once the context behind an edit is complete, the next edit comes within another context. */
  lemma EditAhead(es: seq<Edit>, e: nat, context: nat, suffix: nat)
    requires e < |es| && (suffix >= context ==> !Quiet(es, e, context))
    requires suffix > context ==> suffix < 2 * context && !Quiet(es, e, 2 * context - suffix)
    ensures es[e] == Match && suffix >= context ==>
              suffix + 1 < 2 * context && !Quiet(es, e + 1, 2 * context - suffix - 1)
  {
  }

  lemma QuietAtEnd(es: seq<Edit>, n: int)
    ensures n >= 0 ==> Quiet(es, |es|, n)
  {
  }

  lemma QuietForLess(es: seq<Edit>, e: nat, context: nat, suffix: nat)
    requires suffix > context ==> suffix < 2 * context && !Quiet(es, e, 2 * context - suffix)
    ensures Quiet(es, e, context) ==> suffix <= context
  {
  }

  lemma ShortStart(lines: seq<Line>, context: nat)
    requires |lines| <= context
    ensures context > 0 ==> NoLongRun(lines, 2 * context)
  {
  }

  lemma NotFarAtZero(es: seq<Edit>, e: nat, context: nat)
    requires !Quiet(es, e, context)
    ensures context > 0
  {
  }

  lemma CountNone(es: seq<Edit>, e: nat)
    requires e <= |es|
    ensures Removed(es[e..e]) == 0 && Added(es[e..e]) == 0
  {
  }

  /** How many lines a script removes and adds. */
  function Removed(es: seq<Edit>): nat {
    if es == [] then 0
    else Removed(es[..|es| - 1]) + if es[|es| - 1] in {Remove, Replace} then 1 else 0
  }

  function Added(es: seq<Edit>): nat {
    if es == [] then 0
    else Added(es[..|es| - 1]) + if es[|es| - 1] in {Add, Replace} then 1 else 0
  }

  lemma CountStep(es: seq<Edit>, e1: nat, e: nat)
    requires e1 <= e < |es|
    ensures Removed(es[e1..e + 1]) == Removed(es[e1..e]) + if es[e] in {Remove, Replace} then 1 else 0
    ensures Added(es[e1..e + 1]) == Added(es[e1..e]) + if es[e] in {Add, Replace} then 1 else 0
  {
    var s := es[e1..e + 1];
    assert s[..|s| - 1] == es[e1..e] && s[|s| - 1] == es[e];
  }

  function RemovedBy(hunks: seq<Printed>): nat {
    if hunks == [] then 0 else RemovedBy(hunks[..|hunks| - 1]) + hunks[|hunks| - 1].removes
  }

  function AddedBy(hunks: seq<Printed>): nat {
    if hunks == [] then 0 else AddedBy(hunks[..|hunks| - 1]) + hunks[|hunks| - 1].adds
  }

  /** The diff after the first `e` steps: its hunks describe exactly what was consumed, and hold as
      many removals and additions as the script. */
  ghost predicate Progress(left: seq<string>, right: seq<string>, es: seq<Edit>, hunks: seq<Printed>, e: nat, li: nat,
                           ri: nat)
  {
    && e <= |es| && At(left, right, es, e, li, ri)
    && (forall k :: 0 <= k < |hunks| ==> Fits(CTexts(left), CTexts(right), hunks, k))
    && LeftEnd(hunks, |hunks|) == li && RightEnd(hunks, |hunks|) == ri
    && RemovedBy(hunks) == Removed(es[..e]) && AddedBy(hunks) == Added(es[..e])
  }

  /** A new hunk continues the description: its start lies behind the previous hunk on both sides. */
  lemma HunkAdded(left: seq<string>, right: seq<string>, es: seq<Edit>, hunks: seq<Printed>, h: Printed, e0: nat,
                  l0: nat, r0: nat, e1: nat, l1: nat, r1: nat, e2: nat, l2: nat, r2: nat)
    requires Progress(left, right, es, hunks, e0, l0, r0)
    requires e0 <= e1 <= e2 <= |es| && At(left, right, es, e2, l2, r2)
    requires l1 - l0 == r1 - r0 && l1 <= |left| && r1 <= |right| && l0 <= l1
    requires CTexts(left)[l0..l1] == CTexts(right)[r0..r1]
    requires forall k :: e0 <= k < e1 ==> es[k] == Match
    requires l0 < h.leftStart <= l1 + 1 && r0 < h.rightStart <= r1 + 1 && l1 - h.leftStart == r1 - h.rightStart
    requires Covers(left, right, OldSide(h.lines), NewSide(h.lines), h.leftStart - 1, l2, h.rightStart - 1, r2)
    requires |OldSide(h.lines)| == h.removes + h.common && |NewSide(h.lines)| == h.adds + h.common
    requires h.removes == Removed(es[e1..e2]) && h.adds == Added(es[e1..e2])
    requires h.adds > 0 || h.removes > 0
    ensures Progress(left, right, es, hunks + [h], e2, l2, r2)
  {
    hide OldSide, NewSide, At, CText, CTexts, Removed, Added;
    var all := hunks + [h];
    assert all[..|hunks|] == hunks;
    Unchanged(es, e0, e1);
    CountSplit(es, e1, e2);
    CommonFront(CTexts(left), CTexts(right), l0, l1, r0, r1, h.leftStart - 1, h.rightStart - 1);
    FitsStill(CTexts(left), CTexts(right), hunks, h);
    LastFits(left, right, hunks, h, l0, r0, l2, r2);
    hide Fits, LeftEnd, RightEnd, Covers;
  }

  lemma LastFits(left: seq<string>, right: seq<string>, hunks: seq<Printed>, h: Printed, l0: nat, r0: nat, l2: nat,
                 r2: nat)
    requires LeftEnd(hunks, |hunks|) == l0 < h.leftStart <= |left| + 1
    requires RightEnd(hunks, |hunks|) == r0 < h.rightStart <= |right| + 1
    requires CTexts(left)[l0..h.leftStart - 1] == CTexts(right)[r0..h.rightStart - 1]
    requires Covers(left, right, OldSide(h.lines), NewSide(h.lines), h.leftStart - 1, l2, h.rightStart - 1, r2)
    requires |OldSide(h.lines)| == h.removes + h.common && |NewSide(h.lines)| == h.adds + h.common
    requires h.adds > 0 || h.removes > 0
    ensures var all := hunks + [h];
            && Fits(CTexts(left), CTexts(right), all, |hunks|)
            && LeftEnd(all, |all|) == l2 && RightEnd(all, |all|) == r2
  {
    hide OldSide, NewSide, CTexts;
    EndsStay(hunks, h);
  }

  lemma EndsStay(hunks: seq<Printed>, h: Printed)
    ensures LeftEnd(hunks + [h], |hunks|) == LeftEnd(hunks, |hunks|)
    ensures RightEnd(hunks + [h], |hunks|) == RightEnd(hunks, |hunks|)
  {
    hide OldSide, NewSide;
  }

  lemma CommonFront<T>(a: seq<T>, b: seq<T>, l0: nat, l1: nat, r0: nat, r1: nat, l: nat, r: nat)
    requires l0 <= l <= l1 <= |a| && r0 <= r <= r1 <= |b| && l1 - l == r1 - r && a[l0..l1] == b[r0..r1]
    ensures a[l0..l] == b[r0..r]
  {
    SliceFront(a, l0, l, l1);
    SliceFront(b, r0, r, r1);
  }

  lemma SliceFront<T>(s: seq<T>, i: nat, j: nat, k: nat)
    requires i <= j <= k <= |s|
    ensures s[i..j] == s[i..k][..j - i]
  {
  }

  /** What fits keeps fitting when a hunk is added behind it. */
  lemma FitsStill(a: seq<string>, b: seq<string>, hunks: seq<Printed>, h: Printed)
    requires forall k :: 0 <= k < |hunks| ==> Fits(a, b, hunks, k)
    ensures forall k :: 0 <= k < |hunks| ==> Fits(a, b, hunks + [h], k)
  {
    hide OldSide, NewSide;
    forall k | 0 <= k < |hunks| ensures Fits(a, b, hunks + [h], k) {
      assert Fits(a, b, hunks, k);
    }
  }

  lemma {:induction false} Unchanged(es: seq<Edit>, e0: nat, e1: nat)
    requires e0 <= e1 <= |es| && forall k :: e0 <= k < e1 ==> es[k] == Match
    ensures Removed(es[..e0]) == Removed(es[..e1]) && Added(es[..e0]) == Added(es[..e1])
    decreases e1
  {
    if e0 < e1 {
      Unchanged(es, e0, e1 - 1);
      assert es[..e1][..e1 - 1] == es[..e1 - 1];
    }
  }

  lemma {:induction false} CountSplit(es: seq<Edit>, e1: nat, e2: nat)
    requires e1 <= e2 <= |es|
    ensures Removed(es[..e2]) == Removed(es[..e1]) + Removed(es[e1..e2])
    ensures Added(es[..e2]) == Added(es[..e1]) + Added(es[e1..e2])
    decreases e2
  {
    if e1 < e2 {
      CountSplit(es, e1, e2 - 1);
      CountStep(es, e1, e2 - 1);
      CountStep(es, 0, e2 - 1);
      assert es[0..e2] == es[..e2] && es[0..e2 - 1] == es[..e2 - 1];
    }
  }

  /** When only matches are left, the description is complete. */
  lemma ProgressDescribes(left: seq<string>, right: seq<string>, es: seq<Edit>, hunks: seq<Printed>, e: nat, li: nat,
                          ri: nat)
    requires Progress(left, right, es, hunks, e, li, ri)
    requires |left| - li == |right| - ri >= 0 && CTexts(left)[li..|left|] == CTexts(right)[ri..|right|]
    requires forall k :: e <= k < |es| ==> es[k] == Match
    ensures Describes(CTexts(left), CTexts(right), hunks)
    ensures RemovedBy(hunks) == Removed(es) && AddedBy(hunks) == Added(es)
  {
    hide CText, OldSide, NewSide, Removed, Added, RemovedBy, AddedBy, Fits, At;
    Unchanged(es, e, |es|);
    assert es[..|es|] == es;
    var a, b := CTexts(left), CTexts(right);
    assert a[li..] == a[li..|left|] && b[ri..] == b[ri..|right|];
  }

  /** A hunk has `context` common lines before its first and behind its last edit, fewer only where the
      texts begin or end, and no more than two contexts' worth less one between two edits. Between common
      lines its removals stand before its additions. */
  ghost predicate InContext(left: seq<string>, right: seq<string>, h: Printed, context: nat) {
    WellTagged(h.lines) && Grouped(h.lines) && NoLongRun(h.lines, 2 * context) &&
    exists lead: nat, trail: nat :: Framed(h.lines, lead, trail) && ContextFits(left, right, h, context, lead, trail)
  }

  ghost predicate ContextFits(left: seq<string>, right: seq<string>, h: Printed, context: nat, lead: nat, trail: nat) {
    && lead <= context && (lead == context || h.leftStart == 1)
    && trail <= context
    && (trail == context ||
        (h.leftStart - 1 + |OldSide(h.lines)| == |left| && h.rightStart - 1 + |NewSide(h.lines)| == |right|))
  }

  /** What a diff has to be: hunks that describe the change, hold as many removals and additions as the
      script, keep to the context and are a patch from `left` to `right`. */
  ghost predicate IsDiff(left: seq<string>, right: seq<string>, context: nat, es: seq<Edit>, hunks: seq<Printed>) {
    && Describes(CTexts(left), CTexts(right), hunks)
    && RemovedBy(hunks) == Removed(es) && AddedBy(hunks) == Added(es)
    && (forall k :: 0 <= k < |hunks| ==> InContext(left, right, hunks[k], context))
    && Patch(CTexts(left), 0, hunks) == Some(CTexts(right))
  }

  /** The text is that of hunks which turn `a` into `b`. */
  ghost predicate RendersPatch(text: string, a: seq<string>, b: seq<string>) {
    exists hunks :: text == Rendered(hunks) && Patch(a, 0, hunks) == Some(b)
  }

  lemma RenderedPatchIff(hunks: seq<Printed>, text: string, context: nat, a: seq<string>, b: seq<string>)
    requires text == Rendered(hunks) && (context > 0 ==> Describes(a, b, hunks)) && (context == 0 ==> hunks == [])
    ensures RendersPatch(text, a, b) <==> context > 0 || a == b
  {
    PatchIff(a, b, hunks);
    hide Describes, Patch;
    forall hs: seq<Printed> | hunks == [] && text == Rendered(hs) ensures hs == [] {
      NotEmpty(hs);
    }
  }

  lemma NotEmpty(hunks: seq<Printed>)
    ensures Rendered(hunks) == "" <==> hunks == []
  {
  }

  /** The whole diff. With a positive context it renders hunks that are a patch from `left` to `right`;
      with context 0 it is empty. */
  method CreateUnifiedDiff(left: seq<string>, right: seq<string>, context: nat, round: Rounding) returns (text: string)
    ensures context > 0 ==> exists hunks ::
              text == Rendered(hunks) &&
              IsDiff(left, right, context, Script(left, right, |left|, |right|, round), hunks)
    ensures context == 0 ==> text == ""
    ensures RendersPatch(text, CTexts(left), CTexts(right)) <==> context > 0 || CTexts(left) == CTexts(right)
  {
    hide *;
    var es := CalculateOptimalEditsOfStrings(left, right, round);
    var li: nat, ri: nat, e: nat := 0, 0, 0;
    ghost var hunks: seq<Printed> := [];
    text := "";
    NothingYet(left, right, es);
    ghost var dropped := false;
    while e < |es|
      invariant Progress(left, right, es, hunks, e, li, ri) && At(left, right, es, e, li, ri) && e <= |es|
      invariant forall k :: 0 <= k < |hunks| ==> InContext(left, right, hunks[k], context)
      invariant text == Rendered(hunks) && !dropped
      invariant e > 0 ==> e == |es| || (Quiet(es, e, context) && context <= li && context <= ri)
      invariant e == 0 ==> li == ri == 0
      invariant context == 0 ==> hunks == [] && e == 0
      decreases |es| - e
    {
      ghost var e0, l0, r0 := e, li, ri;
      li, ri, e := FindFirstEdit(left, right, es, li, ri, e);
      var prefix := if li < context then li else context;
      AtBounds(left, right, es, e, li, ri);
      var h := StartHunk(left, right, li, ri, prefix);
      ghost var e1, l1, r1 := e, li, ri;
      if e < |es| {
        PrefixFits(left, right, es, context, e0, l0, r0, e, li, ri, prefix);
      }
      ghost var trail;
      li, ri, e, trail := GrowHunk(h, left, right, es, context, li, ri, e);
      AtBounds(left, right, es, e, li, ri);
      if h.adds == 0 && h.removes == 0 {
        if context > 0 {
          ProgressDescribes(left, right, es, hunks, e0, l0, r0);
        }
        dropped := true;
        break;
      }
      ghost var printed;
      h.Sizes();
      text, printed := h.PrintTo(text);
      HunkAdded(left, right, es, hunks, printed, e0, l0, r0, e1, l1, r1, e, li, ri);
      HunkInContext(left, right, printed, context, li, ri, prefix, trail);
      RenderedMore(hunks, printed);
      hunks := hunks + [printed];
    }
    if !dropped {
      AtBounds(left, right, es, e, li, ri);
      EmptyTail(left, right);
      ProgressDescribes(left, right, es, hunks, e, li, ri);
    }
    if context > 0 {
      DiffDone(left, right, context, es, hunks);
    }
    RenderedPatchIff(hunks, text, context, CTexts(left), CTexts(right));
  }

  lemma HunkInContext(left: seq<string>, right: seq<string>, h: Printed, context: nat, l2: nat, r2: nat, lead: nat,
                      trail: nat)
    requires WellTagged(h.lines) && Framed(h.lines, lead, trail)
    requires Grouped(h.lines) && NoLongRun(h.lines, 2 * context)
    requires Covers(left, right, OldSide(h.lines), NewSide(h.lines), h.leftStart - 1, l2, h.rightStart - 1, r2)
    requires lead <= context && (lead == context || h.leftStart == 1)
    requires trail <= context && (trail == context || (l2 == |left| && r2 == |right|))
    ensures InContext(left, right, h, context)
  {
    hide Framed, CTexts, OldSide, NewSide, Grouped, NoLongRun;
  }

  lemma DiffDone(left: seq<string>, right: seq<string>, context: nat, es: seq<Edit>, hunks: seq<Printed>)
    requires Describes(CTexts(left), CTexts(right), hunks)
    requires RemovedBy(hunks) == Removed(es) && AddedBy(hunks) == Added(es)
    requires forall k :: 0 <= k < |hunks| ==> InContext(left, right, hunks[k], context)
    ensures IsDiff(left, right, context, es, hunks)
  {
    hide Describes, InContext, CTexts, Patch;
    PatchIff(CTexts(left), CTexts(right), hunks);
  }

  /** Applying hunks that describe the change turns the old text into the new one; no hunks do so only
      if nothing changed. */
  lemma PatchIff(a: seq<string>, b: seq<string>, hunks: seq<Printed>)
    ensures Describes(a, b, hunks) ==> Patch(a, 0, hunks) == Some(b)
    ensures Patch(a, 0, []) == Some(b) <==> a == b
  {
    if Describes(a, b, hunks) {
      DescribedPatches(a, b, hunks, 0);
      assert hunks[0..] == hunks && b[0..] == b;
    }
    assert a[0..] == a;
  }

  lemma AtBounds(left: seq<string>, right: seq<string>, es: seq<Edit>, e: nat, l: nat, r: nat)
    requires At(left, right, es, e, l, r)
    ensures e <= |es| && l <= |left| && r <= |right|
    ensures e == |es| ==> l == |left| && r == |right|
  {
  }

  lemma EmptyTail(left: seq<string>, right: seq<string>)
    ensures CTexts(left)[|left|..|left|] == CTexts(right)[|right|..|right|]
  {
  }

  lemma RenderedMore(hunks: seq<Printed>, h: Printed)
    ensures Rendered(hunks + [h]) == Rendered(hunks) + Header(h) + Body(h.lines)
  {
    assert (hunks + [h])[..|hunks|] == hunks;
  }

  /** The context before a hunk was read as matches, so it is the same on both sides and does not
      reach back into the previous hunk. */
  lemma PrefixFits(left: seq<string>, right: seq<string>, es: seq<Edit>, context: nat, e0: nat, l0: nat, r0: nat,
                   e: nat, li: nat, ri: nat, prefix: nat)
    requires e0 <= e < |es| && es[e] != Match && l0 <= li <= |left| && r0 <= ri <= |right|
    requires li - l0 == ri - r0 == e - e0
    requires CTexts(left)[l0..li] == CTexts(right)[r0..ri]
    requires e0 > 0 ==> Quiet(es, e0, context)
    requires e0 == 0 ==> l0 == r0 == 0
    requires prefix == if li < context then li else context
    ensures prefix <= li - l0
    ensures CTexts(left)[li - prefix..li] == CTexts(right)[ri - prefix..ri]
  {
    hide CText;
    assert e0 == 0 || e >= e0 + context;
    assert CTexts(left)[li - prefix..li] == CTexts(left)[l0..li][li - l0 - prefix..];
    assert CTexts(right)[ri - prefix..ri] == CTexts(right)[r0..ri][ri - r0 - prefix..];
  }

  lemma NothingYet(left: seq<string>, right: seq<string>, es: seq<Edit>)
    requires Turns(left, right, es)
    ensures Progress(left, right, es, [], 0, 0, 0)
    ensures Rendered([]) == ""
  {
    if |es| == 0 {
      assert es == [];
    }
  }
}
