/** A printed diff can be read back: its text determines where every hunk goes and what it replaces. */
module PatchText {
  import opened Wrappers
  import opened Numerals
  import opened EditScript
  import opened UnifiedDiff

  predicate OneLine(s: string) {
    '\n' !in s
  }

  predicate AllOneLine(ss: seq<string>) {
    forall k :: 0 <= k < |ss| ==> OneLine(ss[k])
  }

  /** A hunk as it is printed for texts without newlines in their lines. */
  ghost predicate Plain(h: Printed) {
    && WellTagged(h.lines) && (forall k :: 0 <= k < |h.lines| ==> OneLine(h.lines[k].text))
    && (h.adds > 0 || h.removes > 0)
    && |OldSide(h.lines)| == h.removes + h.common && |NewSide(h.lines)| == h.adds + h.common
  }

  // ----- lines of text ------------------------------------------------------------------------------------

  function Unlines(ls: seq<string>): string {
    if ls == [] then "" else Unlines(ls[..|ls| - 1]) + ls[|ls| - 1] + "\n"
  }

  lemma UnlinesLast(ls: seq<string>, l: string)
    ensures Unlines(ls + [l]) == Unlines(ls) + l + "\n"
  {
    assert (ls + [l])[..|ls|] == ls;
  }

  lemma EndsInNewline(ls: seq<string>)
    ensures ls != [] ==> Unlines(ls) != "" && Unlines(ls)[|Unlines(ls)| - 1] == '\n'
    ensures Unlines(ls) == "" <==> ls == []
  {
  }

  /** The last line of a text is what stands between its last two newlines. */
  lemma LastLine(s: string, l: string, s': string, l': string)
    requires s + l == s' + l' && OneLine(l) && OneLine(l')
    requires (s != "" ==> s[|s| - 1] == '\n') && (s' != "" ==> s'[|s'| - 1] == '\n')
    ensures s == s' && l == l'
  {
    var t := s + l;
    assert forall k :: 0 <= k < |s| ==> t[k] == s[k];
    assert forall k :: 0 <= k < |s'| ==> t[k] == s'[k];
    assert forall k :: 0 <= k < |l| ==> t[|s| + k] == l[k];
    assert forall k :: 0 <= k < |l'| ==> t[|s'| + k] == l'[k];
    SameCut(t, |s|, |s'|);
    assert s == t[..|s|] && l == t[|s|..] && s' == t[..|s'|] && l' == t[|s'|..];
  }

  lemma SameCut(t: string, i: nat, j: nat)
    requires i <= |t| && j <= |t|
    requires (i > 0 ==> t[i - 1] == '\n') && (j > 0 ==> t[j - 1] == '\n')
    requires (forall k :: i <= k < |t| ==> t[k] != '\n') && (forall k :: j <= k < |t| ==> t[k] != '\n')
    ensures i == j
  {
  }

  lemma {:induction false} UnlinesUnique(ls: seq<string>, ls': seq<string>)
    requires AllOneLine(ls) && AllOneLine(ls') && Unlines(ls) == Unlines(ls')
    ensures ls == ls'
    decreases |ls|
  {
    EndsInNewline(ls);
    EndsInNewline(ls');
    if ls != [] {
      var n, n' := |ls| - 1, |ls'| - 1;
      EndsInNewline(ls[..n]);
      EndsInNewline(ls'[..n']);
      WithoutEnd(Unlines(ls[..n]) + ls[n], Unlines(ls'[..n']) + ls'[n']);
      hide Unlines;
      LastLine(Unlines(ls[..n]), ls[n], Unlines(ls'[..n']), ls'[n']);
      UnlinesUnique(ls[..n], ls'[..n']);
      assert ls == ls[..n] + [ls[n]] && ls' == ls'[..n'] + [ls'[n']];
    }
  }

  lemma WithoutEnd(s: string, s': string)
    requires s + "\n" == s' + "\n"
    ensures s == s'
  {
    assert s == (s + "\n")[..|s|] && s' == (s' + "\n")[..|s'|];
  }

  // ----- a diff as lines ----------------------------------------------------------------------------------

  lemma HeaderIsLine(h: Printed)
    ensures HeaderLine(h) != "" && HeaderLine(h)[0] == '@' && OneLine(HeaderLine(h))
  {
    NoNewlines(h.leftStart);
    NoNewlines(h.rightStart);
    NoNewlines(h.removes + h.common);
    NoNewlines(h.adds + h.common);
    hide Numeral, Decimal;
  }

  lemma NoNewlines(n: nat)
    ensures OneLine(Decimal(n)) && ',' !in Decimal(n)
  {
    NumeralDigits(n, 10, false);
    hide Numeral;
  }

  function BodyLines(lines: seq<Line>): (ls: seq<string>)
    ensures |ls| == |lines|
  {
    seq(|lines|, i requires 0 <= i < |lines| => [lines[i].tag] + lines[i].text)
  }

  function AllLines(hunks: seq<Printed>): seq<string> {
    if hunks == [] then []
    else
      var h := hunks[|hunks| - 1];
      AllLines(hunks[..|hunks| - 1]) + [HeaderLine(h)] + BodyLines(h.lines)
  }

  lemma {:induction false} BodyIsLines(before: seq<string>, lines: seq<Line>)
    ensures Unlines(before + BodyLines(lines)) == Unlines(before) + Body(lines)
    decreases |lines|
  {
    if lines == [] {
      assert before + BodyLines(lines) == before;
    } else {
      var n := |lines| - 1;
      var line := [lines[n].tag] + lines[n].text;
      BodyIsLines(before, lines[..n]);
      assert before + BodyLines(lines) == before + BodyLines(lines[..n]) + [line];
      UnlinesLast(before + BodyLines(lines[..n]), line);
      hide Unlines, BodyLines;
      assert Body(lines) == Body(lines[..n]) + [lines[n].tag] + lines[n].text + "\n";
      hide Body;
    }
  }

  lemma {:induction false} RenderedIsLines(hunks: seq<Printed>)
    ensures Rendered(hunks) == Unlines(AllLines(hunks))
    decreases |hunks|
  {
    if hunks != [] {
      var n := |hunks| - 1;
      var h := hunks[n];
      hide Unlines, Body, Header, HeaderLine, BodyLines;
      RenderedIsLines(hunks[..n]);
      HeaderIsLine(h);
      UnlinesLast(AllLines(hunks[..n]), HeaderLine(h));
      BodyIsLines(AllLines(hunks[..n]) + [HeaderLine(h)], h.lines);
      assert Rendered(hunks) == Rendered(hunks[..n]) + Header(h) + Body(h.lines);
      hide AllLines, Rendered;
      var front := Rendered(hunks[..n]);
      assert front + (HeaderLine(h) + "\n") == front + HeaderLine(h) + "\n";
    }
  }

  lemma {:induction false} LinesAreLines(hunks: seq<Printed>)
    requires forall k :: 0 <= k < |hunks| ==> Plain(hunks[k])
    ensures AllOneLine(AllLines(hunks))
    decreases |hunks|
  {
    if hunks != [] {
      var n := |hunks| - 1;
      hide HeaderLine, BodyLines, Plain, OneLine, AllOneLine;
      LinesAreLines(hunks[..n]);
      HeaderIsLine(hunks[n]);
      BodyIsPlain(hunks[n]);
      JoinedLines(AllLines(hunks[..n]), HeaderLine(hunks[n]), BodyLines(hunks[n].lines));
    } else {
      assert AllLines(hunks) == [];
    }
  }

  lemma JoinedLines(a: seq<string>, x: string, b: seq<string>)
    requires AllOneLine(a) && OneLine(x) && AllOneLine(b)
    ensures AllOneLine(a + [x] + b)
  {
    hide OneLine;
  }

  /** No body line looks like a header. */
  lemma BodyIsPlain(h: Printed)
    requires Plain(h)
    ensures AllOneLine(BodyLines(h.lines))
    ensures forall k :: 0 <= k < |h.lines| ==> BodyLines(h.lines)[k] != "" && BodyLines(h.lines)[k][0] != '@'
  {
  }

  lemma SameLast(marks: seq<bool>, i: nat, j: nat)
    requires i < |marks| && j < |marks| && marks[i] && marks[j]
    requires (forall k :: i < k < |marks| ==> !marks[k]) && (forall k :: j < k < |marks| ==> !marks[k])
    ensures i == j
  {
  }

  /** The last header is the last line that starts with '@'. */
  lemma LastHeader(a: seq<string>, x: string, b: seq<string>, a': seq<string>, x': string, b': seq<string>)
    requires a + [x] + b == a' + [x'] + b' && x != "" && x' != "" && x[0] == '@' && x'[0] == '@'
    requires forall k :: 0 <= k < |b| ==> b[k] != "" && b[k][0] != '@'
    requires forall k :: 0 <= k < |b'| ==> b'[k] != "" && b'[k][0] != '@'
    ensures a == a' && x == x' && b == b'
  {
    var t := a + [x] + b;
    var marks := seq(|t|, k requires 0 <= k < |t| => t[k] != "" && t[k][0] == '@');
    assert t[|a|] == x && t[|a'|] == x';
    assert forall k :: |a| < k < |t| ==> t[k] == b[k - |a| - 1];
    assert forall k :: |a'| < k < |t| ==> t[k] == b'[k - |a'| - 1];
    SameLast(marks, |a|, |a'|);
    assert a == t[..|a|] && b == t[|a| + 1..] && a' == t[..|a'|] && b' == t[|a'| + 1..];
  }

  lemma {:induction false} SameLines(lines: seq<Line>, lines': seq<Line>)
    requires BodyLines(lines) == BodyLines(lines')
    ensures lines == lines'
  {
    forall k | 0 <= k < |lines| ensures lines[k] == lines'[k] {
      var s := BodyLines(lines)[k];
      assert s == [lines[k].tag] + lines[k].text == [lines'[k].tag] + lines'[k].text;
      assert s[1..] == lines[k].text == lines'[k].text && s[0] == lines[k].tag == lines'[k].tag;
    }
  }

  // ----- headers ------------------------------------------------------------------------------------------

  /** A number is read up to the comma behind it. */
  lemma NumberRead(front: string, n: nat, rest: string, n': nat, rest': string)
    requires front + Decimal(n) + "," + rest == front + Decimal(n') + "," + rest'
    ensures n == n' && rest == rest'
  {
    NoNewlines(n);
    NoNewlines(n');
    NumeralMeans(n, 10, false);
    NumeralMeans(n', 10, false);
    hide Numeral, Value;
    CommaCut(front, Decimal(n), rest, Decimal(n'), rest');
  }

  lemma SameFirst(t: string, f: nat, i: nat, j: nat)
    requires f <= i < |t| && f <= j < |t| && t[i] == ',' && t[j] == ','
    requires (forall k :: f <= k < i ==> t[k] != ',') && (forall k :: f <= k < j ==> t[k] != ',')
    ensures i == j
  {
  }

  lemma CommaCut(front: string, d: string, rest: string, d': string, rest': string)
    requires front + d + "," + rest == front + d' + "," + rest' && ',' !in d && ',' !in d'
    ensures d == d' && rest == rest'
  {
    var t, f := front + d + "," + rest, |front|;
    assert t[f + |d|] == ',' && t[f + |d'|] == ',';
    assert forall k :: f <= k < f + |d| ==> t[k] == d[k - f];
    assert forall k :: f <= k < f + |d'| ==> t[k] == d'[k - f];
    SameFirst(t, f, f + |d|, f + |d'|);
    assert d == t[f..f + |d|] && d' == t[f..f + |d'|];
    assert rest == t[f + |d| + 1..] && rest' == t[f + |d'| + 1..];
  }

  /** The part of a header from the new side on. */
  function NewPart(h: Printed): string {
    if h.adds > 0 then "+" + Decimal(h.rightStart) + "," + Decimal(h.adds + h.common) + " @@" else " @@"
  }

  lemma HeaderParts(h: Printed)
    ensures h.removes > 0 && h.adds > 0 ==>
              HeaderLine(h) == "@@ -" + Decimal(h.leftStart) + "," + (Decimal(h.removes + h.common) + " " + NewPart(h))
    ensures h.removes > 0 && h.adds == 0 ==>
              HeaderLine(h) == "@@ -" + Decimal(h.leftStart) + "," + (Decimal(h.removes + h.common) + NewPart(h))
    ensures h.removes == 0 ==> HeaderLine(h) == "@@ " + NewPart(h)
  {
    hide Decimal;
  }

  /** The header of hunks with the same body tells which sides are printed and where they start. */
  lemma SameHeader(h: Printed, h': Printed)
    requires Plain(h) && Plain(h') && h.lines == h'.lines && HeaderLine(h) == HeaderLine(h')
    ensures (h.removes > 0 && h'.removes > 0 && h.leftStart == h'.leftStart) ||
            (h.adds > 0 && h'.adds > 0 && h.rightStart == h'.rightStart)
  {
    HeaderParts(h);
    HeaderParts(h');
    FourthCharacter(h);
    FourthCharacter(h');
    hide HeaderLine, Decimal, OldSide, NewSide;
    if h.removes > 0 {
      var rest := Decimal(h.removes + h.common) + (if h.adds > 0 then " " else "") + NewPart(h);
      var rest' := Decimal(h'.removes + h'.common) + (if h'.adds > 0 then " " else "") + NewPart(h');
      hide NewPart;
      assert Decimal(h.removes + h.common) + "" == Decimal(h.removes + h.common);
      assert Decimal(h'.removes + h'.common) + "" == Decimal(h'.removes + h'.common);
      NumberRead("@@ -", h.leftStart, rest, h'.leftStart, rest');
    } else {
      var rest, rest' := Decimal(h.adds + h.common) + " @@", Decimal(h'.adds + h'.common) + " @@";
      assert "@@ " + NewPart(h) == "@@ +" + Decimal(h.rightStart) + "," + rest;
      assert "@@ " + NewPart(h') == "@@ +" + Decimal(h'.rightStart) + "," + rest';
      NumberRead("@@ +", h.rightStart, rest, h'.rightStart, rest');
    }
  }

  lemma FourthCharacter(h: Printed)
    requires h.adds > 0 || h.removes > 0
    ensures |HeaderLine(h)| > 3 && HeaderLine(h)[3] == if h.removes > 0 then '-' else '+'
  {
    hide Decimal;
  }

  // ----- reading a diff back ------------------------------------------------------------------------------

  /** The same change in the same place. */
  predicate SamePlace(h: Printed, h': Printed) {
    h.leftStart == h'.leftStart && h.rightStart == h'.rightStart && h.lines == h'.lines
  }

  predicate SamePlaces(hunks: seq<Printed>, hunks': seq<Printed>) {
    |hunks| == |hunks'| && forall k :: 0 <= k < |hunks| ==> SamePlace(hunks[k], hunks'[k])
  }

  /** Hunks that can stand in a diff of some two texts. */
  ghost predicate Printable(a: seq<string>, b: seq<string>, hunks: seq<Printed>) {
    forall k :: 0 <= k < |hunks| ==> Plain(hunks[k]) && Fits(a, b, hunks, k)
  }

  lemma FrontPrintable(a: seq<string>, b: seq<string>, hunks: seq<Printed>)
    requires hunks != [] && Printable(a, b, hunks)
    ensures Printable(a, b, hunks[..|hunks| - 1]) && Plain(hunks[|hunks| - 1])
  {
    var n := |hunks| - 1;
    var front := hunks[..n];
    hide Plain;
    forall k | 0 <= k < n ensures Plain(front[k]) && Fits(a, b, front, k) {
      assert Fits(a, b, hunks, k) && front[k] == hunks[k];
      FrontFits(a, b, hunks, n, k);
    }
    assert Fits(a, b, hunks, n);
  }

  lemma FrontFits(a: seq<string>, b: seq<string>, hunks: seq<Printed>, n: nat, k: nat)
    requires k < n <= |hunks| && Fits(a, b, hunks, k)
    ensures Fits(a, b, hunks[..n], k)
  {
    hide OldSide, NewSide;
    assert LeftEnd(hunks[..n], k) == LeftEnd(hunks, k) && RightEnd(hunks[..n], k) == RightEnd(hunks, k);
  }

  /** The text of a diff determines its hunks up to the counters: two diffs, of whatever texts, with the same
      text make the same changes in the same places. */
  lemma {:induction false} RenderedDetermines(a: seq<string>, b: seq<string>, hunks: seq<Printed>, a': seq<string>,
                                              b': seq<string>, hunks': seq<Printed>)
    requires Printable(a, b, hunks) && Printable(a', b', hunks')
    requires Rendered(hunks) == Rendered(hunks')
    ensures SamePlaces(hunks, hunks')
  {
    RenderedIsLines(hunks);
    RenderedIsLines(hunks');
    hide Plain, Fits, Rendered;
    LinesAreLines(hunks);
    LinesAreLines(hunks');
    UnlinesUnique(AllLines(hunks), AllLines(hunks'));
    LinesDetermine(a, b, hunks, a', b', hunks');
  }

  lemma {:induction false} LinesDetermine(a: seq<string>, b: seq<string>, hunks: seq<Printed>, a': seq<string>,
                                          b': seq<string>, hunks': seq<Printed>)
    requires Printable(a, b, hunks) && Printable(a', b', hunks')
    requires AllLines(hunks) == AllLines(hunks')
    ensures SamePlaces(hunks, hunks')
    decreases |hunks|
  {
    hide Plain, Fits, HeaderLine, BodyLines;
    if hunks != [] && hunks' != [] {
      var n, n' := |hunks| - 1, |hunks'| - 1;
      var h, h' := hunks[n], hunks'[n'];
      FrontPrintable(a, b, hunks);
      FrontPrintable(a', b', hunks');
      BodyIsPlain(h);
      BodyIsPlain(h');
      HeaderIsLine(h);
      HeaderIsLine(h');
      LastHeader(AllLines(hunks[..n]), HeaderLine(h), BodyLines(h.lines),
                 AllLines(hunks'[..n']), HeaderLine(h'), BodyLines(h'.lines));
      hide AllLines;
      LinesDetermine(a, b, hunks[..n], a', b', hunks'[..n']);
      SameLines(h.lines, h'.lines);
      SameHeader(h, h');
      StartsAgree(a, b, hunks, a', b', hunks');
    }
  }

  /** One start and the ends of the hunk before give the other start: the text between hunks is the same on
      both sides. */
  lemma StartsAgree(a: seq<string>, b: seq<string>, hunks: seq<Printed>, a': seq<string>, b': seq<string>,
                    hunks': seq<Printed>)
    requires hunks != [] && |hunks| == |hunks'| && Printable(a, b, hunks) && Printable(a', b', hunks')
    requires var n := |hunks| - 1;
             && SamePlaces(hunks[..n], hunks'[..n]) && hunks[n].lines == hunks'[n].lines
             && (hunks[n].leftStart == hunks'[n].leftStart || hunks[n].rightStart == hunks'[n].rightStart)
    ensures SamePlaces(hunks, hunks')
  {
    var n := |hunks| - 1;
    hide OldSide, NewSide, Plain, Fits, LeftEnd, RightEnd;
    assert Fits(a, b, hunks, n) && Fits(a', b', hunks', n);
    EndsAgree(hunks, hunks', n);
    GapIsEven(a, b, hunks, n);
    GapIsEven(a', b', hunks', n);
    assert SamePlace(hunks[n], hunks'[n]);
    OneMorePlace(hunks, hunks', n);
  }

  lemma OneMorePlace(hunks: seq<Printed>, hunks': seq<Printed>, n: nat)
    requires n + 1 == |hunks| == |hunks'| && SamePlaces(hunks[..n], hunks'[..n]) && SamePlace(hunks[n], hunks'[n])
    ensures SamePlaces(hunks, hunks')
  {
    forall k | 0 <= k < n ensures SamePlace(hunks[k], hunks'[k]) {
      assert SamePlace(hunks[..n][k], hunks'[..n][k]);
    }
  }

  lemma EndsAgree(hunks: seq<Printed>, hunks': seq<Printed>, n: nat)
    requires n < |hunks| == |hunks'| && SamePlaces(hunks[..n], hunks'[..n])
    ensures LeftEnd(hunks, n) == LeftEnd(hunks', n) && RightEnd(hunks, n) == RightEnd(hunks', n)
  {
    hide OldSide, NewSide;
    if n > 0 {
      assert SamePlace(hunks[..n][n - 1], hunks'[..n][n - 1]);
    }
  }

  lemma GapIsEven(a: seq<string>, b: seq<string>, hunks: seq<Printed>, n: nat)
    requires n < |hunks| && Fits(a, b, hunks, n)
    ensures hunks[n].leftStart - LeftEnd(hunks, n) == hunks[n].rightStart - RightEnd(hunks, n)
  {
    hide OldSide, NewSide;
    var h := hunks[n];
    assert |a[LeftEnd(hunks, n)..h.leftStart - 1]| == |b[RightEnd(hunks, n)..h.rightStart - 1]|;
  }

  lemma {:induction false} SamePatch(a: seq<string>, from: nat, hunks: seq<Printed>, hunks': seq<Printed>)
    requires from <= |a| && SamePlaces(hunks, hunks')
    ensures Patch(a, from, hunks) == Patch(a, from, hunks')
    decreases |hunks|
  {
    if hunks != [] {
      hide OldSide, NewSide;
      assert SamePlace(hunks[0], hunks'[0]);
      var stop := hunks[0].leftStart - 1 + |OldSide(hunks[0].lines)|;
      if hunks[0].leftStart - 1 >= from && stop <= |a| {
        SamePatch(a, stop, hunks[1..], hunks'[1..]);
      }
    }
  }

  // ----- diffs of lines -----------------------------------------------------------------------------------

  lemma {:induction false} SidesHoldLines(lines: seq<Line>, k: nat)
    requires k < |lines| && WellTagged(lines)
    ensures lines[k].text in OldSide(lines) || lines[k].text in NewSide(lines)
    decreases |lines|
  {
    var n := |lines| - 1;
    if k < n {
      SidesHoldLines(lines[..n], k);
    }
  }

  /** For texts of proper lines, the hunks of a diff are printable. */
  lemma DiffIsPrintable(left: seq<string>, right: seq<string>, context: nat, es: seq<Edit>, hunks: seq<Printed>)
    requires IsDiff(left, right, context, es, hunks) && AllOneLine(CTexts(left)) && AllOneLine(CTexts(right))
    ensures Printable(CTexts(left), CTexts(right), hunks)
  {
    var a, b := CTexts(left), CTexts(right);
    hide Patch, Plain, Fits, InContext, AllOneLine;
    forall k | 0 <= k < |hunks| ensures Plain(hunks[k]) && Fits(a, b, hunks, k) {
      assert Fits(a, b, hunks, k) && InContext(left, right, hunks[k], context);
      HunkIsPlain(left, right, context, hunks, k);
    }
  }

  lemma HunkIsPlain(left: seq<string>, right: seq<string>, context: nat, hunks: seq<Printed>, k: nat)
    requires k < |hunks| && Fits(CTexts(left), CTexts(right), hunks, k) && InContext(left, right, hunks[k], context)
    requires AllOneLine(CTexts(left)) && AllOneLine(CTexts(right))
    ensures Plain(hunks[k])
  {
    hide CTexts, OldSide, NewSide, Framed, ContextFits, LeftEnd, RightEnd, OneLine;
    var lines := hunks[k].lines;
    forall i | 0 <= i < |lines| ensures OneLine(lines[i].text) {
      SidesHoldLines(lines, i);
    }
  }

  /** The text of a diff is all a patch tool needs: however it is read as hunks that fit together, they turn
      `left` into `right`. */
  lemma TextIsEnough(left: seq<string>, right: seq<string>, context: nat, es: seq<Edit>, hunks: seq<Printed>,
                     a: seq<string>, b: seq<string>, read: seq<Printed>)
    requires IsDiff(left, right, context, es, hunks) && AllOneLine(CTexts(left)) && AllOneLine(CTexts(right))
    requires Printable(a, b, read) && Rendered(read) == Rendered(hunks)
    ensures Patch(CTexts(left), 0, read) == Some(CTexts(right))
  {
    DiffIsPrintable(left, right, context, es, hunks);
    hide Printable, CTexts, Patch, Describes, Rendered;
    RenderedDetermines(a, b, read, CTexts(left), CTexts(right), hunks);
    SamePatch(CTexts(left), 0, read, hunks);
  }
}
