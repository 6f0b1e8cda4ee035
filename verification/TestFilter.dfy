/** gtest's test filter: ':'-separated glob patterns matched against a test's full name. A C string is
    the sequence of its characters before the terminator. */
module TestFilter {

  /** The recursive search. The first ':' in `pattern`, or its end, ends the pattern. */
  predicate PatternMatchesString(pattern: string, str: string)
    decreases |pattern| + |str|
  {
    if pattern == "" || pattern[0] == ':' then str == ""
    else if pattern[0] == '?' then str != "" && PatternMatchesString(pattern[1..], str[1..])
    else if pattern[0] == '*' then
      (str != "" && PatternMatchesString(pattern, str[1..])) || PatternMatchesString(pattern[1..], str)
    else str != "" && pattern[0] == str[0] && PatternMatchesString(pattern[1..], str[1..])
  }

  /** The language of a glob: '?' is any one character, '*' any string, the rest stand for
      themselves. */
  ghost predicate Glob(p: string, w: string)
    decreases |p|
  {
    if p == "" then w == ""
    else exists k :: 0 <= k <= |w| && Piece(p[0], w[..k]) && Glob(p[1..], w[k..])
  }

  lemma GlobFrom(p: string, w: string, k: nat)
    requires p != "" && k <= |w| && Piece(p[0], w[..k]) && Glob(p[1..], w[k..])
    ensures Glob(p, w)
  {
  }

  predicate Piece(c: char, w: string) {
    c == '*' || (|w| == 1 && (c == '?' || c == w[0]))
  }

  /** One pattern character: a star takes any text, a question mark one character, any other character
      itself; patterns one after the other take texts one after the other. */
  lemma GlobCharacters(c: char, w: string)
    ensures Glob("*", w)
    ensures Glob("?", w) <==> |w| == 1
    ensures c != '*' && c != '?' ==> (Glob([c], w) <==> w == [c])
    ensures Glob("", w) <==> w == ""
  {
    GlobOne('*', w);
    GlobOne('?', w);
    GlobOne(c, w);
  }

  lemma GlobOne(c: char, w: string)
    ensures Glob([c], w) <==> Piece(c, w)
  {
    assert [c][1..] == "" && w[..|w|] == w && w[|w|..] == "";
    if Piece(c, w) {
      GlobFrom([c], w, |w|);
    }
  }

  ghost predicate GlobsAt(p: string, q: string, w: string, k: int) {
    0 <= k <= |w| && Glob(p, w[..k]) && Glob(q, w[k..])
  }

  lemma GlobConcatenation(p: string, q: string, w: string)
    ensures Glob(p + q, w) <==> exists k :: GlobsAt(p, q, w, k)
  {
    hide Glob, GlobsAt;
    if Glob(p + q, w) {
      var k := GlobSplits(p, q, w);
    }
    if k :| GlobsAt(p, q, w, k) {
      GlobJoins(p, q, w, k);
    }
  }

  lemma FirstPiece(p: string, w: string) returns (k: nat)
    requires p != "" && Glob(p, w)
    ensures k <= |w| && Piece(p[0], w[..k]) && Glob(p[1..], w[k..])
  {
    k :| 0 <= k <= |w| && Piece(p[0], w[..k]) && Glob(p[1..], w[k..]);
  }

  lemma {:induction false} GlobSplits(p: string, q: string, w: string) returns (k: nat)
    requires Glob(p + q, w)
    ensures GlobsAt(p, q, w, k)
    decreases |p|
  {
    if p == "" {
      k := 0;
      assert p + q == q && w[0..] == w;
    } else {
      hide Glob, Piece;
      assert (p + q)[1..] == p[1..] + q;
      var n := FirstPiece(p + q, w);
      var m := GlobSplits(p[1..], q, w[n..]);
      Cuts(w, n, m);
      k := n + m;
      GlobFrom(p, w[..k], n);
    }
  }

  lemma {:induction false} GlobJoins(p: string, q: string, w: string, k: int)
    requires GlobsAt(p, q, w, k)
    ensures Glob(p + q, w)
    decreases |p|
  {
    if p == "" {
      assert p + q == q && w[0..] == w;
    } else {
      hide Glob, Piece;
      var m := FirstPiece(p, w[..k]);
      Cuts(w, m, k - m);
      GlobJoins(p[1..], q, w[m..], k - m);
      assert (p + q)[1..] == p[1..] + q;
      GlobFrom(p + q, w, m);
    }
  }

  lemma Cuts(w: string, k: nat, m: nat)
    requires k + m <= |w|
    ensures w[..k + m][..k] == w[..k] && w[..k + m][k..] == w[k..][..m] && w[k..][m..] == w[k + m..]
  {
  }

  function FirstSegment(s: string, delimiter: char): (t: string)
    ensures |t| <= |s| && t <= s && delimiter !in t
    ensures |t| < |s| ==> s[|t|] == delimiter
  {
    if s == "" || s[0] == delimiter then "" else [s[0]] + FirstSegment(s[1..], delimiter)
  }

  lemma StarStep(p: string, w: string)
    requires p != "" && p[0] == '*'
    ensures Glob(p, w) <==> (w != "" && Glob(p, w[1..])) || Glob(p[1..], w)
  {
    if Glob(p, w) {
      var k :| 0 <= k <= |w| && Piece(p[0], w[..k]) && Glob(p[1..], w[k..]);
      if k == 0 {
        assert w[0..] == w;
      } else {
        assert w[1..][k - 1..] == w[k..];
        GlobFrom(p, w[1..], k - 1);
      }
    }
    if w != "" && Glob(p, w[1..]) {
      var k :| 0 <= k <= |w[1..]| && Piece(p[0], w[1..][..k]) && Glob(p[1..], w[1..][k..]);
      assert w[1..][k..] == w[k + 1..];
      GlobFrom(p, w, k + 1);
    }
    if Glob(p[1..], w) {
      assert w[0..] == w;
      GlobFrom(p, w, 0);
    }
  }

  lemma CharStep(p: string, w: string)
    requires p != "" && p[0] != '*'
    ensures Glob(p, w) <==> w != "" && (p[0] == '?' || p[0] == w[0]) && Glob(p[1..], w[1..])
  {
    if w != "" && (p[0] == '?' || p[0] == w[0]) && Glob(p[1..], w[1..]) {
      GlobFrom(p, w, 1);
    }
  }

  /** The search finds a match exactly when the whole string is in the language of the pattern up to
      its terminator. */
  lemma {:induction false} MatchesIffGlob(pattern: string, str: string)
    ensures PatternMatchesString(pattern, str) <==> Glob(FirstSegment(pattern, ':'), str)
    decreases |pattern| + |str|
  {
    var p := FirstSegment(pattern, ':');
    if pattern == "" || pattern[0] == ':' {
    } else {
      assert p[1..] == FirstSegment(pattern[1..], ':');
      if pattern[0] == '*' {
        StarStep(p, str);
        MatchesIffGlob(pattern[1..], str);
        if str != "" {
          MatchesIffGlob(pattern, str[1..]);
        }
      } else {
        CharStep(p, str);
        if str != "" {
          MatchesIffGlob(pattern[1..], str[1..]);
        }
      }
    }
  }

  // ----- segments -----------------------------------------------------------------------------------------

  /** The pieces between delimiters. */
  function Segments(s: string, delimiter: char): (parts: seq<string>)
    ensures parts != []
    decreases |s|
  {
    var first := FirstSegment(s, delimiter);
    if |first| == |s| then [first] else [first] + Segments(s[|first| + 1..], delimiter)
  }

  function Joined(parts: seq<string>, delimiter: char): string
    requires parts != []
  {
    if |parts| == 1 then parts[0] else parts[0] + [delimiter] + Joined(parts[1..], delimiter)
  }

  /** Splitting loses nothing, and no piece contains the delimiter. */
  lemma {:induction false} SegmentsRoundTrip(s: string, delimiter: char)
    ensures Joined(Segments(s, delimiter), delimiter) == s
    ensures forall k :: 0 <= k < |Segments(s, delimiter)| ==> delimiter !in Segments(s, delimiter)[k]
    decreases |s|
  {
    var first := FirstSegment(s, delimiter);
    if |first| < |s| {
      SegmentsRoundTrip(s[|first| + 1..], delimiter);
      assert s == first + [delimiter] + s[|first| + 1..];
      assert Segments(s, delimiter)[1..] == Segments(s[|first| + 1..], delimiter);
    } else {
      assert first == s;
    }
  }

  /** `str.find(delimiter, pos)`, with the length for npos. */
  method Find(s: string, delimiter: char, pos: nat) returns (at: nat)
    requires pos <= |s|
    ensures at == pos + |FirstSegment(s[pos..], delimiter)|
    ensures pos <= at <= |s|
    ensures s[pos..at] == FirstSegment(s[pos..], delimiter)
  {
    at := pos;
    while at < |s| && s[at] != delimiter
      invariant pos <= at <= |s|
      invariant delimiter !in s[pos..at]
    {
      at := at + 1;
    }
    FoundSegment(s, delimiter, pos, at);
  }

  lemma {:induction false} FoundSegment(s: string, delimiter: char, pos: nat, at: nat)
    requires pos <= at <= |s| && delimiter !in s[pos..at] && (at < |s| ==> s[at] == delimiter)
    ensures s[pos..at] == FirstSegment(s[pos..], delimiter)
    decreases at - pos
  {
    if pos < at {
      assert s[pos] in s[pos..at];
      assert forall k :: pos + 1 <= k < at ==> s[k] in s[pos..at];
      FoundSegment(s, delimiter, pos + 1, at);
      assert s[pos..][1..] == s[pos + 1..];
      assert s[pos..at] == [s[pos]] + s[pos + 1..at];
    }
  }

  lemma SegmentsAt(str: string, delimiter: char, pos: nat, colon: nat)
    requires pos <= colon <= |str| && str[pos..colon] == FirstSegment(str[pos..], delimiter)
    ensures colon == |str| ==> Segments(str[pos..], delimiter) == [str[pos..]]
    ensures colon < |str| ==>
              Segments(str[pos..], delimiter) == [str[pos..colon]] + Segments(str[colon + 1..], delimiter)
  {
    if colon == |str| {
      assert str[pos..colon] == str[pos..];
    } else {
      assert str[pos..][colon - pos + 1..] == str[colon + 1..];
    }
  }

  method SplitString(str: string, delimiter: char) returns (parsed: seq<string>)
    ensures parsed == Segments(str, delimiter)
  {
    hide Segments, FirstSegment;
    parsed := [];
    var pos := 0;
    assert str[0..] == str;
    while true
      invariant 0 <= pos <= |str|
      invariant parsed + Segments(str[pos..], delimiter) == Segments(str, delimiter)
      decreases |str| - pos
    {
      var colon := Find(str, delimiter, pos);
      SegmentsAt(str, delimiter, pos, colon);
      if colon == |str| {
        parsed := parsed + [str[pos..]];
        break;
      }
      parsed := parsed + [str[pos..colon]];
      pos := colon + 1;
    }
  }

  ghost predicate SomeSegmentMatches(filter: string, name: string) {
    exists k :: 0 <= k < |Segments(filter, ':')| && Glob(Segments(filter, ':')[k], name)
  }

  lemma SomeSegmentUnfolds(filter: string, name: string)
    ensures
      var first := FirstSegment(filter, ':');
      SomeSegmentMatches(filter, name) <==>
      Glob(first, name) || (|first| < |filter| && SomeSegmentMatches(filter[|first| + 1..], name))
  {
    hide Glob;
    var first := FirstSegment(filter, ':');
    var parts := Segments(filter, ':');
    if |first| < |filter| {
      var rest := Segments(filter[|first| + 1..], ':');
      assert parts == [first] + rest;
      if SomeSegmentMatches(filter, name) && !Glob(first, name) {
        var k :| 0 <= k < |parts| && Glob(parts[k], name);
        assert rest[k - 1] == parts[k];
      }
      if k :| 0 <= k < |rest| && Glob(rest[k], name) {
        assert parts[k + 1] == rest[k];
      }
    }
    if Glob(first, name) {
      assert parts[0] == first;
    }
  }

  method MatchesFilter(name: string, filter: string) returns (matches: bool)
    ensures matches <==> SomeSegmentMatches(filter, name)
  {
    hide Glob, SomeSegmentMatches, PatternMatchesString;
    var cur := 0;
    assert filter[0..] == filter;
    while true
      invariant 0 <= cur <= |filter|
      invariant SomeSegmentMatches(filter[cur..], name) <==> SomeSegmentMatches(filter, name)
      decreases |filter| - cur
    {
      MatchesIffGlob(filter[cur..], name);
      SomeSegmentUnfolds(filter[cur..], name);
      if PatternMatchesString(filter[cur..], name) {
        return true;
      }
      var colon := Find(filter, ':', cur);
      if colon == |filter| {
        return false;
      }
      assert filter[cur..][colon - cur + 1..] == filter[colon + 1..];
      cur := colon + 1;
    }
  }
}
