/** What the pieces of a simple regular expression mean, by character codes, and where its anchors put a
    match. */
module RegexMeaning {
  import opened SimpleRegex

  ghost predicate Codes(ch: char, first: int, last: int) {
    first <= ch as int <= last
  }

  /** `!"#$%&'()*+,-./`, `:;<=>?@`, `[\]^_` with the grave accent, and `{|}~`. */
  ghost predicate Punctuation(ch: char) {
    Codes(ch, 33, 47) || Codes(ch, 58, 64) || Codes(ch, 91, 96) || Codes(ch, 123, 126)
  }

  /** The characters of the escapes that stand for classes. */
  lemma EscapedClasses(ch: char)
    ensures AtomMatchesChar(true, 'd', ch) <==> Codes(ch, 48, 57)
    ensures AtomMatchesChar(true, 'D', ch) <==> !Codes(ch, 48, 57)
    ensures AtomMatchesChar(true, 's', ch) <==> Codes(ch, 9, 13) || ch as int == 32
    ensures AtomMatchesChar(true, 'S', ch) <==> !Codes(ch, 9, 13) && ch as int != 32
    ensures AtomMatchesChar(true, 'w', ch) <==>
            Codes(ch, 48, 57) || Codes(ch, 65, 90) || ch as int == 95 || Codes(ch, 97, 122)
    ensures AtomMatchesChar(true, 'W', ch) <==>
            !Codes(ch, 48, 57) && !Codes(ch, 65, 90) && ch as int != 95 && !Codes(ch, 97, 122)
  {
  }

  /** The escapes that stand for one character each. */
  lemma EscapedCharacters(c: char, ch: char)
    ensures AtomMatchesChar(true, 't', ch) <==> ch as int == 9
    ensures AtomMatchesChar(true, 'n', ch) <==> ch as int == 10
    ensures AtomMatchesChar(true, 'v', ch) <==> ch as int == 11
    ensures AtomMatchesChar(true, 'f', ch) <==> ch as int == 12
    ensures AtomMatchesChar(true, 'r', ch) <==> ch as int == 13
    ensures Punctuation(c) ==> (AtomMatchesChar(true, c, ch) <==> ch == c)
    ensures !IsValidEscape(c) ==> !AtomMatchesChar(true, c, ch)
  {
    PunctuationCodes(c);
    hide IsAsciiPunct;
  }

  /** What may be escaped: punctuation, and d D f n r s S t v w W. */
  lemma ValidEscapes(c: char)
    ensures IsValidEscape(c) <==>
            || Punctuation(c)
            || c as int in {68, 83, 87, 100, 102, 110, 114, 115, 116, 118, 119}
  {
    PunctuationCodes(c);
    hide IsAsciiPunct;
  }

  lemma PunctuationCodes(c: char)
    ensures IsAsciiPunct(c) <==> Punctuation(c)
  {
  }

  /** Without a backslash a full stop stands for all but the line end, and the others for themselves. */
  lemma PlainCharacters(c: char, ch: char)
    ensures AtomMatchesChar(false, '.', ch) <==> ch as int != 10
    ensures c != '.' ==> (AtomMatchesChar(false, c, ch) <==> ch == c)
  {
  }

  /** The characters that need a backslash: NUL and $ ( ) * + ? [ \ ] ^ { | }. */
  lemma PlainAtoms(c: char)
    ensures ItemOk(Item(false, c, Once)) <==>
            c as int !in {0, 36, 40, 41, 42, 43, 63, 91, 92, 93, 94, 123, 124, 125}
  {
  }

  /** How often an item may match, and how that is written. */
  lemma Repetitions(escaped: bool, c: char, w: string)
    ensures InItem(Item(escaped, c, Once), w) <==> |w| == 1 && AtomMatchesChar(escaped, c, w[0])
    ensures InItem(Item(escaped, c, Optional), w) <==> w == "" || InItem(Item(escaped, c, Once), w)
    ensures InItem(Item(escaped, c, Any), w) <==> forall k :: 0 <= k < |w| ==> AtomMatchesChar(escaped, c, w[k])
    ensures InItem(Item(escaped, c, Some), w) <==> w != "" && InItem(Item(escaped, c, Any), w)
    ensures PrintItem(Item(false, c, Once)) == [c] && PrintItem(Item(true, c, Once)) == ['\\', c]
    ensures PrintItem(Item(false, c, Optional)) == [c, '?'] && PrintItem(Item(true, c, Optional)) == ['\\', c, '?']
    ensures PrintItem(Item(false, c, Any)) == [c, '*'] && PrintItem(Item(true, c, Any)) == ['\\', c, '*']
    ensures PrintItem(Item(false, c, Some)) == [c, '+'] && PrintItem(Item(true, c, Some)) == ['\\', c, '+']
  {
    hide AtomMatchesChar;
  }

  /** A word at these places, from the start or up to the end where the anchors say so. */
  ghost predicate Occurs(r: Regex, s: string, i: int, j: int) {
    && 0 <= i <= j <= |s| && InItems(r.items, s[i..j])
    && (r.fromStart ==> i == 0) && (r.toEnd ==> j == |s|)
  }

  lemma Anchors(r: Regex, s: string)
    ensures MatchesSomewhere(r, s) <==> exists i, j :: Occurs(r, s, i, j)
    ensures Print(r) == (if r.fromStart then "^" else "") + PrintItems(r.items) + if r.toEnd then "$" else ""
  {
    hide PrintItems, InItems;
    if MatchesSomewhere(r, s) {
      var i :| 0 <= i <= |s| && (r.fromStart ==> i == 0) && MatchesPrefix(r.items, r.toEnd, s[i..]);
      var n :| PrefixWord(r.items, r.toEnd, s[i..], n);
      assert s[i..][..n] == s[i..i + n];
      assert Occurs(r, s, i, i + n);
    }
    if i, j :| Occurs(r, s, i, j) {
      assert s[i..][..j - i] == s[i..j];
      assert PrefixWord(r.items, r.toEnd, s[i..], j - i);
    }
  }
}
