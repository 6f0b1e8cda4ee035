/** gtest's simple regular expressions: the syntax check, the matcher and the language they mean.
    A C string is the sequence of its characters before the terminator. */
module SimpleRegex {

  // ----- characters -----------------------------------------------------------------------------------

  predicate IsInSet(ch: char, set': string) {
    ch != '\0' && ch in set'
  }

  predicate IsAsciiDigit(ch: char) { '0' <= ch <= '9' }

  predicate IsAsciiPunct(ch: char) {
    IsInSet(ch, "^-!\"#$%&'()*+,./:;<=>?@[\\]_`{|}~")
  }

  predicate IsRepeat(ch: char) { IsInSet(ch, "?*+") }

  predicate IsAsciiWhiteSpace(ch: char) {
    ch in {' ', '\U{0C}', '\n', '\r', '\t', '\U{0B}'}
  }

  predicate IsAsciiWordChar(ch: char) {
    'a' <= ch <= 'z' || 'A' <= ch <= 'Z' || '0' <= ch <= '9' || ch == '_'
  }

  predicate IsValidEscape(c: char) {
    IsAsciiPunct(c) || IsInSet(c, "dDfnrsStvwW")
  }

  predicate AtomMatchesChar(escaped: bool, pattern: char, ch: char) {
    if escaped then
      match pattern
      case 'd' => IsAsciiDigit(ch)
      case 'D' => !IsAsciiDigit(ch)
      case 'f' => ch == '\U{0C}'
      case 'n' => ch == '\n'
      case 'r' => ch == '\r'
      case 's' => IsAsciiWhiteSpace(ch)
      case 'S' => !IsAsciiWhiteSpace(ch)
      case 't' => ch == '\t'
      case 'v' => ch == '\U{0B}'
      case 'w' => IsAsciiWordChar(ch)
      case 'W' => !IsAsciiWordChar(ch)
      case _ => IsAsciiPunct(pattern) && pattern == ch
    else (pattern == '.' && ch != '\n') || pattern == ch
  }

  // ----- syntax ---------------------------------------------------------------------------------------

  datatype Repeat = Once | Optional | Any | Some

  /** An atom with its repetition. */
  datatype Item = Item(escaped: bool, c: char, repeat: Repeat)

  datatype Regex = Regex(fromStart: bool, items: seq<Item>, toEnd: bool)

  predicate ItemOk(i: Item) {
    if i.escaped then IsValidEscape(i.c) else i.c != '\0' && !IsInSet(i.c, "^$?*+()[]{}|\\")
  }

  predicate ItemsOk(items: seq<Item>) {
    forall k :: 0 <= k < |items| ==> ItemOk(items[k])
  }

  function Mark(r: Repeat): string {
    match r
    case Once => ""
    case Optional => "?"
    case Any => "*"
    case Some => "+"
  }

  function PrintItem(i: Item): string {
    (if i.escaped then ['\\', i.c] else [i.c]) + Mark(i.repeat)
  }

  function PrintItems(items: seq<Item>): string {
    if items == [] then "" else PrintItem(items[0]) + PrintItems(items[1..])
  }

  function PrintTail(items: seq<Item>, toEnd: bool): string {
    PrintItems(items) + if toEnd then "$" else ""
  }

  function Print(r: Regex): string {
    (if r.fromStart then "^" else "") + PrintTail(r.items, r.toEnd)
  }

  // ----- meaning ----------------------------------------------------------------------------------------

  predicate AllMatch(escaped: bool, c: char, w: string) {
    forall k :: 0 <= k < |w| ==> AtomMatchesChar(escaped, c, w[k])
  }

  predicate CountOk(r: Repeat, n: nat) {
    match r
    case Once => n == 1
    case Optional => n <= 1
    case Any => true
    case Some => n >= 1
  }

  predicate InItem(i: Item, w: string) {
    CountOk(i.repeat, |w|) && AllMatch(i.escaped, i.c, w)
  }

  /** `w` is a concatenation of words of the items, one after the other. */
  ghost predicate InItems(items: seq<Item>, w: string)
    decreases |items|
  {
    if items == [] then w == ""
    else exists n :: SplitsAt(items, w, n)
  }

  ghost predicate SplitsAt(items: seq<Item>, w: string, n: int)
    requires items != []
    decreases |items|, 0
  {
    0 <= n <= |w| && InItem(items[0], w[..n]) && InItems(items[1..], w[n..])
  }

  /** Some prefix of `s` is a word of the items; with an end anchor it must be all of `s`. */
  ghost predicate MatchesPrefix(items: seq<Item>, toEnd: bool, s: string) {
    exists n :: PrefixWord(items, toEnd, s, n)
  }

  ghost predicate PrefixWord(items: seq<Item>, toEnd: bool, s: string, n: int) {
    0 <= n <= |s| && InItems(items, s[..n]) && (toEnd ==> n == |s|)
  }

  /** Some substring of `s` is a word of the regex, placed as its anchors demand. */
  ghost predicate MatchesSomewhere(r: Regex, s: string) {
    exists i :: 0 <= i <= |s| && (r.fromStart ==> i == 0) && MatchesPrefix(r.items, r.toEnd, s[i..])
  }

  lemma ItemThenRest(items: seq<Item>, w: string, n: nat)
    requires items != [] && n <= |w| && InItem(items[0], w[..n]) && InItems(items[1..], w[n..])
    ensures InItems(items, w)
  {
    assert SplitsAt(items, w, n);
  }

  /** A match of the first item's part, followed by a match of the rest. */
  ghost predicate Takes(items: seq<Item>, toEnd: bool, s: string, k: int)
    requires items != []
  {
    0 <= k <= |s| && InItem(items[0], s[..k]) && MatchesPrefix(items[1..], toEnd, s[k..])
  }

  lemma PrefixUnfolds(items: seq<Item>, toEnd: bool, s: string)
    requires items != []
    ensures MatchesPrefix(items, toEnd, s) <==> exists k :: Takes(items, toEnd, s, k)
  {
    hide InItem;
    if MatchesPrefix(items, toEnd, s) {
      var n :| PrefixWord(items, toEnd, s, n);
      var w := s[..n];
      assert InItems(items, w);
      var k :| SplitsAt(items, w, k);
      assert s[..n][..k] == s[..k] && s[..n][k..] == s[k..][..n - k];
      assert PrefixWord(items[1..], toEnd, s[k..], n - k);
      assert Takes(items, toEnd, s, k);
    }
    if k :| Takes(items, toEnd, s, k) {
      var n :| PrefixWord(items[1..], toEnd, s[k..], n);
      assert s[..k + n][..k] == s[..k] && s[..k + n][k..] == s[k..][..n];
      ItemThenRest(items, s[..k + n], k);
      assert PrefixWord(items, toEnd, s, k + n);
    }
  }

  lemma NoItems(toEnd: bool, s: string)
    ensures MatchesPrefix([], toEnd, s) <==> (toEnd ==> s == "")
  {
    assert s[..0] == "";
    if toEnd ==> s == "" {
      assert PrefixWord([], toEnd, s, 0);
    }
  }

  // ----- the matcher ------------------------------------------------------------------------------------

  /** `regex` is the text of these items. */
  ghost predicate Tail(regex: string, items: seq<Item>, toEnd: bool) {
    ItemsOk(items) && regex == PrintTail(items, toEnd)
  }

  /** No unescaped atom can be taken for an anchor, an escape or a repetition. */
  lemma PlainAtom(i: Item)
    requires ItemOk(i) && !i.escaped
    ensures i.c != '\\' && i.c != '$' && i.c != '^' && !IsRepeat(i.c)
  {
  }

  lemma SpecialChars()
    ensures !IsRepeat('$') && !IsRepeat('\\') && IsRepeat('?') && IsRepeat('*') && IsRepeat('+')
  {
  }

  lemma TailUnfolds(items: seq<Item>, toEnd: bool)
    requires items != []
    ensures PrintTail(items, toEnd) ==
            (if items[0].escaped then ['\\', items[0].c] else [items[0].c]) +
            (Mark(items[0].repeat) + PrintTail(items[1..], toEnd))
  {
    hide Mark;
    assert PrintTail(items, toEnd) == PrintItem(items[0]) + PrintTail(items[1..], toEnd);
  }

  /** How the text of a tail begins. */
  lemma TailBegins(regex: string, items: seq<Item>, toEnd: bool)
    requires Tail(regex, items, toEnd)
    ensures items == [] ==> regex == if toEnd then "$" else ""
    ensures items != [] ==>
      var i := items[0];
      var rest := PrintTail(items[1..], toEnd);
      && Tail(rest, items[1..], toEnd)
      && regex == (if i.escaped then ['\\', i.c] else [i.c]) + (Mark(i.repeat) + rest)
      && (!i.escaped ==> i.c != '\\' && i.c != '$')
      && (rest != "" ==> !IsRepeat(rest[0]))
  {
    hide IsInSet, IsRepeat, ItemOk;
    if items != [] {
      var i := items[0];
      var rest := PrintTail(items[1..], toEnd);
      if !i.escaped {
        PlainAtom(i);
      }
      TailUnfolds(items, toEnd);
      hide PrintTail;
      NotRepeat(rest, items[1..], toEnd);
    }
  }

  lemma NotRepeat(rest: string, items: seq<Item>, toEnd: bool)
    requires Tail(rest, items, toEnd)
    ensures rest != "" ==> !IsRepeat(rest[0])
  {
    hide IsInSet, IsRepeat, ItemOk;
    SpecialChars();
    if items != [] {
      if !items[0].escaped {
        PlainAtom(items[0]);
      }
      assert PrintItems(items)[0] == PrintItem(items[0])[0];
    }
  }

  const SIZE_MAX: int := 0xFFFF_FFFF_FFFF_FFFF

  /** Is `str` in the language "prefix described by the items"? The ghost arguments say what `regex` is
      the text of. */
  method MatchRegexAtHead(regex: string, str: string, ghost items: seq<Item>, ghost toEnd: bool) returns (b: bool)
    requires Tail(regex, items, toEnd) && |str| < SIZE_MAX
    ensures b <==> MatchesPrefix(items, toEnd, str)
    decreases |regex|, 1
  {
    hide *;
    AtomShape(regex, items, toEnd);
    NoItems(toEnd, str);
    if regex == "" {
      return true;
    }
    if regex[0] == '$' {
      return str == "";
    }
    PrefixUnfolds(items, toEnd, str);
    var escaped := regex[0] == '\\';
    var r := if escaped then regex[1..] else regex;
    if |r| > 1 && IsRepeat(r[1]) {
      b := MatchRepetitionAndRegexAtHead(escaped, r[0], r[1], r[2..], str, items, toEnd);
    } else {
      TakesOne(items, toEnd, str);
      if str == "" || !AtomMatchesChar(escaped, r[0], str[0]) {
        return false;
      }
      b := MatchRegexAtHead(r[1..], str[1..], items[1..], toEnd);
    }
  }

  /** What the matcher finds when it looks at the first characters of a tail. */
  lemma AtomShape(regex: string, items: seq<Item>, toEnd: bool)
    requires Tail(regex, items, toEnd)
    ensures items == [] ==> regex == if toEnd then "$" else ""
    ensures items != [] ==>
      && regex != "" && regex[0] != '$' && (regex[0] == '\\' <==> items[0].escaped)
      && var r := if items[0].escaped then regex[1..] else regex;
      && r != "" && r[0] == items[0].c
      && (|r| > 1 && IsRepeat(r[1]) <==> items[0].repeat != Once)
      && (items[0].repeat != Once ==> Mark(items[0].repeat) == [r[1]] && Tail(r[2..], items[1..], toEnd))
      && (items[0].repeat == Once ==> Tail(r[1..], items[1..], toEnd))
  {
    TailBegins(regex, items, toEnd);
    hide Tail, PrintTail, IsInSet, IsRepeat;
    if items != [] {
      var i := items[0];
      var rest := PrintTail(items[1..], toEnd);
      var r := if i.escaped then regex[1..] else regex;
      assert r == [i.c] + (Mark(i.repeat) + rest);
      MarkedRest(i.c, i.repeat, rest);
      hide Mark;
    }
  }

  lemma MarkedRest(c: char, repeat: Repeat, rest: string)
    requires rest != "" ==> !IsRepeat(rest[0])
    ensures var r := [c] + (Mark(repeat) + rest);
            && r[0] == c && (|r| > 1 && IsRepeat(r[1]) <==> repeat != Once)
            && (repeat != Once ==> Mark(repeat) == [r[1]] && r[2..] == rest)
            && (repeat == Once ==> r[1..] == rest)
  {
    SpecialChars();
    hide IsRepeat;
    if repeat == Once {
      assert Mark(repeat) + rest == rest;
    }
  }

  lemma TakesOne(items: seq<Item>, toEnd: bool, s: string)
    requires items != [] && items[0].repeat == Once
    ensures (exists k :: Takes(items, toEnd, s, k)) <==>
            s != "" && AtomMatchesChar(items[0].escaped, items[0].c, s[0]) && MatchesPrefix(items[1..], toEnd, s[1..])
  {
    hide AtomMatchesChar, MatchesPrefix;
    if s != "" && AtomMatchesChar(items[0].escaped, items[0].c, s[0]) && MatchesPrefix(items[1..], toEnd, s[1..]) {
      assert Takes(items, toEnd, s, 1);
    }
  }

  method MatchRepetitionAndRegexAtHead(escaped: bool, c: char, repeat: char, regex: string, str: string,
                                       ghost items: seq<Item>, ghost toEnd: bool) returns (b: bool)
    requires items != [] && items[0].escaped == escaped && items[0].c == c && Mark(items[0].repeat) == [repeat]
    requires Tail(regex, items[1..], toEnd) && |str| < SIZE_MAX
    ensures b <==> exists k :: Takes(items, toEnd, str, k)
    decreases |regex|, 2
  {
    hide Tail, PrintTail, MatchesPrefix, AtomMatchesChar, IsAsciiPunct, ItemsOk;
    var minCount := if repeat == '+' then 1 else 0;
    var maxCount := if repeat == '?' then 1 else SIZE_MAX - 1;
    var i := 0;
    while i <= maxCount
      invariant 0 <= i <= |str| && i <= maxCount + 1
      invariant AllMatch(escaped, c, str[..i])
      invariant forall k :: 0 <= k < i ==> !Takes(items, toEnd, str, k)
      decreases |str| - i
    {
      assert InItem(items[0], str[..i]) <==> i >= minCount;
      if i >= minCount {
        var tail := MatchRegexAtHead(regex, str[i..], items[1..], toEnd);
        if tail {
          assert Takes(items, toEnd, str, i);
          return true;
        }
      }
      assert !Takes(items, toEnd, str, i);
      if i == |str| || !AtomMatchesChar(escaped, c, str[i]) {
        NoLonger(items, toEnd, str, i);
        return false;
      }
      i := i + 1;
    }
    NotTwice(items, toEnd, str);
    b := false;
  }

  lemma NoLonger(items: seq<Item>, toEnd: bool, s: string, i: nat)
    requires items != [] && i <= |s| && (i < |s| ==> !AtomMatchesChar(items[0].escaped, items[0].c, s[i]))
    ensures forall k :: k > i ==> !Takes(items, toEnd, s, k)
  {
    hide AtomMatchesChar, MatchesPrefix;
    forall k | k > i ensures !Takes(items, toEnd, s, k) {
      if k <= |s| {
        assert s[..k][i] == s[i];
      }
    }
  }

  lemma NotTwice(items: seq<Item>, toEnd: bool, s: string)
    requires items != []
    ensures items[0].repeat == Optional ==> forall k :: k > 1 ==> !Takes(items, toEnd, s, k)
  {
    hide AtomMatchesChar, MatchesPrefix;
  }

  method MatchRegexAnywhere(regex: string, str: string, ghost r: Regex) returns (b: bool)
    requires regex == Print(r) && ItemsOk(r.items) && |str| < SIZE_MAX
    ensures b <==> MatchesSomewhere(r, str)
  {
    hide PrintTail, MatchesPrefix, AtomMatchesChar, ItemsOk;
    ghost var tail := PrintTail(r.items, r.toEnd);
    StartOf(r);
    if regex != "" && regex[0] == '^' {
      assert regex[1..] == tail && str[0..] == str;
      b := MatchRegexAtHead(regex[1..], str, r.items, r.toEnd);
      return;
    }
    assert regex == tail;
    var at := 0;
    while true
      invariant 0 <= at <= |str|
      invariant forall i :: 0 <= i < at ==> !MatchesPrefix(r.items, r.toEnd, str[i..])
      decreases |str| - at
    {
      var here := MatchRegexAtHead(regex, str[at..], r.items, r.toEnd);
      if here { return true; }
      if at == |str| { return false; }
      at := at + 1;
    }
  }

  lemma StartOf(r: Regex)
    requires ItemsOk(r.items)
    ensures Tail(PrintTail(r.items, r.toEnd), r.items, r.toEnd)
    ensures PrintTail(r.items, r.toEnd) != "" ==> PrintTail(r.items, r.toEnd)[0] != '^'
  {
    hide ItemOk;
    if r.items != [] {
      if !r.items[0].escaped {
        PlainAtom(r.items[0]);
      }
      assert PrintItems(r.items)[0] == PrintItem(r.items[0])[0];
    }
  }

  // ----- the syntax check ---------------------------------------------------------------------------------

  predicate BadHere(ch: char, atStart: bool, atEnd: bool, prevRepeatable: bool) {
    || (ch == '^' && !atStart)
    || (ch == '$' && !atEnd)
    || IsInSet(ch, "()[]{}|")
    || (IsRepeat(ch) && !prevRepeatable)
  }

  /** No complaint is raised in the rest `s` of a regex. */
  predicate Accepts(s: string, atStart: bool, prevRepeatable: bool)
    decreases |s|
  {
    if s == "" then true
    else if s[0] == '\\' then |s| >= 2 && IsValidEscape(s[1]) && Accepts(s[2..], false, true)
    else !BadHere(s[0], atStart, |s| == 1, prevRepeatable) && Accepts(s[1..], false, !IsInSet(s[0], "^$?*+"))
  }

  method ValidateRegex(regex: string) returns (valid: bool)
    requires '\0' !in regex
    ensures valid <==> exists r: Regex :: ItemsOk(r.items) && regex == Print(r)
  {
    valid := true;
    var prevRepeatable := false;
    var i := 0;
    assert regex[0..] == regex;
    while i < |regex|
      invariant 0 <= i <= |regex|
      invariant (valid && Accepts(regex[i..], i == 0, prevRepeatable)) <==> Accepts(regex, true, false)
      decreases |regex| - i
    {
      hide IsInSet, IsRepeat, IsValidEscape, BadHere;
      ghost var rest := regex[i..];
      if regex[i] == '\\' {
        i := i + 1;
        if i == |regex| {
          AcceptedIffPrinted(regex);
          return false;
        }
        if !IsValidEscape(regex[i]) {
          valid := false;
        }
        prevRepeatable := true;
        assert rest[2..] == regex[i + 1..];
      } else {
        var ch := regex[i];
        var bad := BadHere(ch, i == 0, i + 1 == |regex|, prevRepeatable);
        if bad {
          valid := false;
        }
        prevRepeatable := !IsInSet(ch, "^$?*+");
        assert rest[1..] == regex[i + 1..];
      }
      i := i + 1;
    }
    AcceptedIffPrinted(regex);
  }

  /** The check passes exactly the texts of well-formed regexes. */
  lemma AcceptedIffPrinted(regex: string)
    requires '\0' !in regex
    ensures Accepts(regex, true, false) <==> exists r: Regex :: ItemsOk(r.items) && regex == Print(r)
  {
    hide Accepts, PrintTail, ItemsOk;
    if Accepts(regex, true, false) {
      StartAccepted(regex);
      if regex != "" && regex[0] == '^' {
        var items, toEnd := ParseTail(regex[1..]);
        assert regex == Print(Regex(true, items, toEnd));
      } else {
        var items, toEnd := ParseTail(regex);
        assert regex == Print(Regex(false, items, toEnd));
      }
    }
    if r: Regex :| ItemsOk(r.items) && regex == Print(r) {
      TailAccepted(r.items, r.toEnd);
      StartPrinted(r);
    }
  }

  lemma StartAccepted(s: string)
    requires Accepts(s, true, false)
    ensures s != "" && s[0] == '^' ==> Accepts(s[1..], false, false)
    ensures s == "" || s[0] != '^' ==> Accepts(s, false, false)
  {
    CaretFacts();
  }

  lemma CaretFacts()
    ensures IsInSet('^', "^$?*+") && !IsInSet('^', "()[]{}|") && !IsRepeat('^')
    ensures IsInSet('$', "^$?*+") && !IsInSet('$', "()[]{}|")
  {
  }

  lemma StartPrinted(r: Regex)
    requires ItemsOk(r.items) && Accepts(PrintTail(r.items, r.toEnd), false, false)
    ensures Accepts(Print(r), true, false)
  {
    CaretFacts();
    StartOf(r);
    var tail := PrintTail(r.items, r.toEnd);
    hide PrintTail, IsInSet, IsRepeat, IsValidEscape, ItemsOk;
    if r.fromStart {
      assert Print(r)[1..] == tail;
    } else {
      assert Print(r) == tail;
    }
  }

  /** A repetition mark after an atom, if there is one. */
  lemma SplitMark(s: string) returns (repeat: Repeat, rest: string)
    requires Accepts(s, false, true)
    ensures s == Mark(repeat) + rest && Accepts(rest, false, false)
  {
    RepeatChars();
    hide IsInSet, IsValidEscape;
    if s != "" && IsRepeat(s[0]) {
      repeat := if s[0] == '?' then Optional else if s[0] == '*' then Any else Some;
      rest := s[1..];
    } else {
      repeat, rest := Once, s;
    }
  }

  lemma RepeatChars()
    ensures forall ch :: IsRepeat(ch) <==> ch in {'?', '*', '+'}
    ensures forall ch :: IsRepeat(ch) ==> IsInSet(ch, "^$?*+") && !IsInSet(ch, "()[]{}|") && ch != '\\'
  {
  }

  /** An unescaped character the check lets pass, other than an anchor or a repetition, is an atom. */
  lemma OrdinaryAtom(ch: char)
    requires ch != '\0' && ch != '\\' && ch != '^' && ch != '$' && !IsInSet(ch, "()[]{}|") && !IsRepeat(ch)
    ensures ItemOk(Item(false, ch, Once)) && !IsInSet(ch, "^$?*+")
  {
  }

  lemma {:induction false} ParseTail(s: string) returns (items: seq<Item>, toEnd: bool)
    requires '\0' !in s && Accepts(s, false, false)
    ensures Tail(s, items, toEnd)
    decreases |s|
  {
    CaretFacts();
    hide IsInSet, IsRepeat, IsValidEscape, IsAsciiPunct;
    if s == "" {
      items, toEnd := [], false;
    } else if s[0] == '$' {
      items, toEnd := [], true;
    } else {
      var item, tail := ParseAtom(s);
      items, toEnd := ParseTail(tail);
      ConsTail(item, tail, items, toEnd);
      items := [item] + items;
    }
  }

  lemma ParseAtom(s: string) returns (item: Item, tail: string)
    requires '\0' !in s && Accepts(s, false, false) && s != "" && s[0] != '$'
    ensures ItemOk(item) && s == PrintItem(item) + tail && Accepts(tail, false, false) && '\0' !in tail
    ensures |tail| < |s|
  {
    hide IsInSet, IsRepeat, IsValidEscape, IsAsciiPunct, Accepts, PrintItem, Mark;
    UnfoldAccepts(s);
    if s[0] == '\\' {
      var repeat, rest := SplitMark(s[2..]);
      item, tail := Item(true, s[1], repeat), rest;
      AtomText(item, tail);
      assert s == ['\\', s[1]] + s[2..];
    } else {
      OrdinaryAtom(s[0]);
      var repeat, rest := SplitMark(s[1..]);
      item, tail := Item(false, s[0], repeat), rest;
      AtomText(item, tail);
      assert ItemOk(Item(false, s[0], Once));
      assert s == [s[0]] + s[1..];
    }
  }

  lemma UnfoldAccepts(s: string)
    requires Accepts(s, false, false) && s != "" && s[0] != '$'
    ensures s[0] == '\\' ==> |s| >= 2 && IsValidEscape(s[1]) && Accepts(s[2..], false, true)
    ensures s[0] != '\\' ==> s[0] != '^' && !IsInSet(s[0], "()[]{}|") && !IsRepeat(s[0])
    ensures s[0] != '\\' && s[0] != '\0' ==> Accepts(s[1..], false, true)
  {
    if s[0] != '\\' && s[0] != '\0' {
      OrdinaryAtom(s[0]);
    }
    hide IsInSet, IsRepeat, IsValidEscape;
  }

  lemma ConsTail(item: Item, tail: string, items: seq<Item>, toEnd: bool)
    requires ItemOk(item) && Tail(tail, items, toEnd)
    ensures Tail(PrintItem(item) + tail, [item] + items, toEnd)
  {
    hide ItemOk, PrintItem;
    assert ([item] + items)[1..] == items;
  }

  lemma {:induction false} TailAccepted(items: seq<Item>, toEnd: bool)
    requires ItemsOk(items)
    ensures Accepts(PrintTail(items, toEnd), false, false)
    decreases |items|
  {
    if items == [] {
      CaretFacts();
      EndAccepted();
    } else {
      TailAccepted(items[1..], toEnd);
      AtomAccepted(items[0], PrintTail(items[1..], toEnd));
      assert PrintTail(items, toEnd) == PrintItem(items[0]) + PrintTail(items[1..], toEnd);
    }
  }

  lemma EndAccepted()
    ensures Accepts("", false, false) && Accepts("$", false, false)
  {
    CaretFacts();
    RepeatChars();
    assert "$"[1..] == "";
  }

  lemma AtomAccepted(i: Item, tail: string)
    requires ItemOk(i) && Accepts(tail, false, false)
    ensures Accepts(PrintItem(i) + tail, false, false)
  {
    var after := Mark(i.repeat) + tail;
    hide *;
    MarkAccepted(i.repeat, tail);
    AtomText(i, tail);
    if i.escaped {
      EscapeAccepted(i.c, after);
    } else {
      PlainIsGood(i, after == "");
      PlainAccepted(i.c, after);
    }
  }

  lemma AtomText(i: Item, tail: string)
    ensures PrintItem(i) + tail == (if i.escaped then ['\\', i.c] else [i.c]) + (Mark(i.repeat) + tail)
    ensures ItemOk(i) && i.escaped ==> IsValidEscape(i.c)
  {
  }

  lemma EscapeAccepted(c: char, after: string)
    requires IsValidEscape(c) && Accepts(after, false, true)
    ensures Accepts(['\\', c] + after, false, false)
  {
    hide IsValidEscape, BadHere, IsInSet;
    assert (['\\', c] + after)[2..] == after;
  }

  lemma PlainAccepted(c: char, after: string)
    requires c != '\\' && !BadHere(c, false, after == "", false) && Accepts(after, false, !IsInSet(c, "^$?*+"))
    ensures Accepts([c] + after, false, false)
  {
    hide IsValidEscape, BadHere, IsInSet;
    assert ([c] + after)[1..] == after;
  }

  lemma PlainIsGood(i: Item, atEnd: bool)
    requires ItemOk(i) && !i.escaped
    ensures !BadHere(i.c, false, atEnd, false) && !IsInSet(i.c, "^$?*+") && i.c != '\\'
  {
    PlainAtom(i);
  }

  lemma MarkAccepted(r: Repeat, tail: string)
    requires Accepts(tail, false, false)
    ensures Accepts(Mark(r) + tail, false, true)
  {
    RepeatChars();
    hide IsInSet, IsValidEscape;
    var s := Mark(r) + tail;
    if r == Once {
      assert s == tail;
    } else {
      assert s[1..] == tail;
    }
  }
}
