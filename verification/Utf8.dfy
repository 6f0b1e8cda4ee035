/** gtest's UTF-8 encoder and its treatment of wide strings. */
module Utf8 {
  import opened Words
  import opened Wrappers
  import opened Numerals

  type codepoint = bv32

  const MAX1: bv32 := 0x7F
  const MAX2: bv32 := 0x7FF
  const MAX3: bv32 := 0xFFFF
  const MAX4: bv32 := 0x1F_FFFF

  /** The low six bits, marked as a continuation byte. */
  function Continuation(bits: bv32): bv8 {
    ((0x80 | (bits & 0x3F)) & 0xFF) as bv8
  }

  function Lead(mark: bv32, bits: bv32): bv8 {
    ((mark | bits) & 0xFF) as bv8
  }

  function Ascii(s: string): seq<bv8> {
    seq(|s|, i requires 0 <= i < |s| => (s[i] as int % 128) as bv8)
  }

  /** The text that stands for an invalid code point. */
  function Complaint(cp: codepoint): (s: seq<bv8>)
    ensures |s| > 20
  {
    Ascii("(Invalid Unicode 0x" + Numeral(cp as nat, 16, true) + ")")
  }

  /** `CodePointToUtf8`. The result is built in a zero-terminated buffer, so code point 0 yields
      nothing. */
  function Encode(cp: codepoint): seq<bv8> {
    if cp > MAX4 then Complaint(cp)
    else if cp == 0 then []
    else if cp <= MAX1 then [Lead(0, cp)]
    else if cp <= MAX2 then [Lead(0xC0, cp >> 6), Continuation(cp)]
    else if cp <= MAX3 then [Lead(0xE0, cp >> 12), Continuation(cp >> 6), Continuation(cp)]
    else [Lead(0xF0, cp >> 18), Continuation(cp >> 12), Continuation(cp >> 6), Continuation(cp)]
  }

  datatype Decoded = Decoded(cp: codepoint, size: nat)

  predicate IsContinuation(b: bv8) {
    b & 0xC0 == 0x80
  }

  function Payload(b: bv8): bv32 {
    (b & 0x3F) as bv32
  }

  function Combine2(b0: bv8, b1: bv8): bv32 {
    ((b0 & 0x1F) as bv32 << 6) | Payload(b1)
  }

  function Combine3(b0: bv8, b1: bv8, b2: bv8): bv32 {
    ((b0 & 0x0F) as bv32 << 12) | (Payload(b1) << 6) | Payload(b2)
  }

  function Combine4(b0: bv8, b1: bv8, b2: bv8, b3: bv8): bv32 {
    ((b0 & 0x07) as bv32 << 18) | (Payload(b1) << 12) | (Payload(b2) << 6) | Payload(b3)
  }

  /** How many bytes a first byte announces; 0 if no character starts with it. */
  function Announced(b0: bv8): nat {
    if b0 & 0x80 == 0 then 1
    else if b0 & 0xE0 == 0xC0 then 2
    else if b0 & 0xF0 == 0xE0 then 3
    else if b0 & 0xF8 == 0xF0 then 4
    else 0
  }

  /** Reads one character as section 3 of RFC 3629 prescribes, with the four-byte form extended to its
      full 21 bits: the first byte gives the length, overlong forms are refused. */
  function Decode(b: seq<bv8>): Option<Decoded> {
    if b == [] then None
    else
      var n := Announced(b[0]);
      if n == 0 || |b| < n || exists k :: 1 <= k < n && !IsContinuation(b[k]) then None
      else if n == 1 then Some(Decoded(b[0] as bv32, 1))
      else if n == 2 then Checked(Combine2(b[0], b[1]), MAX1, 2)
      else if n == 3 then Checked(Combine3(b[0], b[1], b[2]), MAX2, 3)
      else Checked(Combine4(b[0], b[1], b[2], b[3]), MAX3, 4)
  }

  function Checked(cp: codepoint, above: bv32, size: nat): Option<Decoded> {
    if cp <= above then None else Some(Decoded(cp, size))
  }

  // ----- the bits -----------------------------------------------------------------------------------------

  lemma ContinuationMarked(bits: bv32)
    ensures IsContinuation(Continuation(bits)) && Payload(Continuation(bits)) == bits & 0x3F
  {
  }

  lemma Lead1(cp: bv32)
    requires cp <= MAX1
    ensures Announced(Lead(0, cp)) == 1 && Lead(0, cp) as bv32 == cp
  {
  }

  lemma Lead2(cp: bv32)
    requires cp <= MAX2
    ensures Announced(Lead(0xC0, cp >> 6)) == 2 && (Lead(0xC0, cp >> 6) & 0x1F) as bv32 == cp >> 6
  {
  }

  lemma Lead3(cp: bv32)
    requires cp <= MAX3
    ensures Announced(Lead(0xE0, cp >> 12)) == 3 && (Lead(0xE0, cp >> 12) & 0x0F) as bv32 == cp >> 12
  {
  }

  lemma Lead4(cp: bv32)
    requires cp <= MAX4
    ensures Announced(Lead(0xF0, cp >> 18)) == 4 && (Lead(0xF0, cp >> 18) & 0x07) as bv32 == cp >> 18
  {
  }

  lemma Split2(cp: bv32)
    requires cp <= MAX2
    ensures ((cp >> 6) << 6) | (cp & 0x3F) == cp
  {
  }

  lemma Split3(cp: bv32)
    requires cp <= MAX3
    ensures ((cp >> 12) << 12) | (((cp >> 6) & 0x3F) << 6) | (cp & 0x3F) == cp
  {
  }

  lemma Split4(cp: bv32)
    requires cp <= MAX4
    ensures ((cp >> 18) << 18) | (((cp >> 12) & 0x3F) << 12) | (((cp >> 6) & 0x3F) << 6) | (cp & 0x3F) == cp
  {
  }

  lemma Joined2(cp: bv32)
    requires cp <= MAX2
    ensures Announced(Lead(0xC0, cp >> 6)) == 2 && IsContinuation(Continuation(cp))
    ensures Combine2(Lead(0xC0, cp >> 6), Continuation(cp)) == cp
  {
    Lead2(cp);
    ContinuationMarked(cp);
    Split2(cp);
    hide Continuation, Lead, Payload, IsContinuation, Announced;
  }

  lemma Joined3(cp: bv32)
    requires cp <= MAX3
    ensures Announced(Lead(0xE0, cp >> 12)) == 3
    ensures IsContinuation(Continuation(cp >> 6)) && IsContinuation(Continuation(cp))
    ensures Combine3(Lead(0xE0, cp >> 12), Continuation(cp >> 6), Continuation(cp)) == cp
  {
    Lead3(cp);
    ContinuationMarked(cp >> 6);
    ContinuationMarked(cp);
    Split3(cp);
    hide Continuation, Lead, Payload, IsContinuation, Announced;
  }

  lemma Joined4(cp: bv32)
    requires cp <= MAX4
    ensures Announced(Lead(0xF0, cp >> 18)) == 4 && IsContinuation(Continuation(cp >> 12))
    ensures IsContinuation(Continuation(cp >> 6)) && IsContinuation(Continuation(cp))
    ensures Combine4(Lead(0xF0, cp >> 18), Continuation(cp >> 12), Continuation(cp >> 6), Continuation(cp)) == cp
  {
    Lead4(cp);
    ContinuationMarked(cp >> 12);
    ContinuationMarked(cp >> 6);
    ContinuationMarked(cp);
    Split4(cp);
    hide Continuation, Lead, Payload, IsContinuation, Announced;
  }

  /** Whatever follows it, an encoded character is read back. */
  lemma DecodeEncode(cp: codepoint, rest: seq<bv8>)
    requires 0 < cp <= MAX4
    ensures Decode(Encode(cp) + rest) == Some(Decoded(cp, |Encode(cp)|))
  {
    hide Continuation, Lead, Payload, IsContinuation, Announced, Combine2, Combine3, Combine4, Ascii, Numeral;
    if cp <= MAX1 {
      Lead1(cp);
    } else if cp <= MAX2 {
      Joined2(cp);
    } else if cp <= MAX3 {
      Joined3(cp);
    } else {
      Joined4(cp);
    }
  }

  lemma Rebuilt1(b0: bv8)
    requires Announced(b0) == 1
    ensures b0 as bv32 <= MAX1 && Lead(0, b0 as bv32) == b0
  {
  }

  lemma Rebuilt2(b0: bv8, b1: bv8)
    requires Announced(b0) == 2 && IsContinuation(b1)
    ensures Combine2(b0, b1) <= MAX2
    ensures Lead(0xC0, Combine2(b0, b1) >> 6) == b0 && Continuation(Combine2(b0, b1)) == b1
  {
  }

  lemma Rebuilt3(b0: bv8, b1: bv8, b2: bv8)
    requires Announced(b0) == 3 && IsContinuation(b1) && IsContinuation(b2)
    ensures Combine3(b0, b1, b2) <= MAX3
    ensures Lead(0xE0, Combine3(b0, b1, b2) >> 12) == b0
    ensures Continuation(Combine3(b0, b1, b2) >> 6) == b1 && Continuation(Combine3(b0, b1, b2)) == b2
  {
  }

  lemma Rebuilt4(b0: bv8, b1: bv8, b2: bv8, b3: bv8)
    requires Announced(b0) == 4 && IsContinuation(b1) && IsContinuation(b2) && IsContinuation(b3)
    ensures Combine4(b0, b1, b2, b3) <= MAX4
    ensures Lead(0xF0, Combine4(b0, b1, b2, b3) >> 18) == b0 && Continuation(Combine4(b0, b1, b2, b3) >> 12) == b1
    ensures Continuation(Combine4(b0, b1, b2, b3) >> 6) == b2 && Continuation(Combine4(b0, b1, b2, b3)) == b3
  {
  }

  lemma Back1(b0: bv8)
    requires Announced(b0) == 1 && b0 != 0
    ensures b0 as bv32 <= MAX4 && Encode(b0 as bv32) == [b0]
  {
    Rebuilt1(b0);
    hide Continuation, Lead, Announced, Ascii, Numeral;
  }

  lemma Back2(b0: bv8, b1: bv8)
    requires Announced(b0) == 2 && IsContinuation(b1) && Combine2(b0, b1) > MAX1
    ensures Combine2(b0, b1) <= MAX4 && Encode(Combine2(b0, b1)) == [b0, b1]
  {
    Rebuilt2(b0, b1);
    hide Continuation, Lead, IsContinuation, Announced, Combine2, Ascii, Numeral;
  }

  lemma Back3(b0: bv8, b1: bv8, b2: bv8)
    requires Announced(b0) == 3 && IsContinuation(b1) && IsContinuation(b2) && Combine3(b0, b1, b2) > MAX2
    ensures Combine3(b0, b1, b2) <= MAX4 && Encode(Combine3(b0, b1, b2)) == [b0, b1, b2]
  {
    Rebuilt3(b0, b1, b2);
    hide Continuation, Lead, IsContinuation, Announced, Combine3, Ascii, Numeral;
  }

  lemma Back4(b0: bv8, b1: bv8, b2: bv8, b3: bv8)
    requires Announced(b0) == 4 && IsContinuation(b1) && IsContinuation(b2) && IsContinuation(b3)
    requires Combine4(b0, b1, b2, b3) > MAX3
    ensures Combine4(b0, b1, b2, b3) <= MAX4 && Encode(Combine4(b0, b1, b2, b3)) == [b0, b1, b2, b3]
  {
    Rebuilt4(b0, b1, b2, b3);
    hide Continuation, Lead, IsContinuation, Announced, Combine4, Ascii, Numeral;
  }

  /** What the decoder reads is what the encoder writes: there is only one form of each character. */
  lemma EncodeDecode(b: seq<bv8>)
    requires Decode(b).Some? && Decode(b).value.cp != 0
    ensures Decode(b).value.cp <= MAX4 && 0 < Decode(b).value.size <= |b|
    ensures Encode(Decode(b).value.cp) == b[..Decode(b).value.size]
  {
    DecodeCases(b);
    hide IsContinuation, Announced, Combine2, Combine3, Combine4, Encode, Decode, MAX1, MAX2, MAX3, MAX4;
    var n := Announced(b[0]);
    FirstBytes(b);
    if n == 1 {
      ZeroByte(b[0], Decode(b).value.cp);
      Back1(b[0]);
    } else if n == 2 {
      Back2(b[0], b[1]);
    } else if n == 3 {
      Back3(b[0], b[1], b[2]);
    } else {
      Back4(b[0], b[1], b[2], b[3]);
    }
  }

  lemma ZeroByte(b: bv8, cp: codepoint)
    requires cp == b as bv32 && cp != 0
    ensures b != 0
  {
  }

  lemma FirstBytes<T>(b: seq<T>)
    ensures |b| >= 1 ==> b[..1] == [b[0]]
    ensures |b| >= 2 ==> b[..2] == [b[0], b[1]]
    ensures |b| >= 3 ==> b[..3] == [b[0], b[1], b[2]]
    ensures |b| >= 4 ==> b[..4] == [b[0], b[1], b[2], b[3]]
  {
  }

  lemma DecodeCases(b: seq<bv8>)
    requires Decode(b).Some?
    ensures b != [] && 1 <= Announced(b[0]) <= |b| && Decode(b).value.size == Announced(b[0]) <= 4
    ensures forall k :: 1 <= k < Announced(b[0]) ==> IsContinuation(b[k])
    ensures
      var n, cp := Announced(b[0]), Decode(b).value.cp;
      && (n == 1 ==> cp == b[0] as bv32)
      && (n == 2 ==> cp == Combine2(b[0], b[1]) && cp > MAX1)
      && (n == 3 ==> cp == Combine3(b[0], b[1], b[2]) && cp > MAX2)
      && (n >= 4 ==> |b| >= 4 && cp == Combine4(b[0], b[1], b[2], b[3]) && cp > MAX3)
  {
    AnnouncedRange(b[0]);
    hide IsContinuation, Announced, Combine2, Combine3, Combine4;
  }

  lemma AnnouncedRange(b0: bv8)
    ensures Announced(b0) <= 4
  {
  }

  // ----- the encoder in place -------------------------------------------------------------------------

  /** Takes the six lowest bits off: `bits` is `rest * 2^6 + low`. The encoder takes off no other number
      of bits. */
  method ChopLowBits(bits: bv32) returns (low: bv32, rest: bv32)
    ensures low < 0x40 && rest < 0x400_0000 && bits == (rest << 6) + low
  {
    low, rest := bits & ((1 << 6) - 1), bits >> 6;
  }

  /** There is only one way to take six bits off. */
  lemma SixBits(bits: bv32, low: bv32, rest: bv32)
    requires low < 0x40 && rest < 0x400_0000 && bits == (rest << 6) + low
    ensures low == bits & 0x3F && rest == bits >> 6
  {
  }

  lemma Shifts(cp: bv32)
    ensures (cp >> 6) >> 6 == cp >> 12 && (cp >> 12) >> 6 == cp >> 18
  {
  }

  lemma Marked(bits: bv32)
    ensures ((0x80 | (bits & 0x3F)) & 0xFF) as bv8 == Continuation(bits)
  {
  }

  /** Fills the bytes from the last to the first, chopping bits off the code point on the way. */
  method CodePointToUtf8(codePoint: codepoint) returns (str: seq<bv8>)
    ensures str == Encode(codePoint)
  {
    if codePoint > MAX4 {
      return Complaint(codePoint);
    }
    EncodeForms(codePoint);
    Shifts(codePoint);
    Marked(codePoint);
    Marked(codePoint >> 6);
    Marked(codePoint >> 12);
    hide Lead, Continuation, Complaint, Numeral, Encode;
    if codePoint <= MAX1 {
      // a zero byte would end the string before it starts
      return if codePoint == 0 then [] else [Lead(0, codePoint)];
    }
    var low, rest := ChopLowBits(codePoint);
    SixBits(codePoint, low, rest);
    var last := ((0x80 | low) & 0xFF) as bv8;
    if codePoint <= MAX2 {
      return [Lead(0xC0, rest), last];
    }
    ghost var bits := rest;
    low, rest := ChopLowBits(rest);
    SixBits(bits, low, rest);
    var third := ((0x80 | low) & 0xFF) as bv8;
    if codePoint <= MAX3 {
      return [Lead(0xE0, rest), third, last];
    }
    bits := rest;
    low, rest := ChopLowBits(rest);
    SixBits(bits, low, rest);
    str := [Lead(0xF0, rest), ((0x80 | low) & 0xFF) as bv8, third, last];
  }

  /** U+10FFFF is the last valid code point. */
  const LAST: codepoint := 0x10_FFFF

  /** The documented treatment: the message for the code points beyond the last valid one and for no
      others. */
  ghost predicate AsDocumented(cp: codepoint) {
    Encode(cp) == Complaint(cp) <==> cp > LAST
  }

  /** The code treats a code point as documented exactly unless it lies between U+110000 and U+1FFFFF. */
  lemma AsDocumentedIff(cp: codepoint)
    ensures AsDocumented(cp) <==> cp <= LAST || cp > MAX4
  {
    hide Complaint, Lead, Continuation;
  }

  /** The first code point beyond the last valid one is encoded in four bytes, without a message. */
  lemma FirstInvalid()
    ensures Encode(0x11_0000) == [0xF4, 0x90, 0x80, 0x80] && !AsDocumented(0x11_0000)
  {
    assert Lead(0xF0, 0x11_0000 >> 18) == 0xF4;
    assert Continuation(0x11_0000 >> 12) == 0x90;
    assert Continuation(0x11_0000 >> 6) == 0x80 && Continuation(0x11_0000) == 0x80;
    hide Complaint, Lead, Continuation;
  }

  lemma EncodeForms(cp: codepoint)
    requires cp <= MAX4
    ensures cp == 0 ==> Encode(cp) == []
    ensures 0 < cp <= MAX1 ==> Encode(cp) == [Lead(0, cp)]
    ensures MAX1 < cp <= MAX2 ==> Encode(cp) == [Lead(0xC0, cp >> 6), Continuation(cp)]
    ensures MAX2 < cp <= MAX3 ==> Encode(cp) == [Lead(0xE0, cp >> 12), Continuation(cp >> 6), Continuation(cp)]
    ensures MAX3 < cp ==>
              Encode(cp) == [Lead(0xF0, cp >> 18), Continuation(cp >> 12), Continuation(cp >> 6), Continuation(cp)]
  {
    hide Lead, Continuation, Complaint, Numeral;
  }

  // ----- streams ------------------------------------------------------------------------------------------

  function EncodeAll(cps: seq<codepoint>): seq<bv8> {
    if cps == [] then [] else EncodeAll(cps[..|cps| - 1]) + Encode(cps[|cps| - 1])
  }

  function DecodeAll(b: seq<bv8>): Option<seq<codepoint>>
    decreases |b|
  {
    if b == [] then Some([])
    else
      match Decode(b)
      case None => None
      case Some(d) =>
        if d.size == 0 || d.size > |b| then None
        else
          match DecodeAll(b[d.size..])
          case None => None
          case Some(rest) => Some([d.cp] + rest)
  }

  predicate Encodable(cps: seq<codepoint>) {
    forall i :: 0 <= i < |cps| ==> 0 < cps[i] <= MAX4
  }

  lemma {:induction false} EncodeAllCons(cps: seq<codepoint>)
    requires cps != []
    ensures EncodeAll(cps) == Encode(cps[0]) + EncodeAll(cps[1..])
    decreases |cps|
  {
    hide Encode;
    var n := |cps| - 1;
    if n == 0 {
      assert cps[..0] == [] && cps[1..] == [] && EncodeAll([]) == [];
    } else {
      var front, last := cps[..n], cps[n];
      EncodeAllCons(front);
      assert front[1..] == cps[1..][..n - 1] && cps[1..][n - 1] == last;
      assert EncodeAll(cps) == EncodeAll(front) + Encode(last);
      assert EncodeAll(cps[1..]) == EncodeAll(front[1..]) + Encode(last);
      hide EncodeAll;
      assert front[0] == cps[0];
    }
  }

  lemma EncodeSize(cp: codepoint)
    requires 0 < cp <= MAX4
    ensures |Encode(cp)| > 0
  {
    hide Continuation, Lead, Ascii, Numeral;
  }

  /** The output is uniquely decodable: a strict decoder recovers the code points. */
  lemma {:induction false} StreamRoundTrip(cps: seq<codepoint>)
    requires Encodable(cps)
    ensures DecodeAll(EncodeAll(cps)) == Some(cps)
    decreases |cps|
  {
    hide Encode, Decode;
    if cps != [] {
      var b := EncodeAll(cps);
      EncodeAllCons(cps);
      EncodeSize(cps[0]);
      DecodeEncode(cps[0], EncodeAll(cps[1..]));
      StreamRoundTrip(cps[1..]);
      assert b[|Encode(cps[0])|..] == EncodeAll(cps[1..]);
      assert [cps[0]] + cps[1..] == cps;
    }
  }

  // ----- wide strings -------------------------------------------------------------------------------------

  /** `wcharSize` is the platform's sizeof(wchar_t), 2 or 4. */
  predicate IsUtf16SurrogatePair(wcharSize: nat, first: bv32, second: bv32) {
    wcharSize == 2 && first & 0xFC00 == 0xD800 && second & 0xFC00 == 0xDC00
  }

  function CreateCodePoint(wcharSize: nat, first: bv32, second: bv32): codepoint {
    if wcharSize == 2 then (((first & 0x3FF) << 10) | (second & 0x3FF)) + 0x10000 else first
  }

  /** The code points read from a wide string up to its first zero. */
  function CodePoints(wcharSize: nat, w: seq<bv32>): seq<codepoint>
    decreases |w|
  {
    if w == [] || w[0] == 0 then []
    else if |w| > 1 && IsUtf16SurrogatePair(wcharSize, w[0], w[1]) then
      [CreateCodePoint(wcharSize, w[0], w[1])] + CodePoints(wcharSize, w[2..])
    else [w[0]] + CodePoints(wcharSize, w[1..])
  }

  function Min(a: int, b: int): int {
    if a < b then a else b
  }

  /** `str` holds the characters before the terminator; `numChars` may cut it shorter, -1 does not. */
  method WideStringToUtf8(wcharSize: nat, str: seq<bv32>, numChars: int) returns (stream: seq<bv8>)
    ensures numChars == -1 ==> stream == EncodeAll(CodePoints(wcharSize, str))
    ensures numChars >= 0 ==> stream == EncodeAll(CodePoints(wcharSize, str[..Min(numChars, |str|)]))
    ensures numChars < -1 ==> stream == []
  {
    hide *;
    if numChars < -1 { return []; }  // the loop does not start
    stream := ConvertUnits(wcharSize, str, if numChars == -1 then |str| else numChars);
    assert str[..|str|] == str;
    MinBounds(if numChars == -1 then |str| else numChars, |str|);
  }

  lemma MinBounds(a: int, b: int)
    ensures Min(a, b) <= b && (a == b ==> Min(a, b) == b)
  {
  }

  /** The loop over the first `limit` characters. */
  method ConvertUnits(wcharSize: nat, str: seq<bv32>, limit: nat) returns (stream: seq<bv8>)
    ensures stream == EncodeAll(CodePoints(wcharSize, str[..Min(limit, |str|)]))
  {
    hide *;
    CutBounds(limit, |str|);
    ghost var w := str[..Min(limit, |str|)];
    ghost var done := [];
    stream := [];
    var i := 0;
    PointsStart(wcharSize, w);
    while i < limit
      invariant 0 <= i <= |w|
      invariant stream == EncodeAll(done)
      invariant done + CodePoints(wcharSize, w[i..]) == CodePoints(wcharSize, w)
      decreases limit - i
    {
      if i == |str| || str[i] == 0 {  // the terminator
        break;
      }
      ghost var at := i;
      var cp := str[i];
      if i + 1 < limit && i + 1 < |str| && IsUtf16SurrogatePair(wcharSize, str[i], str[i + 1]) {
        cp := CreateCodePoint(wcharSize, str[i], str[i + 1]);
        i := i + 1;
      }
      PointsStep(wcharSize, w, at, cp, i + 1, done);
      EncodeAllSnoc(done, cp);
      var encoded := CodePointToUtf8(cp);
      stream := stream + encoded;
      done := done + [cp];
      i := i + 1;
    }
    PointsStop(wcharSize, w, i, done);
  }

  lemma CutBounds(limit: nat, size: nat)
    ensures 0 <= Min(limit, size) <= size && Min(limit, size) <= limit
    ensures limit >= size ==> Min(limit, size) == size
    ensures limit <= size ==> Min(limit, size) == limit
  {
  }

  lemma PointsStart(wcharSize: nat, w: seq<bv32>)
    ensures [] + CodePoints(wcharSize, w[0..]) == CodePoints(wcharSize, w)
    ensures EncodeAll([]) == []
  {
    hide IsUtf16SurrogatePair, CreateCodePoint;
    assert w[0..] == w;
  }

  lemma PointsStop(wcharSize: nat, w: seq<bv32>, i: nat, done: seq<codepoint>)
    requires i <= |w| && (i == |w| || w[i] == 0)
    ensures done + CodePoints(wcharSize, w[i..]) == done
  {
    hide IsUtf16SurrogatePair, CreateCodePoint;
  }

  lemma EncodeAllSnoc(done: seq<codepoint>, cp: codepoint)
    ensures EncodeAll(done + [cp]) == EncodeAll(done) + Encode(cp)
  {
    hide Encode;
    assert (done + [cp])[..|done|] == done;
  }

  lemma PointsStep(wcharSize: nat, w: seq<bv32>, at: nat, cp: codepoint, next: nat, done: seq<codepoint>)
    requires at < next <= |w| && w[at] != 0
    requires if at + 1 < |w| && IsUtf16SurrogatePair(wcharSize, w[at], w[at + 1])
             then next == at + 2 && cp == CreateCodePoint(wcharSize, w[at], w[at + 1])
             else next == at + 1 && cp == w[at]
    ensures done + CodePoints(wcharSize, w[at..]) == done + [cp] + CodePoints(wcharSize, w[next..])
  {
    hide IsUtf16SurrogatePair, CreateCodePoint;
    assert w[at..][next - at..] == w[next..];
  }

  // ----- UTF-16 -------------------------------------------------------------------------------------------

  predicate Scalar(cp: codepoint) {
    0 < cp <= 0x10_FFFF && !(0xD800 <= cp <= 0xDFFF)
  }

  /** Section 2.1 of RFC 2781. */
  function Utf16(cp: codepoint): seq<bv32> {
    if cp < 0x10000 then [cp]
    else [0xD800 | ((cp - 0x10000) >> 10), 0xDC00 | ((cp - 0x10000) & 0x3FF)]
  }

  function Utf16All(cps: seq<codepoint>): seq<bv32> {
    if cps == [] then [] else Utf16(cps[0]) + Utf16All(cps[1..])
  }

  lemma PairBits(cp: codepoint)
    requires 0x10000 <= cp <= 0x10_FFFF
    ensures IsUtf16SurrogatePair(2, Utf16(cp)[0], Utf16(cp)[1])
    ensures CreateCodePoint(2, Utf16(cp)[0], Utf16(cp)[1]) == cp
    ensures Utf16(cp)[0] != 0
  {
    hide *;
    var h, l := PairText(cp);
    assert Utf16(cp)[0] == h && Utf16(cp)[1] == l;
  }

  lemma PairText(cp: codepoint) returns (h: bv32, l: bv32)
    requires 0x10000 <= cp <= 0x10_FFFF
    ensures Utf16(cp) == [h, l]
    ensures IsUtf16SurrogatePair(2, h, l) && CreateCodePoint(2, h, l) == cp && h != 0
  {
    hide *;
    var v := cp - 0x10000;
    h, l := 0xD800 | (v >> 10), 0xDC00 | (v & 0x3FF);
    PairSpelled(cp);
    PlaneBound(cp);
    PairMarked(v, h, l);
    PairRebuilds(cp, v, h, l);
  }

  lemma PairSpelled(cp: codepoint)
    requires 0x10000 <= cp <= 0x10_FFFF
    ensures Utf16(cp) == [0xD800 | ((cp - 0x10000) >> 10), 0xDC00 | ((cp - 0x10000) & 0x3FF)]
  {
  }

  lemma PairMarked(v: bv32, h: bv32, l: bv32)
    requires v <= 0xF_FFFF && h == 0xD800 | (v >> 10) && l == 0xDC00 | (v & 0x3FF)
    ensures IsUtf16SurrogatePair(2, h, l) && h != 0
  {
    PairHigh(v);
    PairLow(v);
  }

  lemma PairRebuilds(cp: codepoint, v: bv32, h: bv32, l: bv32)
    requires v == cp - 0x10000 && v <= 0xF_FFFF && h == 0xD800 | (v >> 10) && l == 0xDC00 | (v & 0x3FF)
    ensures CreateCodePoint(2, h, l) == cp
  {
    hide *;
    PairHigh(v);
    PairLow(v);
    PairSum(v);
    PairAssembled(cp, v, h, l);
  }

  lemma PairAssembled(cp: codepoint, v: bv32, h: bv32, l: bv32)
    requires v == cp - 0x10000
    requires h & 0x3FF == v >> 10 && l & 0x3FF == v & 0x3FF && ((v >> 10) << 10) | (v & 0x3FF) == v
    ensures CreateCodePoint(2, h, l) == cp
  {
  }

  lemma PlaneBound(cp: codepoint)
    requires 0x10000 <= cp <= 0x10_FFFF
    ensures cp - 0x10000 <= 0xF_FFFF
  {
  }

  lemma PairHigh(v: bv32)
    requires v <= 0xF_FFFF
    ensures (0xD800 | (v >> 10)) & 0xFC00 == 0xD800 && (0xD800 | (v >> 10)) & 0x3FF == v >> 10
  {
  }

  lemma PairLow(v: bv32)
    ensures (0xDC00 | (v & 0x3FF)) & 0xFC00 == 0xDC00 && (0xDC00 | (v & 0x3FF)) & 0x3FF == v & 0x3FF
  {
  }

  lemma PairSum(v: bv32)
    requires v <= 0xF_FFFF
    ensures ((v >> 10) << 10) | (v & 0x3FF) == v
  {
  }

  lemma NotHigh(cp: codepoint)
    requires Scalar(cp) && cp < 0x10000
    ensures forall second :: !IsUtf16SurrogatePair(2, cp, second)
  {
  }

  /** On 16-bit platforms, well-formed UTF-16 without a zero is read as the code points it encodes. */
  lemma {:induction false} WellFormedUtf16(cps: seq<codepoint>)
    requires forall i :: 0 <= i < |cps| ==> Scalar(cps[i])
    ensures CodePoints(2, Utf16All(cps)) == cps
    decreases |cps|
  {
    if cps != [] {
      var cp, rest := cps[0], Utf16All(cps[1..]);
      WellFormedUtf16(cps[1..]);
      OneUtf16(cp, rest);
      hide CodePoints, Utf16;
      assert [cp] + cps[1..] == cps;
    }
  }

  /** The first code point of a well-formed sequence is taken off it. */
  lemma OneUtf16(cp: codepoint, rest: seq<bv32>)
    requires Scalar(cp)
    ensures CodePoints(2, Utf16(cp) + rest) == [cp] + CodePoints(2, rest)
  {
    var w := Utf16(cp) + rest;
    if cp < 0x10000 {
      NotHigh(cp);
      hide IsUtf16SurrogatePair, CreateCodePoint;
      assert w == [cp] + rest && w[1..] == rest;
    } else {
      PairBits(cp);
      hide IsUtf16SurrogatePair, CreateCodePoint;
      assert w[2..] == rest && w[0] == Utf16(cp)[0] && w[1] == Utf16(cp)[1];
      hide Utf16;
    }
  }

  // ----- unit by unit -------------------------------------------------------------------------------------

  /** Where wide characters are not 16 bits wide, every unit before the first zero is a code point of its
      own. */
  lemma {:induction false} WideUnits(wcharSize: nat, w: seq<bv32>)
    requires wcharSize != 2
    ensures CodePoints(wcharSize, w) <= w && 0 !in CodePoints(wcharSize, w)
    ensures var n := |CodePoints(wcharSize, w)|; n == |w| || w[n] == 0
    decreases |w|
  {
    if w != [] && w[0] != 0 {
      NoPair(wcharSize, w);
      WideUnits(wcharSize, w[1..]);
      hide CodePoints;
      assert w == [w[0]] + w[1..];
    }
  }

  lemma NoPair(wcharSize: nat, w: seq<bv32>)
    requires wcharSize != 2 && w != [] && w[0] != 0
    ensures CodePoints(wcharSize, w) == [w[0]] + CodePoints(wcharSize, w[1..])
  {
  }

  /** The ranges of RFC 2781, section 2.1. */
  predicate HighSurrogate(u: bv32) {
    0xD800 <= u <= 0xDBFF
  }

  predicate LowSurrogate(u: bv32) {
    0xDC00 <= u <= 0xDFFF
  }

  lemma SurrogateRanges(a: bv32, b: bv32)
    requires a <= 0xFFFF && b <= 0xFFFF
    ensures IsUtf16SurrogatePair(2, a, b) <==> HighSurrogate(a) && LowSurrogate(b)
  {
    HighRange(a);
    LowRange(b);
    hide HighSurrogate, LowSurrogate;
  }

  lemma HighRange(a: bv32)
    requires a <= 0xFFFF
    ensures a & 0xFC00 == 0xD800 <==> HighSurrogate(a)
  {
  }

  lemma LowRange(b: bv32)
    requires b <= 0xFFFF
    ensures b & 0xFC00 == 0xDC00 <==> LowSurrogate(b)
  {
  }

  lemma PairValue(a: bv32, b: bv32)
    requires HighSurrogate(a) && LowSurrogate(b)
    ensures CreateCodePoint(2, a, b) == 0x10000 + ((a - 0xD800) << 10) + (b - 0xDC00)
  {
  }

  /** What any sequence of 16-bit units gives, well-formed or not: a pair of surrogates is one code point,
      every other unit, an unpaired surrogate included, is read as itself. */
  lemma NarrowUnits(w: seq<bv32>)
    requires forall k :: 0 <= k < |w| ==> w[k] <= 0xFFFF
    ensures w == [] || w[0] == 0 ==> CodePoints(2, w) == []
    ensures |w| > 1 && HighSurrogate(w[0]) && LowSurrogate(w[1]) ==>
              CodePoints(2, w) == [0x10000 + ((w[0] - 0xD800) << 10) + (w[1] - 0xDC00)] + CodePoints(2, w[2..])
    ensures w != [] && w[0] != 0 && !(|w| > 1 && HighSurrogate(w[0]) && LowSurrogate(w[1])) ==>
              CodePoints(2, w) == [w[0]] + CodePoints(2, w[1..])
  {
    if |w| > 1 {
      SurrogateRanges(w[0], w[1]);
      if HighSurrogate(w[0]) && LowSurrogate(w[1]) {
        PairValue(w[0], w[1]);
        HighNotZero(w[0]);
      }
    }
    hide IsUtf16SurrogatePair, CreateCodePoint, HighSurrogate, LowSurrogate;
  }

  lemma HighNotZero(a: bv32)
    requires HighSurrogate(a)
    ensures a != 0
  {
  }

  // ----- examples and messages ----------------------------------------------------------------------------

  /** One character for each number of bytes and for the pair form. */
  lemma Examples()
    ensures Encode(0x41) == [0x41] && Encode(0xE9) == [0xC3, 0xA9] && Encode(0x20AC) == [0xE2, 0x82, 0xAC]
    ensures Encode(0x1F600) == [0xF0, 0x9F, 0x98, 0x80]
    ensures Utf16(0x10437) == [0xD801, 0xDC37] && Utf16(0x41) == [0x41]
  {
    assert Lead(0, 0x41) == 0x41;
    assert Lead(0xC0, 0xE9 >> 6) == 0xC3 && Continuation(0xE9) == 0xA9;
    assert Lead(0xE0, 0x20AC >> 12) == 0xE2 && Continuation(0x20AC >> 6) == 0x82 && Continuation(0x20AC) == 0xAC;
    assert Lead(0xF0, 0x1F600 >> 18) == 0xF0 && Continuation(0x1F600 >> 12) == 0x9F;
    assert Continuation(0x1F600 >> 6) == 0x98 && Continuation(0x1F600) == 0x80;
    hide Lead, Continuation, Complaint;
  }

  /** Ordinary characters become the bytes of their codes. */
  lemma AsciiCodes(s: string)
    ensures |Ascii(s)| == |s|
    ensures forall i :: 0 <= i < |s| && s[i] as int < 128 ==> Ascii(s)[i] as int == s[i] as int
  {
    forall i | 0 <= i < |s| && s[i] as int < 128 ensures Ascii(s)[i] as int == s[i] as int {
      ByteOf(s[i] as int);
    }
  }

  lemma ByteOf(n: nat)
    requires n < 128
    ensures (n % 128) as bv8 as int == n
  {
    ThereAndBack(n);
    assert n % 128 == n;
  }

  lemma AsciiAppend(a: string, b: string)
    ensures Ascii(a + b) == Ascii(a) + Ascii(b)
  {
  }

  /** The message names the code point in capital hexadecimal digits. */
  lemma ComplaintNames(cp: codepoint)
    ensures exists digits ::
              Complaint(cp) == Ascii("(Invalid Unicode 0x") + Ascii(digits) + Ascii(")") && HexOf(digits, cp)
  {
    var digits := Numeral(cp as nat, 16, true);
    NumeralMeans(cp as nat, 16, true);
    NumeralIsSpelled(cp as nat, 16, true);
    assert HexOf(digits, cp);
    assert Complaint(cp) == Ascii("(Invalid Unicode 0x" + digits + ")");
    hide *;
    AsciiAppend("(Invalid Unicode 0x" + digits, ")");
    AsciiAppend("(Invalid Unicode 0x", digits);
  }

  ghost predicate HexOf(digits: string, cp: codepoint) {
    Spelled(digits, true) && Value(digits, 16) == cp as nat
  }
}
