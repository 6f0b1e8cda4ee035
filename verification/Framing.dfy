/** How the promise demo puts frames on the wire, id and length first, and what happens when a byte stream
    is cut into frames again. */
module Framing {
  import opened Words
  import opened Wrappers

  type byte = x: int | 0 <= x < 256
  type u32 = x: int | 0 <= x < TWO32
  type bytes = seq<byte>

  /** The largest payload length whose frame size still fits in 32 bits. */
  const MAX_PAYLOAD: int := TWO32 - 9

  datatype Frame = Frame(id: u32, payload: bytes)

  function PutU32(v: u32): (b: bytes)
    ensures |b| == 4
  {
    [v / 0x100_0000 % 256, v / 0x1_0000 % 256, v / 0x100 % 256, v % 256]
  }

  function GetU32(b: bytes, pos: nat): u32
    requires pos + 4 <= |b|
  {
    var b3: int, b2: int, b1: int, b0: int := b[pos], b[pos + 1], b[pos + 2], b[pos + 3];
    b3 * 0x100_0000 + b2 * 0x1_0000 + b1 * 0x100 + b0
  }

  lemma U32RoundTrip(v: u32)
    ensures GetU32(PutU32(v), 0) == v
  {
    var q3 := v / 0x100;
    var q2 := v / 0x1_0000;
    var q1 := v / 0x100_0000;
    assert q2 == q3 / 0x100 && q1 == q2 / 0x100;
    assert v == q3 * 256 + v % 256 && q3 == q2 * 256 + q3 % 256 && q2 == q1 * 256 + q2 % 256;
  }

  /** `encode_frame`: the length field is the payload size cut to 32 bits. */
  function Encode(f: Frame): (b: bytes)
    ensures |b| == 8 + |f.payload|
  {
    PutU32(f.id) + PutU32(|f.payload| % TWO32) + f.payload
  }

  /** The number four bytes stand for, the first of them the most significant. */
  ghost predicate BigEndian(b: bytes, v: int) {
    |b| == 4 && v == b[0] as int * 16777216 + b[1] as int * 65536 + b[2] as int * 256 + b[3] as int
  }

  /** The bytes of a frame: its id and the size of its payload, both big-endian, and the payload; a size of
      2^32 or more is cut. */
  lemma FrameBytes(f: Frame)
    ensures BigEndian(Encode(f)[..4], f.id)
    ensures exists cut: nat :: BigEndian(Encode(f)[4..8], |f.payload| - cut * 4294967296)
    ensures Encode(f)[8..] == f.payload
  {
    var n := |f.payload| % TWO32;
    U32Bytes(f.id);
    U32Bytes(n);
    hide PutU32;
    assert Encode(f)[..4] == PutU32(f.id) && Encode(f)[4..8] == PutU32(n);
    var cut: nat := |f.payload| / TWO32;
    assert n == |f.payload| - cut * 4294967296;
    assert BigEndian(Encode(f)[4..8], |f.payload| - cut * 4294967296);
  }

  lemma U32Bytes(v: u32)
    ensures BigEndian(PutU32(v), v)
  {
    U32RoundTrip(v);
  }

  method EncodeFrame(id: u32, payload: bytes) returns (frame: bytes)
    ensures frame == Encode(Frame(id, payload))
  {
    frame := [];
    frame := frame + PutU32(id);
    frame := frame + PutU32(|payload| % TWO32);
    frame := frame + payload;
  }

  /** `8 + length` is computed in 32 bits. */
  function FrameSize(buffer: bytes): u32
    requires |buffer| >= 8
  {
    (8 + GetU32(buffer, 4)) % TWO32
  }

  predicate FrameReady(buffer: bytes) {
    |buffer| >= 8 && |buffer| >= FrameSize(buffer)
  }

  datatype Decoded = Decoded(frame: Frame, rest: bytes)
  function Min(a: int, b: int): int {
    if a < b then a else b
  }

  /** The first frame and what is left, if a complete frame is there. */
  function TryDecode(buffer: bytes): Option<Decoded> {
    if !FrameReady(buffer) then None
    else
      Some(Decoded(Frame(GetU32(buffer, 0), buffer[8..Min(|buffer|, 8 + GetU32(buffer, 4))]),
                   buffer[FrameSize(buffer)..]))
  }

  /** In-out buffer as an in- and an out-parameter. */
  method TryDecodeFrame(buffer: bytes) returns (ok: bool, id: u32, payload: bytes, rest: bytes)
    ensures ok <==> TryDecode(buffer).Some?
    ensures ok ==> TryDecode(buffer) == Some(Decoded(Frame(id, payload), rest))
    ensures !ok ==> rest == buffer
  {
    ok, id, payload, rest := false, 0, [], buffer;
    if |buffer| < 8 { return; }
    var length := GetU32(buffer, 4);
    if |buffer| < (8 + length) % TWO32 { return; }
    id := GetU32(buffer, 0);
    payload := buffer[8..Min(|buffer|, 8 + length)];
    rest := buffer[(8 + length) % TWO32..];
    ok := true;
  }

  predicate Fits(f: Frame) {
    |f.payload| <= MAX_PAYLOAD
  }

  lemma HeaderOf(f: Frame, rest: bytes)
    ensures GetU32(Encode(f) + rest, 0) == f.id
    ensures GetU32(Encode(f) + rest, 4) == |f.payload| % TWO32
  {
    var b := Encode(f) + rest;
    U32RoundTrip(f.id);
    U32RoundTrip(|f.payload| % TWO32);
    assert forall k :: 0 <= k < 4 ==> b[k] == PutU32(f.id)[k];
    assert forall k :: 0 <= k < 4 ==> b[4 + k] == PutU32(|f.payload| % TWO32)[k];
  }

  /** A frame comes back from the front of any stream exactly when its size fits in 32 bits. */
  lemma FrameRoundTrip(f: Frame, rest: bytes)
    ensures TryDecode(Encode(f) + rest) == Some(Decoded(f, rest)) <==> Fits(f)
  {
    hide GetU32, PutU32;
    var b := Encode(f) + rest;
    HeaderOf(f, rest);
    assert b[8..] == f.payload + rest;
    if Fits(f) {
      assert b[8..8 + |f.payload|] == f.payload;
      assert b[8 + |f.payload|..] == rest;
    }
  }

  // ----- draining a buffer ------------------------------------------------------------------------

  function EncodeAll(fs: seq<Frame>): bytes {
    if fs == [] then [] else Encode(fs[0]) + EncodeAll(fs[1..])
  }

  lemma {:induction false} EncodeAllAppend(a: seq<Frame>, b: seq<Frame>)
    ensures EncodeAll(a + b) == EncodeAll(a) + EncodeAll(b)
    decreases |a|
  {
    hide Encode;
    if a == [] {
      assert a + b == b;
    } else {
      EncodeAllAppend(a[1..], b);
      assert (a + b)[1..] == a[1..] + b;
    }
  }

  /** No header with a wrapping size is ever reached. With one of those the loops below would read a
      payload that overlaps the rest of the stream, or not advance at all. */
  ghost predicate Sane(buffer: bytes)
    decreases |buffer|
  {
    |buffer| >= 8 ==>
      GetU32(buffer, 4) <= MAX_PAYLOAD &&
      (FrameReady(buffer) ==> Sane(buffer[8 + GetU32(buffer, 4)..]))
  }

  /** What such a header does: the frame is taken for complete, yet less than a header is removed. */
  lemma OversizedHeader(buffer: bytes)
    requires |buffer| >= 8 && GetU32(buffer, 4) > MAX_PAYLOAD
    ensures !Sane(buffer)
    ensures TryDecode(buffer).Some?
    ensures |TryDecode(buffer).value.rest| == |buffer| - (GetU32(buffer, 4) - MAX_PAYLOAD - 1)
  {
    hide GetU32;
  }

  datatype Drained = Drained(frames: seq<Frame>, rest: bytes)

  /** What `while (try_decode_frame(...))` takes out of a buffer, up to a header for which the loop would not
      advance. */
  function Drain(buffer: bytes): Drained
    decreases |buffer|
  {
    match TryDecode(buffer)
    case None => Drained([], buffer)
    case Some(d) =>
      if |d.rest| == |buffer| then Drained([], buffer)
      else
        var more := Drain(d.rest);
        Drained([d.frame] + more.frames, more.rest)
  }

  /** The loop comes to an end: no header is reached whose size is 0 in 32 bits. */
  ghost predicate Ends(buffer: bytes)
    decreases |buffer|
  {
    FrameReady(buffer) ==> FrameSize(buffer) > 0 && Ends(buffer[FrameSize(buffer)..])
  }

  lemma {:induction false} SaneEnds(buffer: bytes)
    requires Sane(buffer)
    ensures Ends(buffer)
    decreases |buffer|
  {
    hide GetU32;
    if FrameReady(buffer) {
      SaneEnds(buffer[8 + GetU32(buffer, 4)..]);
    }
  }

  /** One round of the loop, on any stream on which it ends. */
  lemma EndsStep(buffer: bytes)
    requires Ends(buffer)
    ensures TryDecode(buffer) == None ==> Drain(buffer) == Drained([], buffer)
    ensures TryDecode(buffer).Some? ==>
      var d := TryDecode(buffer).value;
      && Ends(d.rest) && |d.rest| < |buffer|
      && Drain(buffer).frames == [d.frame] + Drain(d.rest).frames
      && Drain(buffer).rest == Drain(d.rest).rest
  {
    hide GetU32;
  }

  lemma SaneStep(buffer: bytes)
    requires Sane(buffer) && TryDecode(buffer).Some?
    ensures Sane(TryDecode(buffer).value.rest) && |TryDecode(buffer).value.rest| < |buffer|
  {
    hide GetU32;
  }

  lemma {:induction false} DrainedIsIncomplete(buffer: bytes)
    requires Sane(buffer)
    ensures TryDecode(Drain(buffer).rest) == None && Sane(Drain(buffer).rest)
    decreases |buffer|
  {
    hide GetU32, FrameReady;
    match TryDecode(buffer)
    case None =>
    case Some(d) =>
      SaneStep(buffer);
      DrainedIsIncomplete(d.rest);
  }

  lemma DecodeAppend(a: bytes, b: bytes)
    requires Sane(a + b) && TryDecode(a).Some?
    ensures TryDecode(a + b) == Some(Decoded(TryDecode(a).value.frame, TryDecode(a).value.rest + b))
    ensures Sane(TryDecode(a).value.rest + b)
  {
    assert GetU32(a + b, 4) == GetU32(a, 4) && GetU32(a + b, 0) == GetU32(a, 0);
    hide GetU32;
    var n := 8 + GetU32(a, 4);
    assert (a + b)[n..] == a[n..] + b;
    assert (a + b)[8..n] == a[8..n];
  }

  lemma {:induction false} SaneFront(a: bytes, b: bytes)
    requires Sane(a + b)
    ensures Sane(a)
    decreases |a|
  {
    if |a| >= 8 {
      assert GetU32(a + b, 4) == GetU32(a, 4);
    }
    hide GetU32;
    if FrameReady(a) {
      var n := 8 + GetU32(a, 4);
      assert (a + b)[n..] == a[n..] + b;
      SaneFront(a[n..], b);
    }
  }

  lemma DrainStep(buffer: bytes)
    requires Sane(buffer)
    ensures TryDecode(buffer) == None ==> Drain(buffer) == Drained([], buffer)
    ensures TryDecode(buffer).Some? ==>
      var d := TryDecode(buffer).value;
      && Sane(d.rest) && |d.rest| < |buffer|
      && Drain(buffer).frames == [d.frame] + Drain(d.rest).frames
      && Drain(buffer).rest == Drain(d.rest).rest
  {
    hide GetU32, FrameReady;
    if TryDecode(buffer).Some? {
      SaneStep(buffer);
    }
  }

  /** Decoding may be interrupted anywhere: draining a prefix first and the remainder together with
      the rest of the stream later yields the same frames. */
  lemma {:induction false} DrainAppend(a: bytes, b: bytes)
    requires Sane(a + b)
    ensures Sane(a) && Sane(Drain(a).rest + b)
    ensures Drain(a + b).frames == Drain(a).frames + Drain(Drain(a).rest + b).frames
    ensures Drain(a + b).rest == Drain(Drain(a).rest + b).rest
    decreases |a|
  {
    hide TryDecode, Sane, Drain;
    SaneFront(a, b);
    DrainStep(a);
    match TryDecode(a)
    case None =>
      assert [] + Drain(a + b).frames == Drain(a + b).frames;
    case Some(d) =>
      DecodeAppend(a, b);
      DrainStep(a + b);
      DrainAppend(d.rest, b);
      calc {
        Drain(a + b).frames;
        [d.frame] + (Drain(d.rest).frames + Drain(Drain(d.rest).rest + b).frames);
        ([d.frame] + Drain(d.rest).frames) + Drain(Drain(d.rest).rest + b).frames;
      }
  }

  function Concat(chunks: seq<bytes>): bytes {
    if chunks == [] then [] else Concat(chunks[..|chunks| - 1]) + chunks[|chunks| - 1]
  }

  /** Append-then-drain for every chunk that arrives. */
  ghost function Feed(chunks: seq<bytes>): (d: Drained)
    requires Sane(Concat(chunks))
    ensures d == Drain(Concat(chunks))
    decreases |chunks|
  {
    if chunks == [] then Drained([], [])
    else
      var front, last := chunks[..|chunks| - 1], chunks[|chunks| - 1];
      DrainAppend(Concat(front), last);
      var before := Feed(front);
      var more := Drain(before.rest + last);
      Drained(before.frames + more.frames, more.rest)
  }

  /** Two ways of cutting the same stream give the same frames and the same rest. */
  lemma ChunkingIsIrrelevant(chunks: seq<bytes>, chunks': seq<bytes>)
    requires Concat(chunks) == Concat(chunks') && Sane(Concat(chunks))
    ensures Feed(chunks) == Feed(chunks')
  {
  }

  // ----- streams of encoded frames ------------------------------------------------------------------

  predicate AllFit(fs: seq<Frame>) {
    forall i :: 0 <= i < |fs| ==> Fits(fs[i])
  }

  /** A stream of whole frames followed by an incomplete one. */
  lemma {:induction false} DrainEncoded(fs: seq<Frame>, tail: bytes)
    requires AllFit(fs) && Sane(tail) && TryDecode(tail) == None
    ensures Sane(EncodeAll(fs) + tail)
    ensures Drain(EncodeAll(fs) + tail) == Drained(fs, tail)
    decreases |fs|
  {
    hide Encode, TryDecode;
    if fs == [] {
      assert EncodeAll(fs) + tail == tail;
      DrainStep(tail);
    } else {
      var rest := EncodeAll(fs[1..]) + tail;
      DrainEncoded(fs[1..], tail);
      assert EncodeAll(fs) + tail == Encode(fs[0]) + rest;
      FrameRoundTrip(fs[0], rest);
      SaneCons(fs[0], rest);
      DrainStep(EncodeAll(fs) + tail);
    }
  }

  lemma SaneCons(f: Frame, rest: bytes)
    requires Fits(f) && Sane(rest)
    ensures Sane(Encode(f) + rest)
  {
    HeaderOf(f, rest);
    hide GetU32, PutU32;
    var b := Encode(f) + rest;
    assert b[8 + |f.payload|..] == rest;
  }

  /** A proper prefix of a frame cannot be decoded. */
  lemma PartialFrame(f: Frame, n: nat)
    requires Fits(f) && n < |Encode(f)|
    ensures Sane(Encode(f)[..n]) && TryDecode(Encode(f)[..n]) == None
  {
    HeaderOf(f, []);
    hide PutU32;
    assert Encode(f) + [] == Encode(f);
    var b := Encode(f)[..n];
    if n >= 8 {
      SameHeader(b, Encode(f));
    }
    hide GetU32, Encode;
  }

  lemma SameHeader(a: bytes, b: bytes)
    requires 8 <= |a| && a <= b
    ensures GetU32(a, 4) == GetU32(b, 4)
  {
    assert a[4] == b[4] && a[5] == b[5] && a[6] == b[6] && a[7] == b[7];
  }

  /** Wherever a stream of frames is cut, the part before the cut decodes to the frames that lie wholly
      in it and leaves a proper prefix of the next one. */
  lemma {:induction false} DrainPrefix(fs: seq<Frame>, n: nat) returns (k: nat)
    requires AllFit(fs) && n <= |EncodeAll(fs)|
    ensures k <= |fs| && Sane(EncodeAll(fs)[..n])
    ensures Drain(EncodeAll(fs)[..n]).frames == fs[..k]
    ensures EncodeAll(fs[..k]) + Drain(EncodeAll(fs)[..n]).rest == EncodeAll(fs)[..n]
    ensures k == |fs| ==> Drain(EncodeAll(fs)[..n]).rest == []
    ensures k < |fs| ==> Drain(EncodeAll(fs)[..n]).rest < Encode(fs[k])
    decreases |fs|
  {
    hide Encode, TryDecode, Sane;
    if fs == [] {
      k := 0;
      SaneNothing();
      DrainStep([]);
    } else if n < |Encode(fs[0])| {
      k := 0;
      assert EncodeAll(fs)[..n] == Encode(fs[0])[..n];
      PartialFrame(fs[0], n);
      DrainStep(Encode(fs[0])[..n]);
    } else {
      var m := n - |Encode(fs[0])|;
      var k' := DrainPrefix(fs[1..], m);
      k := k' + 1;
      var cut := EncodeAll(fs[1..])[..m];
      assert EncodeAll(fs)[..n] == Encode(fs[0]) + cut;
      hide Drain;
      FrameRoundTrip(fs[0], cut);
      SaneCons(fs[0], cut);
      DrainStep(Encode(fs[0]) + cut);
      FirstOfMany(fs, k');
      hide EncodeAll;
      Regroup(Encode(fs[0]), EncodeAll(fs[1..][..k']), Drain(cut).rest);
    }
  }

  lemma FirstOfMany(fs: seq<Frame>, k: nat)
    requires fs != [] && k < |fs|
    ensures fs[..k + 1] == [fs[0]] + fs[1..][..k]
    ensures EncodeAll(fs[..k + 1]) == Encode(fs[0]) + EncodeAll(fs[1..][..k])
  {
    hide Encode;
    assert fs[..k + 1][1..] == fs[1..][..k];
  }

  lemma Regroup<T>(a: seq<T>, b: seq<T>, c: seq<T>)
    ensures a + b + c == a + (b + c)
  {
  }

  lemma SaneNothing()
    ensures Sane([]) && TryDecode([]) == None
  {
  }

  // ----- the blocking sender ----------------------------------------------------------------------

  /** `static_cast<int>` of a size. */
  function AsInt(n: nat): int {
    var m := n % TWO32;
    if m <= INT_MAX then m else m - TWO32
  }

  /** `send_all`: `answers` are what the socket takes in the successive `send` calls, if it is offered as
      much; offered nothing or a negative number of bytes, it takes none. A socket that always takes
      something takes everything, unless the size is beyond an int. */
  method SendAll(data: bytes, answers: seq<int>) returns (ok: bool, wire: bytes)
    ensures wire <= data
    ensures ok <==> wire == data
    ensures data != [] && AsInt(|data|) <= 0 ==> !ok && wire == []
    ensures |answers| >= |data| && (forall i :: 0 <= i < |answers| ==> answers[i] > 0) ==>
              (ok <==> |data| <= INT_MAX)
  {
    var sent, calls := 0, 0;
    wire := [];
    while sent < |data|
      invariant 0 <= sent <= |data| && wire == data[..sent] && calls <= sent
      invariant sent > 0 ==> AsInt(|data|) > 0
      invariant |data| > INT_MAX ==> |data| - sent > INT_MAX
      decreases |data| - sent
    {
      var offered := AsInt(|data| - sent);
      var n := if calls < |answers| then Min(answers[calls], offered) else -1;
      if n <= 0 {
        return false, wire;
      }
      wire := wire + data[sent..sent + n];
      sent, calls := sent + n, calls + 1;
    }
    ok := true;
  }
}
