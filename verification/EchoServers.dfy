/** What an echo server answers, and how the select loop does it on one connection. */
module EchoServers {
  import opened Wrappers
  import opened Framing

  /** The payload of the frame that completes a reply. */
  const END: bytes := [69, 78, 68]

  function Reply(request: Frame): seq<Frame> {
    [request, Frame(request.id, END)]
  }

  function Replies(requests: seq<Frame>): (fs: seq<Frame>)
    ensures |fs| == 2 * |requests|
  {
    if requests == [] then [] else Reply(requests[0]) + Replies(requests[1..])
  }

  lemma {:induction false} RepliesAppend(a: seq<Frame>, b: seq<Frame>)
    ensures Replies(a + b) == Replies(a) + Replies(b)
    decreases |a|
  {
    hide Reply;
    if a == [] {
      assert a + b == b;
    } else {
      RepliesAppend(a[1..], b);
      assert (a + b)[1..] == a[1..] + b && (a + b)[0] == a[0];
      RepliesFirst(a);
      RepliesFirst(a + b);
      hide Replies;
      Regrouped(Reply(a[0]), Replies(a[1..]), Replies(b));
    }
  }

  lemma RepliesFirst(a: seq<Frame>)
    requires a != []
    ensures Replies(a) == Reply(a[0]) + Replies(a[1..])
  {
  }

  lemma Regrouped<T>(a: seq<T>, b: seq<T>, c: seq<T>)
    ensures a + (b + c) == a + b + c
  {
  }

  lemma {:induction false} RepliesAt(requests: seq<Frame>, i: nat)
    requires i < |requests|
    ensures Replies(requests)[2 * i] == requests[i]
    ensures Replies(requests)[2 * i + 1] == Frame(requests[i].id, END)
    ensures END == ['E' as int, 'N' as int, 'D' as int]
    decreases i
  {
    if i > 0 {
      RepliesAt(requests[1..], i - 1);
      assert Replies(requests)[2..] == Replies(requests[1..]);
    }
  }

  /** The bytes that answer a sequence of requests. */
  function ReplyBytes(requests: seq<Frame>): bytes {
    EncodeAll(Replies(requests))
  }

  lemma ReplyBytesAppend(a: seq<Frame>, b: seq<Frame>)
    ensures ReplyBytes(a + b) == ReplyBytes(a) + ReplyBytes(b)
  {
    RepliesAppend(a, b);
    EncodeAllAppend(Replies(a), Replies(b));
  }

  lemma ReplyBytesOne(f: Frame)
    ensures ReplyBytes([f]) == Encode(f) + Encode(Frame(f.id, END))
  {
    hide Encode;
    var e := Frame(f.id, END);
    assert Replies([f]) == [f, e];
    assert [f, e][1..] == [e] && [e][1..] == [];
    assert EncodeAll([e]) == Encode(e) + [] && EncodeAll([f, e]) == Encode(f) + EncodeAll([e]);
  }

  // ----- the select server ------------------------------------------------------------------------

  class ClientConnection {
    var readBuffer: bytes
    var wire: bytes          // everything handed to the socket so far

    constructor ()
      ensures readBuffer == [] && wire == []
    {
      readBuffer, wire := [], [];
    }

    /** One readable event: what was received is appended, every complete frame is answered. `taken` is how
        many bytes the socket takes in each `send_all`; that one fails is ignored. The decoding loop has to
        end. */
    method OnReadable(chunk: bytes, taken: nat -> nat)
      requires Ends(readBuffer + chunk)
      modifies this
      ensures readBuffer == Drain(old(readBuffer) + chunk).rest
      ensures wire == old(wire) + Taken(Replies(Drain(old(readBuffer) + chunk).frames), taken)
    {
      hide *;
      readBuffer := readBuffer + chunk;
      ghost var all := readBuffer;
      ghost var done: seq<Frame> := [];
      var sends := 0;
      AnsweringStarts(all);
      NothingTaken(taken, wire);
      while true
        invariant Answering(all, done, readBuffer) && sends == |Replies(done)|
        invariant wire == old(wire) + Taken(Replies(done), taken)
        decreases |readBuffer|
      {
        var ok, id, request, rest := TryDecodeFrame(readBuffer);
        AnswerStep(all, done, readBuffer);
        if !ok { break; }
        readBuffer := rest;
        var echo := EncodeFrame(id, request);
        wire := wire + Partly(echo, taken(sends));
        var end := EncodeFrame(id, END);
        wire := wire + Partly(end, taken(sends + 1));
        sends := sends + 2;
        TakenTwice(done, Frame(id, request), taken, old(wire));
        done := done + [Frame(id, request)];
      }
    }
  }

  function Partly(frame: bytes, n: nat): bytes {
    if n < |frame| then frame[..n] else frame
  }

  /** The bytes that get through when the socket takes `taken(i)` bytes of the `i`-th frame. */
  function Taken(frames: seq<Frame>, taken: nat -> nat): bytes {
    if frames == [] then []
    else
      var n := |frames| - 1;
      Taken(frames[..n], taken) + Partly(Encode(frames[n]), taken(n))
  }

  lemma NothingTaken(taken: nat -> nat, wire: bytes)
    ensures Replies([]) == [] && wire == wire + Taken(Replies([]), taken)
  {
  }

  lemma TakenTwice(done: seq<Frame>, f: Frame, taken: nat -> nat, wire: bytes)
    ensures
      var n, echo, end := |Replies(done)|, Encode(f), Encode(Frame(f.id, END));
      && |Replies(done + [f])| == n + 2
      && wire + Taken(Replies(done + [f]), taken) ==
         wire + Taken(Replies(done), taken) + Partly(echo, taken(n)) + Partly(end, taken(n + 1))
  {
    hide *;
    var e := Frame(f.id, END);
    RepliesSnoc(done, f);
    TakenOneMore(Replies(done), f, taken);
    TakenOneMore(Replies(done) + [f], e, taken);
    AppendThrice(wire, Taken(Replies(done), taken), Partly(Encode(f), taken(|Replies(done)|)),
                 Partly(Encode(e), taken(|Replies(done)| + 1)));
  }

  lemma RepliesSnoc(done: seq<Frame>, f: Frame)
    ensures Replies(done + [f]) == Replies(done) + [f] + [Frame(f.id, END)]
  {
    RepliesAppend(done, [f]);
    assert [f][1..] == [];
    assert Replies([f]) == [f, Frame(f.id, END)];
    hide Replies;
  }

  lemma TakenOneMore(frames: seq<Frame>, f: Frame, taken: nat -> nat)
    ensures Taken(frames + [f], taken) == Taken(frames, taken) + Partly(Encode(f), taken(|frames|))
  {
    hide Encode, Partly;
    assert (frames + [f])[..|frames|] == frames;
  }

  lemma AppendThrice<T>(a: seq<T>, b: seq<T>, c: seq<T>, d: seq<T>)
    ensures a + (b + c + d) == a + b + c + d
  {
  }

  /** A socket that takes every frame whole gets exactly the reply bytes. */
  lemma {:induction false} WholeFramesTaken(frames: seq<Frame>, taken: nat -> nat)
    requires forall i :: 0 <= i < |frames| ==> taken(i) >= |Encode(frames[i])|
    ensures Taken(frames, taken) == EncodeAll(frames)
  {
    if frames != [] {
      hide Encode;
      var n := |frames| - 1;
      WholeFramesTaken(frames[..n], taken);
      EncodeAllAppend(frames[..n], [frames[n]]);
      assert frames[..n] + [frames[n]] == frames && [frames[n]][1..] == [];
      assert EncodeAll([frames[n]]) == Encode(frames[n]) + [] == Encode(frames[n]);
    }
  }

  /** Half-way through a buffer: `done` was answered, `rest` is still to be looked at. */
  ghost predicate Answering(all: bytes, done: seq<Frame>, rest: bytes) {
    && Ends(all) && Ends(rest)
    && Drain(all).frames == done + Drain(rest).frames
    && Drain(all).rest == Drain(rest).rest
  }

  lemma AnsweringStarts(all: bytes)
    requires Ends(all)
    ensures Answering(all, [], all) && ReplyBytes([]) == []
  {
    hide Drain, Ends;
    assert [] + Drain(all).frames == Drain(all).frames;
  }

  lemma AnswerStep(all: bytes, done: seq<Frame>, rest: bytes)
    requires Answering(all, done, rest)
    ensures TryDecode(rest) == None ==> Drain(all) == Drained(done, rest)
    ensures TryDecode(rest).Some? ==>
      var d := TryDecode(rest).value;
      && Answering(all, done + [d.frame], d.rest) && |d.rest| < |rest|
      && ReplyBytes(done + [d.frame]) ==
         ReplyBytes(done) + (Encode(d.frame) + Encode(Frame(d.frame.id, END)))
  {
    hide Drain, Ends, TryDecode, ReplyBytes, Encode;
    EndsStep(rest);
    if TryDecode(rest).Some? {
      var d := TryDecode(rest).value;
      ReplyBytesAppend(done, [d.frame]);
      ReplyBytesOne(d.frame);
      assert done + ([d.frame] + Drain(d.rest).frames) == done + [d.frame] + Drain(d.rest).frames;
    } else {
      assert done + [] == done;
    }
  }
}
