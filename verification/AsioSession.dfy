/** The Asio session: handlers run one at a time on the session's strand, so each is one step. */
module AsioSession {
  import opened Framing
  import opened EchoServers

  /** `queue` is `write_queue_`; `inFlight` holds what each outstanding async_write has not yet given
      to the socket. The last three fields are history: the bytes given to the socket, all arguments
      of `queue_write` in order, and everything received. */
  datatype Session = Session(
    readBuffer: bytes,
    queue: seq<bytes>,
    inFlight: seq<bytes>,
    reading: bool,
    broken: bool,
    wire: bytes,
    submitted: bytes,
    received: bytes)

  const FRESH := Session([], [], [], true, false, [], [], [])

  function DoWrite(s: Session): Session
    requires s.queue != []
  {
    s.(inFlight := s.inFlight + [s.queue[0]])
  }

  function QueueWrite(s: Session, data: bytes): Session {
    var s' := s.(queue := s.queue + [data], submitted := s.submitted + data);
    if s.queue == [] then DoWrite(s') else s'
  }

  function QueueReplies(s: Session, requests: seq<Frame>): Session
    decreases |requests|
  {
    if requests == [] then s
    else
      var f := requests[0];
      QueueReplies(QueueWrite(s, Encode(f) + Encode(Frame(f.id, END))), requests[1..])
  }

  /** The read handler: append, take out every complete frame, queue its reply, read again. */
  function OnRead(s: Session, chunk: bytes): Session {
    var d := Drain(s.readBuffer + chunk);
    QueueReplies(s, d.frames).(readBuffer := d.rest, received := s.received + chunk)
  }

  function RemoveAt<T>(s: seq<T>, i: nat): seq<T>
    requires i < |s|
  {
    s[..i] + s[i + 1..]
  }

  /** The system moves `n` bytes of outstanding write `i` to the socket. */
  function Transfer(s: Session, i: nat, n: nat): Session
    requires i < |s.inFlight| && n <= |s.inFlight[i]|
  {
    s.(inFlight := s.inFlight[i := s.inFlight[i][n..]], wire := s.wire + s.inFlight[i][..n])
  }

  /** The write handler after a complete write. */
  function OnWritten(s: Session, i: nat): Session
    requires i < |s.inFlight| && s.queue != []
  {
    var s' := s.(inFlight := RemoveAt(s.inFlight, i), queue := s.queue[1..]);
    if s'.queue != [] then DoWrite(s') else s'
  }

  /** The write handler after an error: the socket is closed, nothing is popped. */
  function OnWriteError(s: Session, i: nat): Session
    requires i < |s.inFlight|
  {
    s.(inFlight := RemoveAt(s.inFlight, i), broken := true)
  }

  datatype Event =
    | Read(chunk: bytes)
    | ReadFailed
    | Sent(which: nat, count: nat)
    | Written(which: nat)
    | WriteFailed(which: nat)

  /** What may happen next. A write completes only when all its bytes are given to the socket. */
  ghost predicate Enabled(s: Session, e: Event) {
    match e
    case Read(chunk) => s.reading && Ends(s.readBuffer + chunk)
    case ReadFailed => s.reading
    case Sent(i, n) => i < |s.inFlight| && n <= |s.inFlight[i]|
    case Written(i) => i < |s.inFlight| && s.inFlight[i] == [] && s.queue != []
    case WriteFailed(i) => i < |s.inFlight|
  }

  ghost function Step(s: Session, e: Event): Session
    requires Enabled(s, e)
  {
    match e
    case Read(chunk) => OnRead(s, chunk)
    case ReadFailed => s.(reading := false)
    case Sent(i, n) => Transfer(s, i, n)
    case Written(i) => OnWritten(s, i)
    case WriteFailed(i) => OnWriteError(s, i)
  }

  function Pending(s: Session): bytes {
    if s.inFlight == [] || s.queue == [] then [] else s.inFlight[0] + Joined(s.queue[1..])
  }

  function Joined(parts: seq<bytes>): bytes {
    if parts == [] then [] else parts[0] + Joined(parts[1..])
  }

  lemma {:induction false} JoinedAppend(parts: seq<bytes>, last: bytes)
    ensures Joined(parts + [last]) == Joined(parts) + last
    decreases |parts|
  {
    if parts == [] {
      assert parts + [last] == [last] && [last][1..] == [];
    } else {
      JoinedAppend(parts[1..], last);
      assert (parts + [last])[1..] == parts[1..] + [last];
    }
  }

  /** At most one write is outstanding; without an error one is outstanding exactly when something is
      queued, and then socket bytes and pending bytes are all that was ever queued, in order. */
  ghost predicate WritesOrdered(s: Session) {
    && |s.inFlight| <= 1
    && s.wire <= s.submitted
    && (s.broken ==> s.inFlight == [] && s.queue != [])
    && (!s.broken ==> (s.inFlight != [] <==> s.queue != []) && s.wire + Pending(s) == s.submitted)
  }

  /** What was queued is the reply stream of what was received, however it was cut. */
  ghost predicate Answers(s: Session) {
    && Sane(s.received)
    && s.readBuffer == Drain(s.received).rest
    && s.submitted == ReplyBytes(Drain(s.received).frames)
  }

  lemma QueueWriteOrdered(s: Session, data: bytes)
    requires WritesOrdered(s)
    ensures WritesOrdered(QueueWrite(s, data))
  {
    if s.queue == [] {
      assert (s.queue + [data])[1..] == [] && Joined([]) == [];
      assert s.wire + [] == s.wire && data + [] == data;
      hide Joined;
    } else {
      assert (s.queue + [data])[1..] == s.queue[1..] + [data];
      JoinedAppend(s.queue[1..], data);
      hide Joined;
      if !s.broken {
        Longer(s.wire, s.inFlight[0], Joined(s.queue[1..]), data);
      }
    }
  }

  lemma Longer<T>(wire: seq<T>, first: seq<T>, rest: seq<T>, last: seq<T>)
    ensures wire + (first + (rest + last)) == wire + (first + rest) + last
  {
  }

  lemma {:induction false} QueueRepliesOrdered(s: Session, requests: seq<Frame>)
    requires WritesOrdered(s)
    ensures WritesOrdered(QueueReplies(s, requests))
    ensures QueueReplies(s, requests).submitted == s.submitted + ReplyBytes(requests)
    ensures QueueReplies(s, requests).reading == s.reading && QueueReplies(s, requests).broken == s.broken
    ensures QueueReplies(s, requests).wire == s.wire
    decreases |requests|
  {
    hide Encode, WritesOrdered;
    if requests == [] {
      AnsweringNothing(s);
    } else {
      var f := requests[0];
      var data := Encode(f) + Encode(Frame(f.id, END));
      QueueWriteOrdered(s, data);
      QueueRepliesOrdered(QueueWrite(s, data), requests[1..]);
      ReplyBytesOne(f);
      ReplyBytesAppend([f], requests[1..]);
      assert requests == [f] + requests[1..];
    }
  }

  lemma AnsweringNothing(s: Session)
    ensures s.submitted == s.submitted + ReplyBytes([])
  {
  }

  lemma StepKeepsOrder(s: Session, e: Event)
    requires WritesOrdered(s) && Enabled(s, e)
    ensures WritesOrdered(Step(s, e))
  {
    match e
    case Read(chunk) =>
      QueueRepliesOrdered(s, Drain(s.readBuffer + chunk).frames);
      ReadKeepsOrder(s, chunk);
    case ReadFailed =>
    case Sent(i, n) => TransferKeepsOrder(s, n);
    case Written(i) => WrittenKeepsOrder(s);
    case WriteFailed(i) =>
      assert RemoveAt(s.inFlight, 0) == [];
  }

  lemma ReadKeepsOrder(s: Session, chunk: bytes)
    requires WritesOrdered(QueueReplies(s, Drain(s.readBuffer + chunk).frames))
    ensures WritesOrdered(OnRead(s, chunk))
  {
    hide Drain, QueueReplies;
  }

  lemma TransferKeepsOrder(s: Session, n: nat)
    requires WritesOrdered(s) && |s.inFlight| == 1 && n <= |s.inFlight[0]|
    ensures WritesOrdered(Transfer(s, 0, n))
  {
    var r, tail := s.inFlight[0], Joined(s.queue[1..]);
    assert r[..n] + (r[n..] + tail) == r + tail;
    assert s.wire + (r + tail) == s.submitted;
    assert s.wire + r[..n] + (r[n..] + tail) == s.submitted;
  }

  lemma WrittenKeepsOrder(s: Session)
    requires WritesOrdered(s) && |s.inFlight| == 1 && s.inFlight[0] == [] && s.queue != []
    ensures WritesOrdered(OnWritten(s, 0))
  {
    assert RemoveAt(s.inFlight, 0) == [];
    assert [] + Joined(s.queue[1..]) == Joined(s.queue[1..]);
    if s.queue[1..] == [] {
      assert s.wire + [] == s.wire;
    } else {
      assert Joined(s.queue[1..]) == s.queue[1..][0] + Joined(s.queue[1..][1..]);
    }
  }

  ghost predicate Ok(s: Session) {
    WritesOrdered(s) && Answers(s)
  }

  /** Reading any further chunk of a sane stream keeps the replies those of the whole stream. */
  lemma ReadAnswers(s: Session, chunk: bytes)
    requires Ok(s) && Sane(s.received + chunk)
    ensures Sane(s.readBuffer + chunk)
    ensures Answers(OnRead(s, chunk))
  {
    hide Drain, Sane, WritesOrdered, ReplyBytes, QueueReplies;
    DrainAppend(s.received, chunk);
    var d := Drain(s.readBuffer + chunk);
    QueueRepliesOrdered(s, d.frames);
    ReplyBytesAppend(Drain(s.received).frames, d.frames);
  }

  /** A whole run: a valid sequence of handler and transfer steps on a stream without oversized
      headers. */
  ghost predicate Run(s: Session, events: seq<Event>)
    decreases |events|
  {
    events != [] ==>
      && Enabled(s, events[0])
      && (events[0].Read? ==> Sane(s.received + events[0].chunk))
      && Run(Step(s, events[0]), events[1..])
  }

  ghost function Final(s: Session, events: seq<Event>): Session
    requires Run(s, events)
    decreases |events|
  {
    if events == [] then s else Final(Step(s, events[0]), events[1..])
  }

  lemma {:induction false} RunKeepsOk(s: Session, events: seq<Event>)
    requires Ok(s) && Run(s, events)
    ensures Ok(Final(s, events))
    decreases |events|
  {
    if events != [] {
      hide WritesOrdered, Answers, OnRead;
      StepKeepsOk(s, events[0]);
      RunKeepsOk(Step(s, events[0]), events[1..]);
    }
  }

  lemma StepKeepsOk(s: Session, e: Event)
    requires Ok(s) && Enabled(s, e) && (e.Read? ==> Sane(s.received + e.chunk))
    ensures Ok(Step(s, e))
  {
    hide Drain, Sane, WritesOrdered, ReplyBytes, QueueReplies, OnRead;
    StepKeepsOrder(s, e);
    if e.Read? {
      ReadAnswers(s, e.chunk);
    }
  }

  /** Every reachable state of a session, from its start. */
  lemma SessionIsOrdered(events: seq<Event>)
    requires Run(FRESH, events)
    ensures Ok(Final(FRESH, events))
  {
    hide Final, Run;
    FreshOk();
    RunKeepsOk(FRESH, events);
  }

  // ----- any stream ---------------------------------------------------------------------------------------

  /** The read handler in smaller steps, which do not ask what the stream holds: bytes arrive, or the next
      frame, whatever its header says, is taken out and answered. */
  datatype Action = Arrived(chunk: bytes) | Decoded | Handled(event: Event)

  ghost predicate Allowed(s: Session, a: Action) {
    match a
    case Arrived(_) => s.reading
    case Decoded => TryDecode(s.readBuffer).Some?
    case Handled(e) => !e.Read? && Enabled(s, e)
  }

  ghost function Act(s: Session, a: Action): Session
    requires Allowed(s, a)
  {
    match a
    case Arrived(chunk) => s.(readBuffer := s.readBuffer + chunk, received := s.received + chunk)
    case Decoded =>
      var d := TryDecode(s.readBuffer).value;
      QueueWrite(s.(readBuffer := d.rest), Encode(d.frame) + Encode(Frame(d.frame.id, END)))
    case Handled(e) => Step(s, e)
  }

  ghost predicate ActionRun(s: Session, actions: seq<Action>)
    decreases |actions|
  {
    actions != [] ==> Allowed(s, actions[0]) && ActionRun(Act(s, actions[0]), actions[1..])
  }

  ghost function After(s: Session, actions: seq<Action>): Session
    requires ActionRun(s, actions)
    decreases |actions|
  {
    if actions == [] then s else After(Act(s, actions[0]), actions[1..])
  }

  lemma ActionKeepsOrder(s: Session, a: Action)
    requires WritesOrdered(s) && Allowed(s, a)
    ensures WritesOrdered(Act(s, a))
  {
    hide Encode, TryDecode, Step, QueueWrite;
    match a
    case Arrived(_) =>
    case Decoded =>
      var d := TryDecode(s.readBuffer).value;
      QueueWriteOrdered(s.(readBuffer := d.rest), Encode(d.frame) + Encode(Frame(d.frame.id, END)));
    case Handled(e) =>
      hide WritesOrdered;
      StepKeepsOrder(s, e);
  }

  lemma {:induction false} ActionsKeepOrder(s: Session, actions: seq<Action>)
    requires WritesOrdered(s) && ActionRun(s, actions)
    ensures WritesOrdered(After(s, actions))
    decreases |actions|
  {
    hide WritesOrdered, Allowed, Act;
    if actions != [] {
      ActionKeepsOrder(s, actions[0]);
      ActionsKeepOrder(Act(s, actions[0]), actions[1..]);
    }
  }

  /** Whatever is received, at most one write is in flight and the bytes go out in the order in which they
      were queued. */
  lemma AnyStreamIsOrdered(actions: seq<Action>)
    requires ActionRun(FRESH, actions)
    ensures WritesOrdered(After(FRESH, actions))
  {
    FreshOk();
    hide ActionRun, After;
    ActionsKeepOrder(FRESH, actions);
  }

  lemma FreshOk()
    ensures Ok(FRESH)
  {
    SaneNothing();
    DrainStep([]);
  }

  /** Both servers answer the same input stream with the same bytes, however either of them received
      it. */
  lemma SameRepliesAsSelect(events: seq<Event>, chunks: seq<bytes>)
    requires Run(FRESH, events) && Final(FRESH, events).received == Concat(chunks)
    ensures Sane(Concat(chunks))
    ensures Final(FRESH, events).submitted == ReplyBytes(Feed(chunks).frames)
    ensures Final(FRESH, events).readBuffer == Feed(chunks).rest
  {
    SessionIsOrdered(events);
  }

  lemma QueueNothing(s: Session)
    ensures QueueReplies(s, []).(readBuffer := s.readBuffer) == s
  {
  }

  lemma {:induction false} QueueRepliesFrame(s: Session, buffer: bytes, received: bytes, requests: seq<Frame>)
    ensures QueueReplies(s.(readBuffer := buffer, received := received), requests) ==
            QueueReplies(s, requests).(readBuffer := buffer, received := received)
    decreases |requests|
  {
    hide Encode;
    if requests != [] {
      var f := requests[0];
      QueueRepliesFrame(QueueWrite(s, Encode(f) + Encode(Frame(f.id, END))), buffer, received, requests[1..]);
    }
  }

  /** Replies are queued one request after the other; the read buffer plays no part in it. */
  lemma {:induction false} QueueRepliesSnoc(s: Session, done: seq<Frame>, f: Frame, before: bytes, rest: bytes)
    ensures
      QueueReplies(s, done + [f]).(readBuffer := rest) ==
      QueueWrite(QueueReplies(s, done).(readBuffer := before).(readBuffer := rest),
                 Encode(f) + Encode(Frame(f.id, END)))
    decreases |done|
  {
    hide Encode;
    if done == [] {
      assert done + [f] == [f] && [f][1..] == [];
    } else {
      var g := done[0];
      QueueRepliesSnoc(QueueWrite(s, Encode(g) + Encode(Frame(g.id, END))), done[1..], f, before, rest);
      assert (done + [f])[1..] == done[1..] + [f];
    }
  }

  // ----- the handlers in place ----------------------------------------------------------------------

  class SessionObject {
    var readBuffer: bytes
    var writeQueue: seq<bytes>
    var inFlight: seq<bytes>
    var reading: bool
    var broken: bool
    ghost var wire: bytes
    ghost var submitted: bytes
    ghost var received: bytes

    ghost function View(): Session
      reads this
    {
      Session(readBuffer, writeQueue, inFlight, reading, broken, wire, submitted, received)
    }

    constructor ()
      ensures View() == FRESH
    {
      readBuffer, writeQueue, inFlight, reading, broken := [], [], [], true, false;
      wire, submitted, received := [], [], [];
    }

    method StartWrite()
      requires writeQueue != []
      modifies this`inFlight
      ensures View() == DoWrite(old(View()))
    {
      inFlight := inFlight + [writeQueue[0]];
    }

    method QueueWriteData(data: bytes)
      modifies this`inFlight, this`writeQueue, this`submitted
      ensures View() == QueueWrite(old(View()), data)
    {
      var idle := writeQueue == [];
      writeQueue := writeQueue + [data];
      submitted := submitted + data;
      if idle {
        StartWrite();
      }
    }

    /** The completion handler of a read. */
    method HandleRead(failed: bool, chunk: bytes)
      requires Enabled(View(), if failed then ReadFailed else Read(chunk))
      modifies this
      ensures View() == Step(old(View()), if failed then ReadFailed else Read(chunk))
    {
      if failed {
        reading := false;
        return;
      }
      hide Drain, QueueReplies, Ends;
      QueueRepliesFrame(View(), readBuffer + chunk, received + chunk, Drain(readBuffer + chunk).frames);
      readBuffer := readBuffer + chunk;
      received := received + chunk;
      AnswerFrames();
    }

    /** The decode loop of the read handler. */
    method AnswerFrames()
      requires Ends(readBuffer)
      modifies this`readBuffer, this`inFlight, this`writeQueue, this`submitted
      ensures View() == QueueReplies(old(View()), Drain(old(readBuffer)).frames)
                        .(readBuffer := Drain(old(readBuffer)).rest)
    {
      hide Drain, Ends, QueueReplies, Answering, Encode, QueueWrite, TryDecode;
      ghost var start, all, done := View(), readBuffer, [];
      AnsweringStarts(all);
      QueueNothing(start);
      while true
        invariant Answering(all, done, readBuffer)
        invariant View() == QueueReplies(start, done).(readBuffer := readBuffer)
        decreases |readBuffer|
      {
        var ok, id, request, rest := TryDecodeFrame(readBuffer);
        AnswerStep(all, done, readBuffer);
        if !ok { break; }
        QueueRepliesSnoc(start, done, Frame(id, request), readBuffer, rest);
        readBuffer := rest;
        var echo := EncodeFrame(id, request);
        var end := EncodeFrame(id, END);
        QueueWriteData(echo + end);
        done := done + [Frame(id, request)];
      }
    }

    /** The completion handler of write `which`. */
    method HandleWritten(which: nat, failed: bool)
      requires Enabled(View(), if failed then WriteFailed(which) else Written(which))
      modifies this
      ensures View() == Step(old(View()), if failed then WriteFailed(which) else Written(which))
    {
      inFlight := RemoveAt(inFlight, which);
      if failed {
        broken := true;
        return;
      }
      writeQueue := writeQueue[1..];
      if writeQueue != [] {
        StartWrite();
      }
    }
  }
}
