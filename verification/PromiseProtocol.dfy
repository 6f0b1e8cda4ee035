/** The promise demo end to end: user threads, the client's I/O thread and one Asio session, as steps
    over two FIFO byte channels with arbitrary chunking and interleaving. */
module PromiseProtocol {
  import opened Words
  import opened Wrappers
  import opened Framing
  import opened EchoServers
  import Srv = AsioSession
  import opened PromiseClient

  /** Where the I/O thread is in its loop. */
  datatype Io =
    | Top
    | CheckIn
    | Holding(frame: Frame)
    | Removing(id: u32)
    | CheckOut
    | Popping
    | Sending(rest: bytes)
    | Exited
    | Crashed

  /** `log` and `taken` are history: the requests in the order of their ids, and the frames the client
      has decoded. */
  datatype System = System(
    client: Client,
    io: Io,
    stop: bool,
    toServer: bytes,
    server: Srv.Session,
    toClient: bytes,
    log: seq<Frame>,
    taken: seq<Frame>)

  const START := System(NEW_CLIENT, Top, false, [], Srv.FRESH, [], [], [])

  datatype Label =
    | UserSend(payload: bytes)
    | Stop
    | LoopTest
    | FrameBuffered
    | NotReadable
    | Receive(count: nat)
    | ConnectionLost
    | HandleFrame
    | RemoveRequest
    | OutgoingTest
    | PopOutgoing
    | SendSome(count: nat)
    | SendFailed
    | ServerRead(count: nat)
    | Server(event: Srv.Event)

  const CHUNK := 4096

  ghost predicate Can(s: System, l: Label) {
    match l
    case UserSend(payload) =>
      !s.client.closed && payload != END && |payload| <= MAX_PAYLOAD && |s.log| + 1 < TWO32
    case Stop => true
    case LoopTest => s.io == Top
    case FrameBuffered => s.io == CheckIn && FrameReady(s.client.readBuffer)
    case NotReadable => s.io == CheckIn && !FrameReady(s.client.readBuffer)
    case Receive(n) =>
      s.io == CheckIn && !FrameReady(s.client.readBuffer) && !s.client.closed && 0 < n <= CHUNK && n <= |s.toClient|
    case ConnectionLost => s.io == CheckIn && !FrameReady(s.client.readBuffer) && !s.client.closed
    case HandleFrame => s.io.Holding?
    case RemoveRequest => s.io.Removing?
    case OutgoingTest => s.io == CheckOut
    case PopOutgoing => s.io == Popping
    case SendSome(n) => s.io.Sending? && 0 < n <= |s.io.rest|
    case SendFailed => s.io.Sending?
    case ServerRead(n) =>
      s.server.reading && 0 < n <= CHUNK && n <= |s.toServer|
    case Server(e) => !e.Read? && Srv.Enabled(s.server, e)
  }

  /** `incoming()`: the first frame leaves the buffer; without one the packet is empty. */
  function TakeFrame(s: System, c: Client): System {
    match TryDecode(c.readBuffer)
    case Some(d) => s.(client := c.(readBuffer := d.rest), io := Holding(d.frame), taken := s.taken + [d.frame])
    case None => s.(client := c, io := Holding(Frame(0, [])), taken := s.taken + [Frame(0, [])])
  }

  function AfterDelivery(d: Delivery, f: Frame): Io {
    match d
    case Collected => CheckOut
    case Completed => Removing(f.id)
    case Crash => Crashed
  }

  ghost function Do(s: System, l: Label): System
    requires Can(s, l)
  {
    match l
    case UserSend(payload) =>
      s.(client := SendRequest(s.client, payload), log := s.log + [Frame(s.client.nextId, payload)])
    case Stop => s.(stop := true)
    case LoopTest => s.(io := if s.stop || s.client.closed then Exited else CheckIn)
    case FrameBuffered => TakeFrame(s, s.client)
    case NotReadable => s.(io := CheckOut)
    case Receive(n) =>
      var c := s.client.(readBuffer := s.client.readBuffer + s.toClient[..n]);
      var s' := s.(toClient := s.toClient[n..]);
      if FrameReady(c.readBuffer) then TakeFrame(s', c) else s'.(client := c, io := CheckOut)
    case ConnectionLost => s.(client := Close(s.client), io := CheckOut)
    case HandleFrame =>
      var (c, d) := Deliver(s.client, s.io.frame);
      s.(client := c, io := AfterDelivery(d, s.io.frame))
    case RemoveRequest => s.(client := Remove(s.client, s.io.id), io := CheckOut)
    case OutgoingTest => s.(io := if s.client.closed || s.client.outgoing == [] then Top else Popping)
    case PopOutgoing =>
      if s.client.outgoing == [] then s.(io := Crashed)
      else s.(client := s.client.(outgoing := s.client.outgoing[1..]), io := Sending(Encode(s.client.outgoing[0])))
    case SendSome(n) =>
      s.(toServer := s.toServer + s.io.rest[..n], io := if n == |s.io.rest| then Top else Sending(s.io.rest[n..]))
    case SendFailed => s.(client := Close(s.client), io := Top)
    case ServerRead(n) =>
      s.(server := Srv.OnRead(s.server, s.toServer[..n]), toServer := s.toServer[n..])
    case Server(e) =>
      s.(server := Srv.Step(s.server, e),
         toClient := s.toClient + if e.Sent? then s.server.inFlight[e.which][..e.count] else [])
  }

  // ----- the invariant --------------------------------------------------------------------------------

  ghost predicate LogOk(log: seq<Frame>) {
    && |log| < TWO32
    && forall i :: 0 <= i < |log| ==> log[i].id == i + 1 && log[i].payload != END && Framing.Fits(log[i])
  }

  function InHand(io: Io): bytes {
    if io.Sending? then io.rest else []
  }

  /** How many requests have left the queue. */
  function Popped(s: System): int {
    |s.log| - |s.client.outgoing|
  }

  /** The queue is the tail of the log, and what is on its way to the server is the encoded rest of
      it; once the connection is closed, what is on its way may break off anywhere. */
  ghost predicate RequestsFlow(s: System) {
    && 0 <= Popped(s)
    && s.server.received + s.toServer <= EncodeAll(s.log)
    && (!s.client.closed ==>
          && s.client.outgoing == s.log[Popped(s)..]
          && s.server.received + s.toServer + InHand(s.io) == EncodeAll(s.log[..Popped(s)]))
  }

  /** Everything the session wrote is either decoded by the client, buffered there or under way. */
  ghost predicate RepliesFlow(s: System) {
    && EncodeAll(s.taken) + s.client.readBuffer + s.toClient == s.server.wire
    && s.taken <= Replies(s.log)
  }

  /** How many of the decoded frames have been handed to their request. */
  function Delivered(s: System): int {
    |s.taken| - if s.io.Holding? then 1 else 0
  }

  /** What the client must know about request `i`, given how many reply frames were delivered. */
  ghost predicate Bookkeeping(c: Client, log: seq<Frame>, delivered: int, resolving: set<u32>, i: nat)
    requires i < |log|
  {
    var id := log[i].id;
    && id in c.promises
    && (2 * i + 2 <= delivered ==>
          c.promises[id] == Fulfilled([log[i].payload, END]) && (id in c.pending <==> id in resolving))
    && (2 * i + 2 > delivered ==> id !in resolving)
    && (2 * i + 2 > delivered && !c.closed ==>
          c.promises[id] == Waiting && id in c.pending &&
          c.pending[id] == if 2 * i + 1 <= delivered then [log[i].payload] else [])
    && (2 * i + 2 > delivered && c.closed ==> c.promises[id] == Failed)
  }

  ghost predicate AllBooked(c: Client, log: seq<Frame>, delivered: int, resolving: set<u32>) {
    forall i :: 0 <= i < |log| ==> Bookkeeping(c, log, delivered, resolving, i)
  }

  function Resolving(io: Io): set<u32> {
    if io.Removing? then {io.id} else {}
  }

  ghost predicate ClientOk(s: System) {
    && s.client.nextId == (|s.log| + 1) % TWO32
    && 0 <= Delivered(s) <= 2 * |s.log|
    && Conserved(s.client, |s.log|, Resolving(s.io))
    && AllBooked(s.client, s.log, Delivered(s), Resolving(s.io))
    && (s.io.Holding? ==> s.taken != [] && s.io.frame == s.taken[|s.taken| - 1])
    && (s.io.Removing? ==> exists i :: 0 <= i < |s.log| && s.log[i].id == s.io.id && 2 * i + 2 == Delivered(s))
    && (s.client.closed ==> s.io in {Top, CheckOut, Exited})
    && (s.io == Popping ==> s.client.outgoing != [])
    && (s.io.Sending? ==> s.io.rest != [])
    && (s.io == Exited ==> s.stop || s.client.closed)
    && s.io != Crashed
  }

  ghost predicate Inv(s: System) {
    LogOk(s.log) && RequestsFlow(s) && RepliesFlow(s) && ClientOk(s) && Srv.Ok(s.server)
  }

  // ----- what the server has understood ---------------------------------------------------------------

  lemma EncodeFront(log: seq<Frame>, j: nat)
    requires j <= |log|
    ensures EncodeAll(log[..j]) <= EncodeAll(log)
  {
    EncodeAllAppend(log[..j], log[j..]);
    assert log[..j] + log[j..] == log;
  }

  /** Any received prefix of the encoded requests decodes to the first of them. */
  lemma ServerDecodes(log: seq<Frame>, received: bytes) returns (k: nat)
    requires LogOk(log) && received <= EncodeAll(log)
    ensures k <= |log| && Sane(received) && Drain(received).frames == log[..k]
  {
    k := DrainPrefix(log, |received|);
    assert EncodeAll(log)[..|received|] == received;
  }

  lemma RepliesFront(log: seq<Frame>, k: nat)
    requires k <= |log|
    ensures Replies(log[..k]) == Replies(log)[..2 * k]
  {
    hide *;
    RepliesAppend(log[..k], log[k..]);
    assert log[..k] + log[k..] == log;
    Front(Replies(log[..k]), Replies(log[k..]));
  }

  lemma Front<T>(a: seq<T>, b: seq<T>)
    ensures (a + b)[..|a|] == a
  {
  }

  lemma {:induction false} RepliesFit(log: seq<Frame>)
    requires forall i :: 0 <= i < |log| ==> Framing.Fits(log[i])
    ensures AllFit(Replies(log))
    decreases |log|
  {
    if log != [] {
      RepliesFit(log[1..]);
    }
  }

  lemma EncodeCons(f: Frame, fs: seq<Frame>)
    ensures EncodeAll([f] + fs) == Encode(f) + EncodeAll(fs)
    ensures EncodeAll([f]) == Encode(f)
  {
    hide Encode;
    assert ([f] + fs)[1..] == fs;
    assert [f][1..] == [];
    assert Encode(f) + [] == Encode(f);
  }

  lemma EncodeNext(fs: seq<Frame>, m: nat)
    requires m < |fs|
    ensures EncodeAll(fs) == EncodeAll(fs[..m]) + (Encode(fs[m]) + EncodeAll(fs[m + 1..]))
    ensures EncodeAll(fs[..m + 1]) == EncodeAll(fs[..m]) + Encode(fs[m])
  {
    hide *;
    CutAt(fs, m);
    EncodeAllAppend(fs[..m], [fs[m]] + fs[m + 1..]);
    EncodeCons(fs[m], fs[m + 1..]);
    EncodeAllAppend(fs[..m], [fs[m]]);
  }

  lemma CutAt<T>(s: seq<T>, m: nat)
    requires m < |s|
    ensures s == s[..m] + ([s[m]] + s[m + 1..]) && s[..m + 1] == s[..m] + [s[m]]
  {
  }

  lemma ReadyDecodes(buffer: bytes)
    ensures FrameReady(buffer) <==> TryDecode(buffer).Some?
    ensures FrameReady(buffer) ==> |buffer| >= 8
  {
    hide GetU32;
  }

  /** The next frame the client can decode is the next reply frame, whatever else is buffered. */
  lemma ClientDecodes(fs: seq<Frame>, m: nat, buffer: bytes, rest: bytes, wire: bytes)
    requires AllFit(fs) && m <= |fs| && wire <= EncodeAll(fs)
    requires EncodeAll(fs[..m]) + buffer + rest == wire && FrameReady(buffer)
    ensures m < |fs| && TryDecode(buffer).Some? && TryDecode(buffer).value.frame == fs[m]
    ensures EncodeAll(fs[..m + 1]) + TryDecode(buffer).value.rest + rest == wire
  {
    hide Encode, EncodeAll, TryDecode, FrameReady, Sane;
    ReadyDecodes(buffer);
    var done := EncodeAll(fs[..m]);
    MoreToCome(fs, m, buffer, rest, wire);
    EncodeNext(fs, m);
    var tail := EncodeAll(fs[m + 1..]);
    var beyond := EncodeAll(fs)[|wire|..];
    SplitStream(done, buffer, rest, beyond, Encode(fs[m]), tail, wire);
    FrameRoundTrip(fs[m], tail);
    TailSane(fs, m);
    DecodeAppend(buffer, rest + beyond);
    RejoinStream(done, TryDecode(buffer).value.rest, rest, beyond, Encode(fs[m]), tail, wire);
  }

  lemma MoreToCome(fs: seq<Frame>, m: nat, buffer: bytes, rest: bytes, wire: bytes)
    requires m <= |fs| && wire <= EncodeAll(fs) && EncodeAll(fs[..m]) + buffer + rest == wire && |buffer| > 0
    ensures m < |fs|
  {
    hide EncodeAll;
    assert fs[..|fs|] == fs;
    assert |wire| == |EncodeAll(fs[..m])| + |buffer| + |rest|;
  }

  lemma SplitStream<T>(done: seq<T>, buffer: seq<T>, rest: seq<T>, beyond: seq<T>, item: seq<T>, tail: seq<T>,
                       wire: seq<T>)
    requires done + buffer + rest == wire && wire + beyond == done + (item + tail)
    ensures buffer + (rest + beyond) == item + tail
  {
    SameTail(done, buffer + (rest + beyond), item + tail) by {
      assert done + (buffer + (rest + beyond)) == wire + beyond;
    }
  }

  lemma RejoinStream<T>(done: seq<T>, left: seq<T>, rest: seq<T>, beyond: seq<T>, item: seq<T>, tail: seq<T>,
                        wire: seq<T>)
    requires left + (rest + beyond) == tail && wire + beyond == done + (item + tail)
    ensures done + item + left + rest == wire
  {
    SameFront(done + item + left + rest, wire, beyond) by {
      assert (done + item + left + rest) + beyond == done + (item + (left + (rest + beyond)));
    }
  }

  lemma SameTail<T>(a: seq<T>, b: seq<T>, c: seq<T>)
    requires a + b == a + c
    ensures b == c
  {
    assert (a + b)[|a|..] == b && (a + c)[|a|..] == c;
  }

  lemma SameFront<T>(a: seq<T>, b: seq<T>, c: seq<T>)
    requires a + c == b + c
    ensures a == b
  {
    assert |a| == |b|;
    assert (a + c)[..|a|] == a && (b + c)[..|a|] == b;
  }

  lemma TailSane(fs: seq<Frame>, m: nat)
    requires AllFit(fs) && m < |fs|
    ensures Sane(Encode(fs[m]) + EncodeAll(fs[m + 1..]))
  {
    hide Encode;
    SaneNothing();
    DrainEncoded(fs[m..], []);
    assert fs[m..][1..] == fs[m + 1..];
    assert EncodeAll(fs[m..]) + [] == Encode(fs[m]) + EncodeAll(fs[m + 1..]);
  }

  // ----- every step keeps the invariant -----------------------------------------------------------------

  lemma StartOk()
    ensures Inv(START)
  {
    Srv.FreshOk();
    hide Srv.Ok, Encode, TryDecode, Srv.Step;
  }

  /** Steps that only move the I/O thread between the tests of its loop. */
  lemma MoveKeeps(s: System, io: Io)
    requires Inv(s) && s.io in {Top, CheckIn, CheckOut} && io in {Top, CheckIn, CheckOut, Popping, Exited}
    requires s.client.closed ==> io in {Top, CheckOut, Exited}
    requires io == Popping ==> s.client.outgoing != []
    requires io == Exited ==> s.stop || s.client.closed
    ensures Inv(s.(io := io))
  {
    hide Conserved, Bookkeeping, Srv.Ok, EncodeAll, Replies, LogOk;
    var s' := s.(io := io);
    assert Delivered(s') == Delivered(s) && Resolving(s'.io) == Resolving(s.io) && InHand(s'.io) == InHand(s.io);
    assert Popped(s') == Popped(s);
    assert RequestsFlow(s') && RepliesFlow(s');
  }

  lemma SendKeepsFlow(s: System, f: Frame)
    requires RequestsFlow(s) && RepliesFlow(s) && !s.client.closed
    requires f.id == s.client.nextId
    ensures RequestsFlow(s.(client := SendRequest(s.client, f.payload), log := s.log + [f]))
    ensures RepliesFlow(s.(client := SendRequest(s.client, f.payload), log := s.log + [f]))
  {
    hide EncodeAll, Replies, Encode;
    var s' := s.(client := SendRequest(s.client, f.payload), log := s.log + [f]);
    EncodeAllAppend(s.log, [f]);
    RepliesAppend(s.log, [f]);
    var j := Popped(s);
    assert Popped(s') == j;
    assert s'.log[j..] == s.log[j..] + [f];
    assert s'.log[..j] == s.log[..j];
  }

  lemma SendKeepsClient(s: System, f: Frame)
    requires ClientOk(s) && LogOk(s.log) && !s.client.closed && |s.log| + 1 < TWO32
    requires f.id == s.client.nextId && f.payload != END && Framing.Fits(f)
    ensures ClientOk(s.(client := SendRequest(s.client, f.payload), log := s.log + [f]))
    ensures LogOk(s.log + [f])
  {
    hide Framing.Fits;
    var s' := s.(client := SendRequest(s.client, f.payload), log := s.log + [f]);
    var n := |s.log|;
    SendBookkeeping(s, f);
    SendConserves(s.client, n, Resolving(s.io), f.payload);
    hide Conserved, Bookkeeping, SendRequest;
    assert Delivered(s') == Delivered(s);
    if s.io.Removing? {
      var i :| 0 <= i < |s.log| && s.log[i].id == s.io.id && 2 * i + 2 == Delivered(s);
      assert s'.log[i].id == s'.io.id;
    }
  }

  lemma SendBookkeeping(s: System, f: Frame)
    requires ClientOk(s) && LogOk(s.log) && !s.client.closed && |s.log| + 1 < TWO32
    requires f.id == s.client.nextId
    ensures forall i :: 0 <= i < |s.log| + 1 ==>
              Bookkeeping(SendRequest(s.client, f.payload), s.log + [f], Delivered(s), Resolving(s.io), i)
  {
    hide Conserved, Framing.Fits;
    forall i | 0 <= i < |s.log| + 1
      ensures Bookkeeping(SendRequest(s.client, f.payload), s.log + [f], Delivered(s), Resolving(s.io), i)
    {
      if i < |s.log| {
        assert Bookkeeping(s.client, s.log, Delivered(s), Resolving(s.io), i);
        assert s.log[i].id == i + 1;
      }
    }
  }

  lemma UserSendKeeps(s: System, payload: bytes)
    requires Inv(s) && Can(s, UserSend(payload))
    ensures Inv(Do(s, UserSend(payload)))
  {
    hide ClientOk, LogOk, RequestsFlow, RepliesFlow, SendRequest, Srv.Ok;
    var f := Frame(s.client.nextId, payload);
    SendKeepsFlow(s, f);
    SendKeepsClient(s, f);
  }

  /** The read buffer is no part of the client's bookkeeping. */
  lemma BufferIrrelevant(c: Client, buffer: bytes, log: seq<Frame>, n: nat, delivered: int, resolving: set<u32>)
    ensures Conserved(c.(readBuffer := buffer), n, resolving) == Conserved(c, n, resolving)
    ensures forall i :: 0 <= i < |log| ==>
              Bookkeeping(c.(readBuffer := buffer), log, delivered, resolving, i) ==
              Bookkeeping(c, log, delivered, resolving, i)
  {
  }

  /** Bytes that move from the channel into the buffer. */
  ghost function Received(s: System, n: nat): System
    requires n <= |s.toClient|
  {
    s.(client := s.client.(readBuffer := s.client.readBuffer + s.toClient[..n]), toClient := s.toClient[n..])
  }

  lemma ReceivedKeeps(s: System, n: nat)
    requires Inv(s) && n <= |s.toClient|
    ensures Inv(Received(s, n))
  {
    hide Conserved, Bookkeeping, Srv.Ok, EncodeAll, Replies, LogOk;
    var s' := Received(s, n);
    var buffer := s'.client.readBuffer;
    BufferIrrelevant(s.client, buffer, s.log, |s.log|, Delivered(s), Resolving(s.io));
    assert Delivered(s') == Delivered(s);
    assert RequestsFlow(s') by { assert Popped(s') == Popped(s); }
    assert RepliesFlow(s') by { assert s.toClient[..n] + s.toClient[n..] == s.toClient; }
    assert ClientOk(s');
  }

  /** A complete frame in the buffer is the next reply frame of the log. */
  lemma TakeFits(s: System)
    requires Inv(s) && FrameReady(s.client.readBuffer)
    ensures |s.taken| < 2 * |s.log| && TryDecode(s.client.readBuffer).Some?
    ensures
      var d := TryDecode(s.client.readBuffer).value;
      && d.frame == Replies(s.log)[|s.taken|]
      && EncodeAll(s.taken + [d.frame]) + d.rest + s.toClient == s.server.wire
      && |s.taken| < 2 * |Drain(s.server.received).frames|
  {
    hide Conserved, Bookkeeping, EncodeAll, Encode, Replies, TryDecode, FrameReady, Drain, Sane, Srv.Pending;
    Prefixes(s.server.received, s.toServer, EncodeAll(s.log));
    var k := ServerDecodes(s.log, s.server.received);
    RepliesFront(s.log, k);
    var fs := Replies(s.log[..k]);
    RepliesFit(s.log[..k]);
    var m := |s.taken|;
    Understood(s, k);
    ClientDecodes(fs, m, s.client.readBuffer, s.toClient, s.server.wire);
    assert fs[..m + 1] == s.taken + [fs[m]];
  }

  lemma Prefixes<T>(a: seq<T>, b: seq<T>, c: seq<T>)
    requires a + b <= c
    ensures a <= c
  {
    assert (a + b)[..|a|] == a;
  }

  /** The client has taken no more than the server has answered. */
  lemma Understood(s: System, k: nat)
    requires RepliesFlow(s) && Srv.Ok(s.server) && k <= |s.log| && LogOk(s.log)
    requires Sane(s.server.received) && Drain(s.server.received).frames == s.log[..k]
    ensures |s.taken| <= 2 * k && s.taken == Replies(s.log[..k])[..|s.taken|]
    ensures s.server.wire <= EncodeAll(Replies(s.log[..k]))
  {
    hide EncodeAll, Replies, Drain, Sane, Srv.Pending, Encode, LogOk;
    RepliesFront(s.log, k);
    var fs := Replies(s.log[..k]);
    assert s.server.wire <= EncodeAll(fs);
    if |s.taken| > 2 * k {
      assert s.taken[..2 * k] == fs;
      EncodeNext(s.taken, 2 * k);
      assert false;
    }
  }

  lemma TakeKeeps(s: System)
    requires Inv(s) && s.io == CheckIn && FrameReady(s.client.readBuffer)
    ensures Inv(TakeFrame(s, s.client))
  {
    hide Conserved, Bookkeeping, Srv.Ok, EncodeAll, Replies, LogOk, FrameReady, TryDecode;
    TakeFits(s);
    var s' := TakeFrame(s, s.client);
    BufferIrrelevant(s.client, s'.client.readBuffer, s.log, |s.log|, Delivered(s), Resolving(s.io));
    assert Delivered(s') == Delivered(s);
    assert RequestsFlow(s') by { assert Popped(s') == Popped(s); }
    assert RepliesFlow(s');
    assert ClientOk(s');
  }

  lemma ReceiveKeeps(s: System, n: nat)
    requires Inv(s) && Can(s, Receive(n))
    ensures Inv(Do(s, Receive(n)))
  {
    hide Conserved, Bookkeeping, Srv.Ok, EncodeAll, Replies, LogOk, FrameReady, TryDecode, Inv, TakeFrame;
    ReceivedKeeps(s, n);
    var s' := Received(s, n);
    if FrameReady(s'.client.readBuffer) {
      TakeKeeps(s');
      SameTake(s.(toClient := s.toClient[n..]), s', s'.client);
    } else {
      InvOpen(s');
      MoveKeeps(s', CheckOut);
    }
  }

  lemma InvOpen(s: System)
    requires Inv(s)
    ensures s.client.closed ==> s.io in {Top, CheckOut, Exited}
    ensures s.io == Popping ==> s.client.outgoing != []
    ensures s.io.Sending? ==> s.io.rest != []
    ensures s.io == Exited ==> s.stop || s.client.closed
    ensures s.io != Crashed
  {
  }

  lemma SameTake(s: System, s': System, c: Client)
    requires s.(client := c) == s'
    ensures TakeFrame(s, c) == TakeFrame(s', c)
  {
  }

  /** Closing settles every waiting promise and leaves nothing pending. */
  lemma CloseKeeps(s: System, io: Io)
    requires Inv(s) && !s.client.closed && (s.io == CheckIn || s.io.Sending?) && io in {Top, CheckOut}
    ensures Inv(s.(client := Close(s.client), io := io))
  {
    hide Srv.Ok, EncodeAll, Replies, Framing.Fits;
    var s' := s.(client := Close(s.client), io := io);
    CloseConserves(s.client, |s.log|);
    CloseBookkeeping(s);
    hide Conserved, Bookkeeping, Close, LogOk;
    assert Delivered(s') == Delivered(s);
    assert RequestsFlow(s') && RepliesFlow(s');
  }

  lemma CloseBookkeeping(s: System)
    requires ClientOk(s) && !s.client.closed && (s.io == CheckIn || s.io.Sending?)
    ensures forall i :: 0 <= i < |s.log| ==> Bookkeeping(Close(s.client), s.log, Delivered(s), {}, i)
    ensures Close(s.client).closed && Close(s.client).outgoing == []
    ensures Close(s.client).nextId == s.client.nextId && Close(s.client).readBuffer == s.client.readBuffer
  {
    hide Conserved;
    forall i | 0 <= i < |s.log| ensures Bookkeeping(Close(s.client), s.log, Delivered(s), {}, i) {
      assert Bookkeeping(s.client, s.log, Delivered(s), Resolving(s.io), i);
    }
  }

  lemma PopKeeps(s: System)
    requires Inv(s) && s.io == Popping
    ensures Inv(Do(s, PopOutgoing))
  {
    hide Bookkeeping, Srv.Ok, EncodeAll, Replies, LogOk, Encode;
    var s' := Do(s, PopOutgoing);
    var j := Popped(s);
    assert Popped(s') == j + 1;
    EncodeNext(s.log, j);
    assert s'.client.outgoing == s.log[j + 1..];
    assert s.server.received + s.toServer + [] == s.server.received + s.toServer;
    assert RequestsFlow(s');
    PopBookkeeping(s.client, s.log, Delivered(s), |s.log|);
    assert Delivered(s') == Delivered(s);
    hide Conserved;
    assert ClientOk(s');
    assert RepliesFlow(s');
  }

  lemma PopBookkeeping(c: Client, log: seq<Frame>, delivered: int, n: nat)
    requires c.outgoing != [] && Conserved(c, n, {})
    ensures Conserved(c.(outgoing := c.outgoing[1..]), n, {})
    ensures forall i :: 0 <= i < |log| ==>
              Bookkeeping(c.(outgoing := c.outgoing[1..]), log, delivered, {}, i) ==
              Bookkeeping(c, log, delivered, {}, i)
  {
  }

  lemma SendSomeKeeps(s: System, n: nat)
    requires Inv(s) && Can(s, SendSome(n))
    ensures Inv(Do(s, SendSome(n)))
  {
    hide Conserved, Bookkeeping, Srv.Ok, EncodeAll, Replies, LogOk;
    var s' := Do(s, SendSome(n));
    assert s.io.rest[..n] + s.io.rest[n..] == s.io.rest;
    assert Popped(s') == Popped(s) && Delivered(s') == Delivered(s);
    EncodeFront(s.log, Popped(s));
    var whole := EncodeAll(s.log[..Popped(s)]);
    assert s'.server.received + s'.toServer + s.io.rest[n..] == whole;
    if n == |s.io.rest| {
      assert s.io.rest[n..] == [];
    }
    assert RequestsFlow(s') && RepliesFlow(s');
  }

  /** Replies are only there for requests that have left the queue. */
  lemma RepliesWereSent(s: System)
    requires Inv(s) && !s.client.closed
    ensures |s.taken| <= 2 * Popped(s)
    ensures forall i, q :: 0 <= i && 2 * i < |s.taken| && i < |s.log| && 0 <= q < |s.client.outgoing| ==>
              s.client.outgoing[q].id != s.log[i].id
  {
    hide Conserved, Bookkeeping, EncodeAll, Replies, Drain, Sane, Srv.WritesOrdered, Framing.Fits;
    var j := Popped(s);
    var sent := s.log[..j];
    assert s.server.received + (s.toServer + InHand(s.io)) == EncodeAll(sent) by {
      assert s.server.received + (s.toServer + InHand(s.io)) == s.server.received + s.toServer + InHand(s.io);
    }
    Prefixes(s.server.received, s.toServer + InHand(s.io), EncodeAll(sent));
    var k := ServerDecodes(sent, s.server.received);
    assert sent[..k] == s.log[..k];
    Understood(s, k);
    forall i, q | 0 <= i && 2 * i < |s.taken| && i < |s.log| && 0 <= q < |s.client.outgoing|
      ensures s.client.outgoing[q].id != s.log[i].id
    {
      assert s.client.outgoing[q] == s.log[j + q];
    }
  }

  lemma HandleBookkeeping(s: System, i: nat)
    requires ClientOk(s) && LogOk(s.log) && s.io.Holding? && !s.client.closed && i < |s.log|
    requires 2 * i <= Delivered(s) <= 2 * i + 1
    requires s.io.frame == if Delivered(s) == 2 * i then s.log[i] else Frame(s.log[i].id, END)
    ensures
      var (c, d) := Deliver(s.client, s.io.frame);
      && d == (if Delivered(s) == 2 * i then Collected else Completed)
      && c == s.client.(pending := c.pending, promises := c.promises)
      && (d == Completed <==> s.io.frame.payload == END)
      && AllBooked(c, s.log, Delivered(s) + 1, if d == Completed then {s.io.frame.id} else {})
  {
    hide Conserved, Framing.Fits;
    assert Bookkeeping(s.client, s.log, Delivered(s), Resolving(s.io), i);
    var (c, d) := Deliver(s.client, s.io.frame);
    assert [] + [s.log[i].payload] == [s.log[i].payload];
    assert [s.log[i].payload] + [END] == [s.log[i].payload, END];
    var resolving: set<u32> := if d == Completed then {s.io.frame.id} else {};
    var after := Delivered(s) + 1;
    forall q | 0 <= q < |s.log| ensures Bookkeeping(c, s.log, after, resolving, q) {
      assert Bookkeeping(s.client, s.log, Delivered(s), Resolving(s.io), q);
      assert s.log[q].id == q + 1 && s.log[i].id == i + 1;
    }
  }

  lemma HandleKeeps(s: System)
    requires Inv(s) && s.io.Holding?
    ensures Inv(Do(s, HandleFrame))
  {
    hide Conserved, Bookkeeping, Srv.Ok, EncodeAll, Replies, Framing.Fits, Deliver;
    var m := |s.taken|;
    var i := (m - 1) / 2;
    assert Delivered(s) == m - 1;
    RepliesAt(s.log, i);
    RepliesWereSent(s);
    HandleBookkeeping(s, i);
    var (c, d) := Deliver(s.client, s.io.frame);
    DeliverConserves(s.client, |s.log|, s.io.frame);
    var s' := Do(s, HandleFrame);
    assert Popped(s') == Popped(s) && Delivered(s') == m;
    assert RequestsFlow(s') && RepliesFlow(s');
    if d == Completed {
      assert s.log[i].id == s'.io.id && 2 * i + 2 == Delivered(s');
    }
    assert ClientOk(s');
  }

  lemma RemoveKeeps(s: System)
    requires Inv(s) && s.io.Removing?
    ensures Inv(Do(s, RemoveRequest))
  {
    hide Conserved, Bookkeeping, Srv.Ok, EncodeAll, Replies, Framing.Fits;
    var i :| 0 <= i < |s.log| && s.log[i].id == s.io.id && 2 * i + 2 == Delivered(s);
    RepliesWereSent(s);
    RemoveConserves(s.client, |s.log|, s.io.id);
    var s' := Do(s, RemoveRequest);
    RemoveBookkeeping(s, i);
    assert Popped(s') == Popped(s) && Delivered(s') == Delivered(s);
    assert RequestsFlow(s') && RepliesFlow(s');
    assert ClientOk(s');
  }

  lemma RemoveBookkeeping(s: System, i: nat)
    requires ClientOk(s) && LogOk(s.log) && s.io.Removing?
    requires i < |s.log| && s.log[i].id == s.io.id && 2 * i + 2 == Delivered(s)
    ensures forall q :: 0 <= q < |s.log| ==> Bookkeeping(Remove(s.client, s.io.id), s.log, Delivered(s), {}, q)
  {
    hide Conserved, Framing.Fits;
    forall q | 0 <= q < |s.log| ensures Bookkeeping(Remove(s.client, s.io.id), s.log, Delivered(s), {}, q) {
      assert Bookkeeping(s.client, s.log, Delivered(s), Resolving(s.io), q);
      assert s.log[q].id == q + 1 && s.log[i].id == i + 1;
    }
  }

  /** The session can always read what is on its way to it. */
  lemma ReadIsSane(s: System, n: nat)
    requires Inv(s) && n <= |s.toServer|
    ensures Sane(s.server.received + s.toServer[..n])
    ensures Sane(s.server.readBuffer + s.toServer[..n])
  {
    hide ClientOk, RepliesFlow, Drain, Sane, EncodeAll, Srv.WritesOrdered;
    var chunk := s.toServer[..n];
    assert s.toServer == chunk + s.toServer[n..];
    assert s.server.received + s.toServer == s.server.received + chunk + s.toServer[n..];
    Prefixes(s.server.received + chunk, s.toServer[n..], EncodeAll(s.log));
    var k := ServerDecodes(s.log, s.server.received + chunk);
    DrainAppend(s.server.received, chunk);
  }

  lemma ServerReadKeeps(s: System, n: nat)
    requires Inv(s) && Can(s, ServerRead(n))
    ensures Inv(Do(s, ServerRead(n)))
  {
    hide ClientOk, EncodeAll, Replies, LogOk, Srv.WritesOrdered, Srv.Answers, Srv.OnRead, Sane;
    ReadIsSane(s, n);
    var chunk := s.toServer[..n];
    var s' := Do(s, ServerRead(n));
    SaneEnds(s.server.readBuffer + chunk);
    Srv.StepKeepsOk(s.server, Srv.Read(chunk));
    ReadHistory(s.server, chunk);
    assert s.server.received + chunk + s.toServer[n..] == s.server.received + s.toServer by {
      assert s.toServer == chunk + s.toServer[n..];
    }
    assert Popped(s') == Popped(s);
    assert RequestsFlow(s') && RepliesFlow(s');
    assert ClientOk(s') by { ClientFrame(s, s'); }
  }

  lemma ReadHistory(server: Srv.Session, chunk: bytes)
    requires Srv.WritesOrdered(server)
    ensures Srv.OnRead(server, chunk).received == server.received + chunk
    ensures Srv.OnRead(server, chunk).wire == server.wire
  {
    hide Srv.WritesOrdered, Drain;
    Srv.QueueRepliesOrdered(server, Drain(server.readBuffer + chunk).frames);
  }

  lemma ClientFrame(s: System, s': System)
    requires ClientOk(s) && s'.client == s.client && s'.io == s.io && s'.log == s.log && s'.taken == s.taken
    requires s.stop ==> s'.stop
    ensures ClientOk(s')
  {
    hide Conserved, Bookkeeping;
    assert Delivered(s') == Delivered(s);
  }

  lemma ServerEventKeeps(s: System, e: Srv.Event)
    requires Inv(s) && Can(s, Server(e))
    ensures Inv(Do(s, Server(e)))
  {
    hide ClientOk, EncodeAll, Replies, LogOk, Srv.WritesOrdered, Srv.Answers, Sane;
    var s' := Do(s, Server(e));
    Srv.StepKeepsOk(s.server, e);
    assert Popped(s') == Popped(s);
    assert s'.server.received == s.server.received;
    assert RequestsFlow(s');
    if e.Sent? {
      var out := s.server.inFlight[e.which][..e.count];
      assert EncodeAll(s.taken) + s.client.readBuffer + (s.toClient + out) ==
             EncodeAll(s.taken) + s.client.readBuffer + s.toClient + out;
    } else {
      assert s.toClient + [] == s.toClient;
    }
    assert RepliesFlow(s');
    ClientFrame(s, s');
  }

  /** Every step of every participant keeps the invariant; in particular the I/O thread never looks up
      an id that is not pending. */
  lemma StepKeeps(s: System, l: Label)
    requires Inv(s) && Can(s, l)
    ensures Inv(Do(s, l))
  {
    hide Inv, ClientOk, RequestsFlow, RepliesFlow, Close, Received;
    InvOpen(s);
    match l
    case UserSend(payload) => UserSendKeeps(s, payload);
    case Stop => StopKeeps(s);
    case LoopTest => MoveKeeps(s, if s.stop || s.client.closed then Exited else CheckIn);
    case FrameBuffered => TakeKeeps(s);
    case NotReadable => MoveKeeps(s, CheckOut);
    case Receive(n) => ReceiveKeeps(s, n);
    case ConnectionLost => CloseKeeps(s, CheckOut);
    case HandleFrame => HandleKeeps(s);
    case RemoveRequest => RemoveKeeps(s);
    case OutgoingTest => MoveKeeps(s, if s.client.closed || s.client.outgoing == [] then Top else Popping);
    case PopOutgoing => PopKeeps(s);
    case SendSome(n) => SendSomeKeeps(s, n);
    case SendFailed =>
      assert !s.client.closed;
      CloseKeeps(s, Top);
    case ServerRead(n) => ServerReadKeeps(s, n);
    case Server(e) => ServerEventKeeps(s, e);
  }

  lemma StopKeeps(s: System)
    requires Inv(s)
    ensures Inv(s.(stop := true))
  {
    hide Conserved, Bookkeeping, Srv.Ok, EncodeAll, Replies, LogOk;
    var s' := s.(stop := true);
    ClientFrame(s, s');
    assert Popped(s') == Popped(s);
    assert RequestsFlow(s') && RepliesFlow(s');
  }
}
