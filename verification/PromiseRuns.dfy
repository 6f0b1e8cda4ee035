/** What holds over whole runs of the promise demo. */
module PromiseRuns {
  import opened Words
  import opened Framing
  import opened EchoServers
  import Srv = AsioSession
  import opened PromiseClient
  import opened PromiseProtocol

  ghost predicate ValidRun(s: System, run: seq<Label>)
    decreases |run|
  {
    run != [] ==> Can(s, run[0]) && ValidRun(Do(s, run[0]), run[1..])
  }

  ghost function End(s: System, run: seq<Label>): System
    requires ValidRun(s, run)
    decreases |run|
  {
    if run == [] then s else End(Do(s, run[0]), run[1..])
  }

  lemma {:induction false} RunKeeps(s: System, run: seq<Label>)
    requires Inv(s) && ValidRun(s, run)
    ensures Inv(End(s, run))
    decreases |run|
  {
    hide Inv, Can, Do;
    if run != [] {
      StepKeeps(s, run[0]);
      RunKeeps(Do(s, run[0]), run[1..]);
    }
  }

  // ----- safety -----------------------------------------------------------------------------------------

  /** The account of every request made so far: its future is waiting and the request pending, or it
      got exactly its own text and END, or it failed because the connection closed. */
  ghost predicate Accounted(s: System, i: nat)
    requires i < |s.log|
  {
    var id := s.log[i].id;
    && id == i + 1 && id in s.client.promises
    && match s.client.promises[id]
       case Waiting => id in s.client.pending && !s.client.closed
       case Fulfilled(reply) => reply == [s.log[i].payload, END] && (id in s.client.pending ==> s.io == Removing(id))
       case Failed => id !in s.client.pending && s.client.closed
  }

  lemma RunsAreSafe(run: seq<Label>)
    requires ValidRun(START, run)
    ensures
      var s := End(START, run);
      && s.io != Crashed
      && (forall id: u32 :: id in s.client.promises <==> 1 <= id <= |s.log|)
      && (forall i :: 0 <= i < |s.log| ==> Accounted(s, i))
      && (s.client.closed ==> s.client.pending == map[] && s.client.outgoing == [])
      && (forall p, q :: 0 <= p < q < |s.client.outgoing| ==> s.client.outgoing[p].id < s.client.outgoing[q].id)
      && (forall p :: 0 <= p < |s.client.outgoing| ==> s.client.outgoing[p].id in s.client.pending)
  {
    StartOk();
    RunKeeps(START, run);
    InvIsSafe(End(START, run));
  }

  lemma InvIsSafe(s: System)
    requires Inv(s)
    ensures s.io != Crashed
    ensures forall id: u32 :: id in s.client.promises <==> 1 <= id <= |s.log|
    ensures forall i :: 0 <= i < |s.log| ==> Accounted(s, i)
    ensures s.client.closed ==> s.client.pending == map[] && s.client.outgoing == []
    ensures forall p, q :: 0 <= p < q < |s.client.outgoing| ==> s.client.outgoing[p].id < s.client.outgoing[q].id
    ensures forall p :: 0 <= p < |s.client.outgoing| ==> s.client.outgoing[p].id in s.client.pending
  {
    hide RequestsFlow, RepliesFlow, Srv.Ok, Framing.Fits;
    forall i | 0 <= i < |s.log| ensures Accounted(s, i) {
      assert Bookkeeping(s.client, s.log, Delivered(s), Resolving(s.io), i);
    }
  }

  /** A future that was resolved or failed never changes again, and a closed connection stays closed. */
  ghost predicate Extends(s: System, s': System) {
    && (forall id :: id in s.client.promises && s.client.promises[id] != Waiting ==>
          id in s'.client.promises && s'.client.promises[id] == s.client.promises[id])
    && (s.client.closed ==> s'.client.closed)
    && s.log <= s'.log
  }

  lemma StepExtends(s: System, l: Label)
    requires Inv(s) && Can(s, l)
    ensures Extends(s, Do(s, l))
  {
    hide RequestsFlow, RepliesFlow, Srv.Ok, Framing.Fits, AllBooked, Srv.Step, Srv.OnRead, Encode, TryDecode;
  }

  lemma {:induction false} ResolvedOnce(s: System, run: seq<Label>)
    requires Inv(s) && ValidRun(s, run)
    ensures Extends(s, End(s, run))
    decreases |run|
  {
    hide Inv, Can, Do;
    if run != [] {
      StepKeeps(s, run[0]);
      StepExtends(s, run[0]);
      ResolvedOnce(Do(s, run[0]), run[1..]);
      ExtendsTransitive(s, Do(s, run[0]), End(s, run));
    }
  }

  lemma ExtendsTransitive(a: System, b: System, c: System)
    requires Extends(a, b) && Extends(b, c)
    ensures Extends(a, c)
  {
  }

  // ----- progress ---------------------------------------------------------------------------------------

  /** Steps that break the connection. */
  predicate Faulty(l: Label) {
    l.ConnectionLost? || l.SendFailed? || (l.Server? && (l.event.ReadFailed? || l.event.WriteFailed?))
  }

  lemma StepStaysOpen(s: System, l: Label)
    requires Can(s, l) && !Faulty(l) && !s.client.closed
    ensures !Do(s, l).client.closed
  {
    hide Encode, TryDecode, Srv.Step, Srv.OnRead, Srv.Transfer, Sane, FrameReady;
  }

  lemma {:induction false} StaysOpen(s: System, run: seq<Label>)
    requires ValidRun(s, run) && !s.client.closed && forall l <- run :: !Faulty(l)
    ensures !End(s, run).client.closed
    decreases |run|
  {
    hide Can, Do, Faulty;
    if run != [] {
      StepStaysOpen(s, run[0]);
      StaysOpen(Do(s, run[0]), run[1..]);
    }
  }

  /** Without I/O errors no future fails: each one is waiting or has exactly its own text and END. */
  lemma FaultlessRuns(run: seq<Label>)
    requires ValidRun(START, run) && forall l <- run :: !Faulty(l)
    ensures
      var s := End(START, run);
      forall i :: 0 <= i < |s.log| ==>
        s.log[i].id in s.client.promises &&
        s.client.promises[s.log[i].id] in {Waiting, Fulfilled([s.log[i].payload, END])}
  {
    RunsAreSafe(run);
    StaysOpen(START, run);
    hide ValidRun, End;
    forall i | 0 <= i < |End(START, run).log|
      ensures var s := End(START, run);
              s.log[i].id in s.client.promises &&
              s.client.promises[s.log[i].id] in {Waiting, Fulfilled([s.log[i].payload, END])}
    {
      assert Accounted(End(START, run), i);
    }
  }

  /** Steps of the I/O thread and of the session that move data. */
  predicate Working(l: Label) {
    match l
    case FrameBuffered | Receive(_) | HandleFrame | RemoveRequest | PopOutgoing | SendSome(_) | ServerRead(_) => true
    case Server(e) => e.Written? || (e.Sent? && e.count > 0)
    case _ => false
  }

  ghost predicate Healthy(s: System) {
    !s.client.closed && !s.stop && s.server.reading && !s.server.broken
  }

  /** How far the data still has to go, stage by stage. */
  ghost function Rank(s: System): seq<nat> {
    [|s.client.outgoing|, |InHand(s.io)|, |s.toServer|, |Srv.Pending(s.server)|, |s.server.queue|, |s.toClient|,
     |s.client.readBuffer|, if s.io.Holding? then 2 else if s.io.Removing? then 1 else 0]
  }

  /** Lexicographic order: equal up to some stage, smaller there. */
  ghost predicate Lower(a: seq<nat>, b: seq<nat>) {
    |a| == |b| && exists k :: 0 <= k < |a| && LowerAt(a, b, k)
  }

  ghost predicate LowerAt(a: seq<nat>, b: seq<nat>, k: int)
    requires |a| == |b| && 0 <= k < |a|
  {
    a[..k] == b[..k] && a[k] < b[k]
  }

  /** Every step that moves data lowers the rank, so between two new requests only finitely many such
      steps are possible, in whatever order they are scheduled. */
  lemma WorkLowersRank(s: System, l: Label)
    requires Inv(s) && Can(s, l) && Working(l)
    ensures Lower(Rank(Do(s, l)), Rank(s))
  {
    hide Inv, Can, Do, Rank, Lower;
    match l
    case PopOutgoing => RequestLowersRank(s, l);
    case SendSome(n) => RequestLowersRank(s, l);
    case ServerRead(n) => RequestLowersRank(s, l);
    case Server(e) => SendingLowersRank(s, e);
    case Receive(n) => ReplyLowersRank(s, l);
    case FrameBuffered => ReplyLowersRank(s, l);
    case HandleFrame => ReplyLowersRank(s, l);
    case RemoveRequest => ReplyLowersRank(s, l);
    case _ =>
  }

  lemma RequestLowersRank(s: System, l: Label)
    requires Inv(s) && Can(s, l) && (l.PopOutgoing? || l.SendSome? || l.ServerRead?)
    ensures Lower(Rank(Do(s, l)), Rank(s))
  {
    hide ClientOk, RequestsFlow, RepliesFlow, LogOk, Srv.Answers, Encode, Srv.OnRead, Srv.Pending;
    InvOpen(s);
    var s' := Do(s, l);
    match l
    case PopOutgoing => assert LowerAt(Rank(s'), Rank(s), 0);
    case SendSome(n) => assert LowerAt(Rank(s'), Rank(s), 1);
    case ServerRead(n) => assert LowerAt(Rank(s'), Rank(s), 2);
  }

  lemma ReplyLowersRank(s: System, l: Label)
    requires Inv(s) && Can(s, l) && (l.Receive? || l.FrameBuffered? || l.HandleFrame? || l.RemoveRequest?)
    ensures Lower(Rank(Do(s, l)), Rank(s))
  {
    hide ClientOk, RequestsFlow, RepliesFlow, LogOk, Srv.Answers, Encode, Deliver;
    InvOpen(s);
    var s' := Do(s, l);
    match l
    case Receive(n) => assert LowerAt(Rank(s'), Rank(s), 5);
    case FrameBuffered =>
      TakeShrinks(s);
      assert LowerAt(Rank(s'), Rank(s), 6);
    case HandleFrame =>
      DeliverTouches(s.client, s.io.frame);
      assert LowerAt(Rank(s'), Rank(s), 7);
    case RemoveRequest => assert LowerAt(Rank(s'), Rank(s), 7);
  }

  lemma SendingLowersRank(s: System, e: Srv.Event)
    requires Inv(s) && Can(s, Server(e)) && Working(Server(e))
    ensures Lower(Rank(Do(s, Server(e))), Rank(s))
  {
    hide ClientOk, RequestsFlow, RepliesFlow, LogOk, Srv.Answers, Encode, Deliver;
    InvOpen(s);
    var s' := Do(s, Server(e));
    if e.Sent? {
      assert LowerAt(Rank(s'), Rank(s), 3);
    } else {
      WrittenRank(s.server);
      assert LowerAt(Rank(s'), Rank(s), 4);
    }
  }

  lemma DeliverTouches(c: Client, f: Frame)
    ensures Deliver(c, f).0 == c.(pending := Deliver(c, f).0.pending, promises := Deliver(c, f).0.promises)
  {
  }

  lemma WrittenRank(v: Srv.Session)
    requires Srv.WritesOrdered(v) && |v.inFlight| == 1 && v.inFlight[0] == [] && v.queue != []
    ensures Srv.Pending(Srv.OnWritten(v, 0)) == Srv.Pending(v)
  {
    assert Srv.RemoveAt(v.inFlight, 0) == [];
    assert [] + Srv.Joined(v.queue[1..]) == Srv.Joined(v.queue[1..]);
  }

  lemma TakeShrinks(s: System)
    requires Inv(s) && FrameReady(s.client.readBuffer)
    ensures |TakeFrame(s, s.client).client.readBuffer| < |s.client.readBuffer|
  {
    hide Inv, TryDecode, Encode, EncodeAll;
    TakeFits(s);
    var d := TryDecode(s.client.readBuffer).value;
    InvWire(s);
    EncodeAllAppend(s.taken, [d.frame]);
    EncodeCons(d.frame, []);
  }

  lemma InvWire(s: System)
    requires Inv(s)
    ensures EncodeAll(s.taken) + s.client.readBuffer + s.toClient == s.server.wire
  {
  }

  // ----- nothing is left behind ---------------------------------------------------------------------------

  ghost predicate Cycling(io: Io) {
    io in {Top, CheckIn, CheckOut}
  }

  /** The I/O thread only polls, wherever it is in its loop, and no step that moves data is enabled. */
  ghost predicate NothingToDo(s: System) {
    && Cycling(s.io)
    && s.client.outgoing == []
    && forall io, l :: Cycling(io) && Working(l) ==> !Can(s.(io := io), l)
  }

  lemma QuietChannels(s: System)
    requires Inv(s) && Healthy(s) && NothingToDo(s)
    ensures s.toServer == [] && s.toClient == [] && s.server.wire == s.server.submitted
    ensures !FrameReady(s.client.readBuffer)
  {
    hide ClientOk, RequestsFlow, RepliesFlow, LogOk, Srv.Answers, FrameReady, Sane;
    var t := s.(io := CheckIn);
    assert Cycling(CheckIn);
    assert !Can(t, FrameBuffered);
    assert !Can(t, Receive(1));
    assert !Can(t, ServerRead(1));
    assert !Can(t, Server(Srv.Sent(0, 1)));
    assert !Can(t, Server(Srv.Written(0)));
    assert s.server.wire + [] == s.server.wire;
  }

  /** When nothing more can happen, every request made has its complete reply. */
  lemma QuietMeansAnswered(s: System)
    requires Inv(s) && Healthy(s) && NothingToDo(s)
    ensures s.client.pending == map[]
    ensures forall i :: 0 <= i < |s.log| ==>
              s.log[i].id in s.client.promises &&
              s.client.promises[s.log[i].id] == Fulfilled([s.log[i].payload, END])
  {
    QuietChannels(s);
    AllTaken(s);
    hide RequestsFlow, RepliesFlow, Srv.Ok, Framing.Fits, NothingToDo, FrameReady;
    forall i | 0 <= i < |s.log|
      ensures s.log[i].id in s.client.promises && s.log[i].id !in s.client.pending
      ensures s.client.promises[s.log[i].id] == Fulfilled([s.log[i].payload, END])
    {
      assert Bookkeeping(s.client, s.log, Delivered(s), Resolving(s.io), i);
    }
    forall id: u32 ensures id !in s.client.pending {
      if 1 <= id <= |s.log| {
        assert s.log[id - 1].id == id;
      }
    }
  }

  lemma AllTaken(s: System)
    requires Inv(s) && s.toServer == [] && s.toClient == [] && s.server.wire == s.server.submitted
    requires !FrameReady(s.client.readBuffer) && s.client.outgoing == [] && !s.client.closed && !s.io.Sending?
    ensures s.taken == Replies(s.log)
  {
    hide Conserved, AllBooked, EncodeAll, Replies, Drain, Sane, Encode, FrameReady, Srv.WritesOrdered, Framing.Fits;
    var fs := Replies(s.log);
    RepliesFit(s.log);
    assert s.log[..|s.log|] == s.log;
    assert s.server.received + [] + [] == s.server.received;
    SaneNothing();
    DrainEncoded(s.log, []);
    assert s.server.received + [] == s.server.received;
    assert s.server.wire == EncodeAll(fs);
    var m := |s.taken|;
    if m < |fs| {
      EncodeNext(fs, m);
      var rest := Encode(fs[m]) + EncodeAll(fs[m + 1..]);
      assert s.taken == fs[..m];
      assert EncodeAll(s.taken) + s.client.readBuffer + [] == EncodeAll(s.taken) + s.client.readBuffer;
      SameTail(EncodeAll(s.taken), s.client.readBuffer, rest);
      FrameRoundTrip(fs[m], EncodeAll(fs[m + 1..]));
      ReadyDecodes(rest);
      assert false;
    }
  }

  // ----- every request can be completed ----------------------------------------------------------------------

  ghost predicate ClientData(s: System) {
    FrameReady(s.client.readBuffer) || s.toClient != []
  }

  /** Polling steps until the I/O thread is where there is work for it. */
  ghost function Distance(s: System): nat {
    match s.io
    case Top => if ClientData(s) then 1 else 3
    case CheckIn => if ClientData(s) then 0 else 2
    case CheckOut => if ClientData(s) then 2 else 1
    case _ => 0
  }

  ghost predicate Internal(l: Label) {
    !Faulty(l) && !l.UserSend? && !l.Stop?
  }

  /** No frame that is still to be sent is beyond the size that `send_all` can offer to a socket whose size
      parameter is an int. Without this the sending steps below would not all be possible there. */
  ghost predicate Sendable(s: System) {
    && (forall f <- s.client.outgoing :: 8 + |f.payload| <= INT_MAX)
    && (s.io.Sending? ==> |s.io.rest| <= INT_MAX)
  }

  lemma StaysSendable(s: System, l: Label)
    requires Inv(s) && Sendable(s) && Can(s, l) && Internal(l)
    ensures Sendable(Do(s, l))
  {
    hide Inv, Sane, FrameReady, Srv.Step, Srv.OnRead, Srv.Enabled;
  }

  /** Some internal step is enabled that moves data, or takes the I/O thread nearer to such a step,
      unless nothing is left to do. */
  lemma NextStep(s: System) returns (l: Label)
    requires Inv(s) && Healthy(s) && Sendable(s) && !(Cycling(s.io) && Idle(s))
    ensures Can(s, l) && Internal(l)
    ensures Working(l) || (Rank(Do(s, l)) == Rank(s) && Distance(Do(s, l)) < Distance(s))
  {
    hide Inv, FrameReady, Sane, Healthy, Sendable, Can, Do, Internal, Working, Distance, Rank;
    if !Cycling(s.io) {
      l := BusyStep(s);
    } else if s.toServer != [] || s.server.inFlight != [] {
      l := ServerStep(s);
    } else {
      l := PollStep(s);
    }
  }

  /** The I/O thread is in the middle of something. */
  lemma BusyStep(s: System) returns (l: Label)
    requires Inv(s) && Healthy(s) && Sendable(s) && !Cycling(s.io)
    ensures Can(s, l) && Internal(l) && Working(l)
  {
    hide Inv, FrameReady, Sane, Srv.Enabled;
    InvOpen(s);
    HealthyRuns(s);
    hide Healthy;
    match s.io
    case Holding(_) => l := HandleFrame;
    case Removing(_) => l := RemoveRequest;
    case Popping => l := PopOutgoing;
    case Sending(rest) => l := SendSome(|rest|);
  }

  lemma HealthyRuns(s: System)
    requires Inv(s) && Healthy(s)
    ensures s.io != Exited
  {
    hide Conserved, RequestsFlow, RepliesFlow, LogOk, Srv.Ok;
  }

  lemma ServerStep(s: System) returns (l: Label)
    requires Inv(s) && Healthy(s) && (s.toServer != [] || s.server.inFlight != [])
    ensures Can(s, l) && Internal(l) && Working(l)
  {
    hide Inv, FrameReady, Sane;
    if s.toServer != [] {
      var n := if |s.toServer| < CHUNK then |s.toServer| else CHUNK;
      ReadIsSane(s, n);
      l := ServerRead(n);
    } else {
      InFlightQueued(s);
      l := if s.server.inFlight[0] != [] then Server(Srv.Sent(0, |s.server.inFlight[0]|)) else Server(Srv.Written(0));
    }
  }

  lemma PollStep(s: System) returns (l: Label)
    requires Inv(s) && Healthy(s) && Cycling(s.io)
    requires s.toServer == [] && s.server.inFlight == [] && !Idle(s)
    ensures Can(s, l) && Internal(l)
    ensures Working(l) || (Rank(Do(s, l)) == Rank(s) && Distance(Do(s, l)) < Distance(s))
  {
    hide Inv, FrameReady, Sane, Srv.Pending, TakeFrame;
    if s.io == Top {
      l := LoopTest;
    } else if s.io == CheckOut {
      l := OutgoingTest;
    } else if FrameReady(s.client.readBuffer) {
      l := FrameBuffered;
    } else if s.toClient != [] {
      l := Receive(if |s.toClient| < CHUNK then |s.toClient| else CHUNK);
    } else {
      l := NotReadable;
    }
  }

  lemma InFlightQueued(s: System)
    requires Inv(s) && s.server.inFlight != []
    ensures s.server.queue != []
  {
    hide ClientOk, RequestsFlow, RepliesFlow, LogOk, Srv.Answers;
  }

  ghost predicate Idle(s: System) {
    && s.toServer == [] && s.toClient == [] && s.server.inFlight == [] && s.client.outgoing == []
    && !FrameReady(s.client.readBuffer)
  }

  lemma IdleIsQuiet(s: System)
    requires Inv(s) && Healthy(s) && Cycling(s.io) && Idle(s)
    ensures NothingToDo(s)
  {
    hide Inv, FrameReady, Sane;
    forall io, l | Cycling(io) && Working(l) ensures !Can(s.(io := io), l) {
    }
  }

  lemma StaysHealthy(s: System, l: Label)
    requires Inv(s) && Healthy(s) && Can(s, l) && Internal(l)
    ensures Healthy(Do(s, l)) && Do(s, l).log == s.log
  {
    hide ClientOk, RequestsFlow, RepliesFlow, LogOk, Srv.Answers, Encode, Deliver, FrameReady, TryDecode;
    match l
    case HandleFrame => DeliverTouches(s.client, s.io.frame);
    case ServerRead(n) => Srv.QueueRepliesOrdered(s.server, Drain(s.server.readBuffer + s.toServer[..n]).frames);
    case _ =>
  }

  /** From every reachable state of a working connection, the steps of the I/O thread and of the
      session alone lead to a state in which no request is pending and every one is answered. */
  lemma {:induction false} Completes(s: System) returns (run: seq<Label>)
    requires Inv(s) && Healthy(s) && Sendable(s)
    ensures ValidRun(s, run) && forall i :: 0 <= i < |run| ==> Internal(run[i])
    ensures End(s, run).client.pending == map[] && End(s, run).log == s.log
    ensures forall i :: 0 <= i < |s.log| ==>
              s.log[i].id in End(s, run).client.promises &&
              End(s, run).client.promises[s.log[i].id] == Fulfilled([s.log[i].payload, END])
    decreases Rank(s)[0], Rank(s)[1], Rank(s)[2], Rank(s)[3], Rank(s)[4], Rank(s)[5], Rank(s)[6], Rank(s)[7],
              Distance(s)
  {
    hide Inv, Healthy, Sendable, Idle, Can, Do, Distance, Rank, Internal, Working;
    if Cycling(s.io) && Idle(s) {
      IdleIsQuiet(s);
      QuietMeansAnswered(s);
      run := [];
    } else {
      var l := NextStep(s);
      var s' := Do(s, l);
      StepKeeps(s, l);
      StaysHealthy(s, l);
      StaysSendable(s, l);
      RankSize(s);
      RankSize(s');
      if Working(l) {
        HealthyServer(s);
        WorkLowersRank(s, l);
        LowerUnfolds(Rank(s'), Rank(s));
      }
      var rest := Completes(s');
      run := [l] + rest;
      assert run[1..] == rest;
    }
  }

  lemma RankSize(s: System)
    ensures |Rank(s)| == 8
  {
  }

  lemma HealthyServer(s: System)
    requires Healthy(s)
    ensures !s.server.broken
  {
  }

  lemma LowerUnfolds(a: seq<nat>, b: seq<nat>)
    requires |a| == |b| == 8 && Lower(a, b)
    ensures exists k :: 0 <= k < 8 && a[k] < b[k] && forall i :: 0 <= i < k ==> a[i] == b[i]
  {
    var k :| 0 <= k < 8 && LowerAt(a, b, k);
    forall i | 0 <= i < k ensures a[i] == b[i] {
      assert a[..k][i] == b[..k][i];
    }
  }

  // ----- the same for every state a run leads to --------------------------------------------------------

  lemma ReachableInv(run: seq<Label>)
    requires ValidRun(START, run)
    ensures Inv(End(START, run))
  {
    hide *;
    StartOk();
    RunKeeps(START, run);
  }

  /** Once resolved or failed, a future stays as it is whatever happens later. */
  lemma ResolvedForGood(run: seq<Label>, later: seq<Label>)
    requires ValidRun(START, run) && ValidRun(End(START, run), later)
    ensures Extends(End(START, run), End(End(START, run), later))
  {
    hide *;
    ReachableInv(run);
    ResolvedOnce(End(START, run), later);
  }

  /** Where no data can move any more, nothing is pending and every future has its reply. */
  lemma QuietRunIsAnswered(run: seq<Label>)
    requires ValidRun(START, run) && Healthy(End(START, run)) && NothingToDo(End(START, run))
    ensures
      var s := End(START, run);
      && s.client.pending == map[]
      && forall i :: 0 <= i < |s.log| ==>
           s.log[i].id in s.client.promises && s.client.promises[s.log[i].id] == Fulfilled([s.log[i].payload, END])
  {
    hide *;
    ReachableInv(run);
    QuietMeansAnswered(End(START, run));
  }
}
