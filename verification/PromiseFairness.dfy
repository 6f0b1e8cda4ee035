/** Fair schedules of the promise demo answer every request. */
module PromiseFairness {
  import opened Framing
  import opened EchoServers
  import Srv = AsioSession
  import opened PromiseClient
  import opened PromiseProtocol
  import opened PromiseRuns

  /** An infinite schedule says which step comes when. */
  type Schedule = nat -> Label

  ghost function State(s: System, w: Schedule, k: nat): System {
    if k == 0 then s
    else
      var before := State(s, w, k - 1);
      if Can(before, w(k - 1)) then Do(before, w(k - 1)) else before
  }

  /** Every step is possible when it comes, and no request, stop or fault comes any more. */
  ghost predicate Valid(s: System, w: Schedule) {
    forall k: nat :: Can(State(s, w, k), w(k)) && Internal(w(k))
  }

  /** The parties that make progress on their own. */
  datatype Party = IoThread | ClientSocket | ServerSocket | ServerWriter

  /** Has the party something to do? The I/O thread always has: its loop runs on. */
  ghost predicate HasWork(p: Party, s: System) {
    match p
    case IoThread => true
    case ClientSocket => s.toClient != []
    case ServerSocket => s.toServer != []
    case ServerWriter => s.server.inFlight != []
  }

  predicate IoStep(l: Label) {
    !l.UserSend? && !l.Stop? && !l.ServerRead? && !l.Server?
  }

  predicate Serves(p: Party, l: Label) {
    match p
    case IoThread => IoStep(l)
    case ClientSocket => l.Receive?
    case ServerSocket => l.ServerRead?
    case ServerWriter => l.Server? && Working(l)
  }

  /** Fairness: a party that has something to do all the time does something some time. For the client's
      socket this asks for more than fairness towards its step, which is possible only while the I/O thread
      polls: data that stays in the channel is received some time. */
  ghost predicate Fair(s: System, w: Schedule) {
    forall p: Party, k: nat :: ServedFrom(s, w, p, k)
  }

  ghost predicate ServedFrom(s: System, w: Schedule, p: Party, k: nat) {
    (forall i: nat :: i >= k ==> HasWork(p, State(s, w, i))) ==> exists i: nat :: i >= k && Serves(p, w(i))
  }

  ghost predicate Good(s: System) {
    Inv(s) && Healthy(s) && Sendable(s)
  }

  lemma NextState(s: System, w: Schedule, k: nat)
    requires Valid(s, w)
    ensures Can(State(s, w, k), w(k)) && Internal(w(k)) && State(s, w, k + 1) == Do(State(s, w, k), w(k))
  {
    hide Can, Do, Internal;
    assert Can(State(s, w, k), w(k));
  }

  lemma StepStaysGood(s: System, l: Label)
    requires Good(s) && Can(s, l) && Internal(l)
    ensures Good(Do(s, l)) && Do(s, l).log == s.log
  {
    hide Inv, Healthy, Sendable, Can, Do, Internal;
    StepKeeps(s, l);
    StaysHealthy(s, l);
    StaysSendable(s, l);
  }

  lemma {:induction false} StaysGood(s: System, w: Schedule, k: nat)
    requires Good(s) && Valid(s, w)
    ensures Good(State(s, w, k)) && State(s, w, k).log == s.log
  {
    hide Good, Valid, Can, Do, Internal;
    if k > 0 {
      StaysGood(s, w, k - 1);
      NextState(s, w, k - 1);
      hide State;
      StepStaysGood(State(s, w, k - 1), w(k - 1));
    }
  }

  /** A step that moves no data only moves the I/O thread between the tests of its loop. */
  lemma IdleStep(s: System, l: Label)
    requires Good(s) && Can(s, l) && Internal(l) && !Working(l)
    ensures Do(s, l) == s.(io := Do(s, l).io) && Rank(Do(s, l)) == Rank(s)
    ensures !IoStep(l) ==> Do(s, l).io == s.io
    ensures IoStep(l) ==>
              match s.io
              case Top => Do(s, l).io == CheckIn
              case CheckIn => Do(s, l).io == CheckOut && !FrameReady(s.client.readBuffer)
              case CheckOut => Do(s, l).io == (if s.client.outgoing == [] then Top else Popping)
              case _ => false
  {
    hide Inv, Sendable, FrameReady, Srv.Pending, Encode;
    if l.Server? {
      SentNothing(s.server, l.event);
    }
  }

  lemma SentNothing(v: Srv.Session, e: Srv.Event)
    requires Srv.Enabled(v, e) && e.Sent? && e.count == 0
    ensures Srv.Step(v, e) == v && v.inFlight[e.which][..0] == []
  {
    assert v.inFlight[e.which][0..] == v.inFlight[e.which];
    assert v.inFlight[e.which := v.inFlight[e.which]] == v.inFlight;
    assert v.wire + [] == v.wire;
  }

  /** Nothing but the place of the I/O thread changes as long as no step moves data. */
  lemma {:induction false} NothingMoves(s: System, w: Schedule, k: nat, i: nat)
    requires Good(s) && Valid(s, w) && k <= i && forall j: nat :: k <= j < i ==> !Working(w(j))
    ensures State(s, w, i) == State(s, w, k).(io := State(s, w, i).io)
    ensures Rank(State(s, w, i)) == Rank(State(s, w, k))
    decreases i
  {
    hide Inv, Healthy, Sendable, Good, Can, Do, Internal, Rank, State, Valid, Working;
    if k < i {
      NothingMoves(s, w, k, i - 1);
      StaysGood(s, w, i - 1);
      NextState(s, w, i - 1);
      IdleStep(State(s, w, i - 1), w(i - 1));
    }
  }

  ghost predicate WorksFrom(w: Schedule, k: nat) {
    exists i: nat :: i >= k && Working(w(i))
  }

  /** A party other than the I/O thread stops waiting only when data is moved. */
  lemma {:induction false} MovedBetween(s: System, w: Schedule, p: Party, k: nat, i: nat)
    requires Good(s) && Valid(s, w) && k <= i
    requires HasWork(p, State(s, w, k)) && !HasWork(p, State(s, w, i))
    ensures WorksFrom(w, k)
    decreases i
  {
    hide Good, Can, Do, Internal, Rank, State, Valid, Working;
    assert k < i;
    if !Working(w(i - 1)) {
      StaysGood(s, w, i - 1);
      NextState(s, w, i - 1);
      IdleStep(State(s, w, i - 1), w(i - 1));
      MovedBetween(s, w, p, k, i - 1);
    }
  }

  /** Data in a channel or with the socket is not left there for ever. */
  lemma ChannelsAreServed(s: System, w: Schedule, p: Party, k: nat)
    requires Good(s) && Valid(s, w) && Fair(s, w) && p != IoThread && HasWork(p, State(s, w, k))
    ensures WorksFrom(w, k)
  {
    hide Good, Valid, State, HasWork, Can;
    assert ServedFrom(s, w, p, k);
    if forall i: nat :: i >= k ==> HasWork(p, State(s, w, i)) {
      var i: nat :| i >= k && Serves(p, w(i));
      assert Working(w(i));
    } else {
      var i: nat :| i >= k && !HasWork(p, State(s, w, i));
      MovedBetween(s, w, p, k, i);
    }
  }

  /** How many steps of its loop the I/O thread is away from work, once nothing else has any. */
  ghost function Away(s: System): nat {
    if !Cycling(s.io) then 0
    else if FrameReady(s.client.readBuffer) then
      if s.io == CheckIn then 1 else if s.io == Top then 2 else 3
    else
      if s.io == CheckOut then 1 else if s.io == CheckIn then 2 else 3
  }

  /** Nor does the I/O thread go round its loop for ever while there is something for it to do. */
  lemma {:induction false} ThreadWorks(s: System, w: Schedule, k: nat, next: nat)
    requires Good(s) && Valid(s, w) && Fair(s, w) && k <= next && IoStep(w(next))
    requires var t := State(s, w, k);
             !Cycling(t.io) || FrameReady(t.client.readBuffer) || t.client.outgoing != []
    ensures WorksFrom(w, k)
    decreases Away(State(s, w, k)), next - k
  {
    hide Good, Valid, State, Can, Do, Internal, FrameReady, Rank, Fair, Working;
    if !Working(w(k)) {
      StaysGood(s, w, k);
      NextState(s, w, k);
      IdleStep(State(s, w, k), w(k));
      var later := next;
      if IoStep(w(k)) {
        later := NextIoStep(s, w, k + 1);
      }
      ThreadWorks(s, w, k + 1, later);
    }
  }

  lemma NextIoStep(s: System, w: Schedule, k: nat) returns (i: nat)
    requires Fair(s, w)
    ensures i >= k && IoStep(w(i))
  {
    hide State;
    assert ServedFrom(s, w, IoThread, k);
    assert forall i: nat :: i >= k ==> HasWork(IoThread, State(s, w, i));
    i :| i >= k && Serves(IoThread, w(i));
  }

  /** While anything is left to do, data is moved some time. */
  lemma SomethingWorks(s: System, w: Schedule, k: nat)
    requires Good(s) && Valid(s, w) && Fair(s, w)
    requires !(Cycling(State(s, w, k).io) && Idle(State(s, w, k)))
    ensures WorksFrom(w, k)
  {
    hide Good, Valid, State, Fair, FrameReady, WorksFrom;
    var t := State(s, w, k);
    if t.toClient != [] {
      ChannelsAreServed(s, w, ClientSocket, k);
    } else if t.toServer != [] {
      ChannelsAreServed(s, w, ServerSocket, k);
    } else if t.server.inFlight != [] {
      ChannelsAreServed(s, w, ServerWriter, k);
    } else {
      var next := NextIoStep(s, w, k);
      ThreadWorks(s, w, k, next);
    }
  }

  /** The first step from `k` on that moves data. */
  lemma FirstWork(w: Schedule, k: nat) returns (i: nat)
    requires WorksFrom(w, k)
    ensures i >= k && Working(w(i)) && forall j: nat :: k <= j < i ==> !Working(w(j))
  {
    hide Working;
    var some: nat :| some >= k && Working(w(some));
    i := k;
    while !Working(w(i))
      invariant k <= i <= some && forall j: nat :: k <= j < i ==> !Working(w(j))
      decreases some - i
    {
      i := i + 1;
    }
  }

  /** The rank falls until nothing is left to do. */
  lemma {:induction false} BecomesIdle(s: System, w: Schedule, k: nat) returns (n: nat)
    requires Good(s) && Valid(s, w) && Fair(s, w)
    ensures n >= k && Cycling(State(s, w, n).io) && Idle(State(s, w, n))
    decreases Rank(State(s, w, k))[0], Rank(State(s, w, k))[1], Rank(State(s, w, k))[2], Rank(State(s, w, k))[3],
              Rank(State(s, w, k))[4], Rank(State(s, w, k))[5], Rank(State(s, w, k))[6], Rank(State(s, w, k))[7]
  {
    var t := State(s, w, k);
    RankSize(t);
    n := k;
    hide Valid, State, Fair, Idle, Rank, Can, Do, Internal, Working, Inv, Healthy, Sendable;
    if !(Cycling(t.io) && Idle(t)) {
      SomethingWorks(s, w, k);
      var i := FirstWork(w, k);
      NothingMoves(s, w, k, i);
      StaysGood(s, w, i);
      NextState(s, w, i);
      WorkLowersRank(State(s, w, i), w(i));
      RankSize(State(s, w, i));
      RankSize(State(s, w, i + 1));
      LowerUnfolds(Rank(State(s, w, i + 1)), Rank(State(s, w, i)));
      n := BecomesIdle(s, w, i + 1);
    }
  }

  /** Every fair schedule without new requests, stops and faults answers everything, from every reachable
      state of a working connection. */
  lemma FairSchedulesAnswer(s: System, w: Schedule)
    requires Inv(s) && Healthy(s) && Sendable(s) && Valid(s, w) && Fair(s, w)
    ensures exists n: nat ::
              && State(s, w, n).client.pending == map[]
              && forall i :: 0 <= i < |s.log| ==>
                   s.log[i].id in State(s, w, n).client.promises &&
                   State(s, w, n).client.promises[s.log[i].id] == Fulfilled([s.log[i].payload, END])
  {
    hide Valid, State, Fair, Idle, Inv, Healthy, Sendable;
    var n := BecomesIdle(s, w, 0);
    StaysGood(s, w, n);
    IdleIsQuiet(State(s, w, n));
    QuietMeansAnswered(State(s, w, n));
    assert State(s, w, n).client.pending == map[];
  }

  // ----- there are fair schedules ---------------------------------------------------------------------------

  /** A client without requests goes round its loop. */
  function Polling(k: nat): Label {
    if k % 3 == 0 then LoopTest else if k % 3 == 1 then NotReadable else OutgoingTest
  }

  function PollingIo(k: nat): Io {
    if k % 3 == 0 then Top else if k % 3 == 1 then CheckIn else CheckOut
  }

  lemma {:induction false} PollingState(k: nat)
    ensures State(START, Polling, k) == START.(io := PollingIo(k)) && Can(State(START, Polling, k), Polling(k))
  {
    hide *;
    PollingMoves(k);
    if k > 0 {
      PollingState(k - 1);
      PollingMoves(k - 1);
      StateStep(START, Polling, k - 1);
    } else {
      StartsPolling();
    }
  }

  lemma StartsPolling()
    ensures State(START, Polling, 0) == START.(io := PollingIo(0))
  {
  }

  lemma StateStep(s: System, w: Schedule, k: nat)
    requires Can(State(s, w, k), w(k))
    ensures State(s, w, k + 1) == Do(State(s, w, k), w(k))
  {
    hide Can, Do;
  }

  lemma PollingMoves(k: nat)
    ensures var s := START.(io := PollingIo(k));
            Can(s, Polling(k)) && Do(s, Polling(k)) == START.(io := PollingIo(k + 1))
  {
    hide Encode, TryDecode, Srv.Step, Srv.OnRead, Srv.Enabled;
  }

  lemma FairScheduleExists()
    ensures Valid(START, Polling) && Fair(START, Polling)
  {
    forall k: nat ensures Can(State(START, Polling, k), Polling(k)) && Internal(Polling(k)) {
      PollingState(k);
    }
    forall p: Party, k: nat ensures ServedFrom(START, Polling, p, k) {
      PollingState(k);
      if p == IoThread {
        assert Serves(p, Polling(k));
      } else {
        assert !HasWork(p, State(START, Polling, k));
      }
    }
  }
}
