/** The client connection: requests wait under their id until the I/O thread has collected a reply. */
module PromiseClient {
  import opened Words
  import opened Wrappers
  import opened Framing
  import opened EchoServers

  /** The shared state behind a future. */
  datatype Promise = Waiting | Fulfilled(reply: seq<bytes>) | Failed

  /** `promises` keeps the shared state of every promise ever handed out, by id. */
  datatype Client = Client(
    readBuffer: bytes,
    pending: map<u32, seq<bytes>>,
    outgoing: seq<Frame>,
    nextId: u32,
    closed: bool,
    promises: map<u32, Promise>)

  const NEW_CLIENT := Client([], map[], [], 1, false, map[])

  function SendRequest(c: Client, payload: bytes): Client {
    var id := c.nextId;
    c.(nextId := (id + 1) % TWO32,
       outgoing := c.outgoing + [Frame(id, payload)],
       pending := c.pending[id := []],
       promises := c.promises[id := Waiting])
  }

  function Push(c: Client, f: Frame): Client
    requires f.id in c.pending
  {
    c.(pending := c.pending[f.id := c.pending[f.id] + [f.payload]])
  }

  /** `set_value` moves the collected frames into the future. */
  function Fulfil(c: Client, id: u32): Client
    requires id in c.pending
  {
    c.(promises := c.promises[id := Fulfilled(c.pending[id])], pending := c.pending[id := []])
  }

  function Remove(c: Client, id: u32): Client {
    c.(pending := c.pending - {id})
  }

  /** Every waiting future gets the exception; nothing stays queued. */
  function Close(c: Client): Client {
    c.(closed := true,
       promises := map id | id in c.promises :: if id in c.pending then Failed else c.promises[id],
       pending := map[],
       outgoing := [])
  }

  datatype Delivery = Collected | Completed | Crash

  /** The I/O thread's treatment of one reply frame, up to the removal of the request. Looking up an
      id that is not pending, or fulfilling a promise twice, throws in the I/O thread. */
  function Deliver(c: Client, f: Frame): (Client, Delivery) {
    if f.id !in c.pending || f.id !in c.promises then (c, Crash)
    else if f.payload != END then (Push(c, f), Collected)
    else if c.promises[f.id] != Waiting then (Push(c, f), Crash)
    else (Fulfil(Push(c, f), f.id), Completed)
  }

  /** Delivery followed by the removal that a complete reply entails. */
  function DeliverFully(c: Client, f: Frame): (Client, Delivery) {
    var (c', d) := Deliver(c, f);
    if d == Completed then (Remove(c', f.id), d) else (c', d)
  }

  /** The two reply frames of a waiting request are digested, and fulfil it with exactly its own text
      and END, if and only if the request text is not itself END. */
  lemma ReplyIsDigestedIff(c: Client, request: Frame)
    requires request.id in c.pending && request.id in c.promises
    requires c.pending[request.id] == [] && c.promises[request.id] == Waiting
    ensures
      var (c1, d1) := DeliverFully(c, request);
      var (c2, d2) := DeliverFully(c1, Frame(request.id, END));
      if request.payload != END
      then d1 == Collected && d2 == Completed && request.id !in c2.pending &&
           c2.promises == c.promises[request.id := Fulfilled([request.payload, END])]
      else d1 == Completed && d2 == Crash
  {
    assert [] + [request.payload] + [END] == [request.payload, END];
  }

  /** The bookkeeping of ids `1..n`: each is either waiting in `pending` or settled, never both; the
      queue holds pending ids in ascending order. Only `resolving`, fulfilled but not yet removed, may
      be on both sides. */
  ghost predicate Conserved(c: Client, n: nat, resolving: set<u32>) {
    && (forall id: u32 :: id in c.promises <==> 1 <= id <= n)
    && (forall id :: id in c.pending ==> id in c.promises)
    && (forall id :: id in c.promises && id !in resolving ==> (id in c.pending <==> c.promises[id] == Waiting))
    && (forall id :: id in resolving ==> id in c.pending && c.promises[id].Fulfilled?)
    && (forall i :: 0 <= i < |c.outgoing| ==> c.outgoing[i].id in c.pending)
    && (forall i, j :: 0 <= i < j < |c.outgoing| ==> c.outgoing[i].id < c.outgoing[j].id)
    && (c.closed ==> c.pending == map[] && c.outgoing == [])
  }

  lemma SendConserves(c: Client, n: nat, resolving: set<u32>, payload: bytes)
    requires Conserved(c, n, resolving) && !c.closed && n + 1 < TWO32 && c.nextId == n + 1
    ensures Conserved(SendRequest(c, payload), n + 1, resolving)
  {
    forall i | 0 <= i < |c.outgoing| ensures c.outgoing[i].id <= n {
      assert c.outgoing[i].id in c.pending;
    }
  }

  lemma CloseConserves(c: Client, n: nat)
    requires Conserved(c, n, {})
    ensures Conserved(Close(c), n, {})
    ensures forall id :: id in c.promises ==>
              Close(c).promises[id] == if c.promises[id] == Waiting then Failed else c.promises[id]
  {
  }

  lemma DeliverConserves(c: Client, n: nat, f: Frame)
    requires Conserved(c, n, {}) && Deliver(c, f).1 != Crash
    ensures Conserved(Deliver(c, f).0, n, if f.payload == END then {f.id} else {})
  {
  }

  lemma RemoveConserves(c: Client, n: nat, id: u32)
    requires Conserved(c, n, {id})
    requires forall i :: 0 <= i < |c.outgoing| ==> c.outgoing[i].id != id
    ensures Conserved(Remove(c, id), n, {})
  {
  }

  // ----- the connection object ------------------------------------------------------------------------

  /** What reading the socket gave: bytes, or the end of the connection. */
  datatype Received = Chunk(data: bytes) | Lost

  class Connection {
    var readBuffer: bytes
    var pending: map<u32, seq<bytes>>
    var outgoing: seq<Frame>
    var nextId: u32
    var closed: bool
    var promises: map<u32, Promise>
    ghost var issued: nat

    ghost function View(): Client
      reads this
    {
      Client(readBuffer, pending, outgoing, nextId, closed, promises)
    }

    /** At rest, between two steps of the I/O thread. */
    ghost predicate Valid()
      reads this
    {
      issued < TWO32 && nextId == (issued + 1) % TWO32 && Conserved(View(), issued, {})
    }

    constructor ()
      ensures Valid() && View() == NEW_CLIENT && issued == 0
    {
      readBuffer, pending, outgoing, nextId, closed, promises := [], map[], [], 1, false, map[];
      issued := 0;
    }

    /** Called from any user thread. Fewer than 2^32 requests are made on a connection. */
    method Send(payload: bytes) returns (accepted: bool, id: u32)
      requires Valid() && issued + 1 < TWO32
      modifies this
      ensures Valid() && accepted == !old(closed)
      ensures !accepted ==> View() == old(View()) && issued == old(issued)
      ensures accepted ==> View() == SendRequest(old(View()), payload) && issued == old(issued) + 1
      ensures accepted ==> id !in old(promises) && id in promises && promises[id] == Waiting
    {
      id := nextId;
      if closed { return false, id; }
      SendConserves(View(), issued, {}, payload);
      nextId := (nextId + 1) % TWO32;
      outgoing := outgoing + [Frame(id, payload)];
      pending := pending[id := []];
      promises := promises[id := Waiting];
      issued := issued + 1;
      accepted := true;
    }

    /** Looks for a frame, in the buffer first and then, with a single read, on the socket. */
    method HasIncomingData(readable: bool, received: Received) returns (ready: bool)
      requires Valid()
      modifies this
      ensures Valid() && issued == old(issued)
      ensures ready <==> FrameReady(readBuffer)
      ensures old(FrameReady(readBuffer)) || old(closed) || !readable ==> View() == old(View())
      ensures !old(FrameReady(readBuffer)) && !old(closed) && readable ==>
                View() == if received.Lost? || received.data == [] then Close(old(View()))
                          else old(View()).(readBuffer := old(readBuffer) + received.data)
    {
      if FrameReady(readBuffer) { return true; }
      if closed || !readable { return false; }
      if received.Lost? || received.data == [] {
        CloseWithError();
        return false;
      }
      readBuffer := readBuffer + received.data;
      ready := FrameReady(readBuffer);
    }

    method Incoming() returns (packet: Frame)
      modifies this`readBuffer
      ensures TryDecode(old(readBuffer)).Some? ==>
                packet == TryDecode(old(readBuffer)).value.frame && readBuffer == TryDecode(old(readBuffer)).value.rest
      ensures TryDecode(old(readBuffer)).None? ==> packet == Frame(0, []) && readBuffer == old(readBuffer)
    {
      var ok, id, payload, rest := TryDecodeFrame(readBuffer);
      packet := if ok then Frame(id, payload) else Frame(0, []);
      readBuffer := rest;
    }

    /** Look-up, collection and, on END, fulfilment and removal of a request. A reply to a request that is
        still outgoing would leave it outgoing but no longer pending. */
    method HandleFrame(packet: Frame) returns (crashed: bool)
      requires Valid()
      modifies this`pending, this`promises
      ensures View() == DeliverFully(old(View()), packet).0
      ensures crashed <==> DeliverFully(old(View()), packet).1 == Crash
      ensures !crashed && (forall i :: 0 <= i < |outgoing| ==> outgoing[i].id != packet.id) ==> Valid()
    {
      hide Conserved;
      if packet.id !in pending || packet.id !in promises { return true; }
      ghost var start := View();
      pending := pending[packet.id := pending[packet.id] + [packet.payload]];
      if packet.payload == END {
        if promises[packet.id] != Waiting { return true; }
        promises := promises[packet.id := Fulfilled(pending[packet.id])];
        pending := pending[packet.id := []];
        DeliverConserves(start, issued, packet);
        if forall i :: 0 <= i < |outgoing| ==> outgoing[i].id != packet.id {
          RemoveConserves(View(), issued, packet.id);
        }
        pending := pending - {packet.id};
      } else {
        DeliverConserves(start, issued, packet);
      }
      crashed := false;
    }

    method HasOutgoingData() returns (b: bool)
      ensures b <==> !closed && outgoing != []
    {
      b := !closed && outgoing != [];
    }

    method PopOutgoing() returns (packet: Frame)
      requires Valid() && outgoing != []
      modifies this`outgoing
      ensures Valid() && [packet] + outgoing == old(outgoing)
    {
      packet := outgoing[0];
      outgoing := outgoing[1..];
    }

    method CloseWithError()
      requires Valid()
      modifies this
      ensures Valid() && View() == Close(old(View())) && issued == old(issued)
    {
      CloseConserves(View(), issued);
      closed := true;
      promises := map id | id in promises :: if id in pending then Failed else promises[id];
      pending := map[];
      outgoing := [];
    }
  }
}
