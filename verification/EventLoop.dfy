/** The handlers of src/server/event_loop.cpp, run by one thread between two
    waits. The loop's map holds each connection by value, its id with its
    undecoded and pending bytes; the handler of a client event works on the
    `Connection` object that such a value stands for.
 */
module EventLoops {
  import opened Wire
  import opened Kernel
  import opened FrameWriting
  import opened Connections
  import opened BoundedQueues
  import opened EventFds
  import opened Dispatching
  import opened ConnectionTables

  /** What accept4(2) returns, and whether epoll then takes the descriptor. */
  datatype AcceptOutcome = NewClient(fd: int, addOk: bool) | AcceptFailed(errno: int)

  /** A client event, with the answers it meets in the order in which it asks. */
  datatype ClientEvent = ClientEvent(
    hangup: bool,                  // EPOLLERR or EPOLLHUP
    readable: bool,                // EPOLLIN or EPOLLRDHUP
    bytes: Bytes,                  // received by `readAvailable`
    status: ReadStatus,
    taken: nat,                    // frames accepted by `trySubmit`
    sent: nat, writeFailed: bool,  // by `flushWrites`
    modifyOk: bool)

  /** accept4 never returns a descriptor that is already open. */
  predicate AcceptPossible(t: Table, o: AcceptOutcome) {
    o.NewClient? ==> o.fd >= 0 && o.fd !in t.open
  }

  function AfterAccept(t: Table, o: AcceptOutcome): Table {
    match o
    case NewClient(fd, addOk) => Accepted(t, fd, addOk)
    case AcceptFailed(_) => t
  }

  /** The accept loop after its first `n` answers. */
  function AfterAccepts(t: Table, outcomes: seq<AcceptOutcome>, n: nat): Table
    requires n <= |outcomes|
  {
    if n == 0 then t else AfterAccept(AfterAccepts(t, outcomes, n - 1), outcomes[n - 1])
  }

  ghost predicate AcceptsPossible(t: Table, outcomes: seq<AcceptOutcome>) {
    forall i :: 0 <= i < |outcomes| ==> AcceptPossible(AfterAccepts(t, outcomes, i), outcomes[i])
  }

  /** How many of the first `n` answers are new clients. */
  ghost function Newcomers(outcomes: seq<AcceptOutcome>, n: nat): nat
    requires n <= |outcomes|
  {
    if n == 0 then 0 else Newcomers(outcomes, n - 1) + (if outcomes[n - 1].NewClient? then 1 else 0)
  }

  lemma {:induction false} NewcomersCount(outcomes: seq<AcceptOutcome>, n: nat)
    requires n <= |outcomes|
    ensures Newcomers(outcomes, n) == |set i | 0 <= i < n && outcomes[i].NewClient?|
  {
    if n > 0 {
      NewcomersCount(outcomes, n - 1);
      var before := set i | 0 <= i < n - 1 && outcomes[i].NewClient?;
      assert (set i | 0 <= i < n && outcomes[i].NewClient?) ==
             if outcomes[n - 1].NewClient? then before + {n - 1} else before;
    }
  }

  /** What the first `n` answers make of the clients: nobody leaves, and each new
      client that epoll takes has the next id at its turn. */
  ghost predicate Joined(t: Table, outcomes: seq<AcceptOutcome>, n: nat, t': Table)
    requires n <= |outcomes|
  {
    && t'.nextId == t.nextId + Newcomers(outcomes, n)
    && (forall fd :: fd in t.conns ==> fd in t'.conns && t'.conns[fd] == t.conns[fd])
    && (forall i :: 0 <= i < n && outcomes[i].NewClient? && outcomes[i].addOk ==>
          && outcomes[i].fd in t'.conns
          && t'.conns[outcomes[i].fd] == Client(t.nextId + Newcomers(outcomes, i), [], []))
    && (forall fd :: fd in t'.conns ==> fd in t.conns || exists i :: 0 <= i < n && outcomes[i] == NewClient(fd, true))
  }

  /** What one answer makes of the clients. */
  predicate Joins(t: Table, o: AcceptOutcome, t': Table) {
    if o.NewClient? then
      && o.fd !in t.conns && t'.nextId == t.nextId + 1
      && t'.conns == if o.addOk then t.conns[o.fd := Client(t.nextId, [], [])] else t.conns
    else t'.nextId == t.nextId && t'.conns == t.conns
  }

  lemma JoinedStep(t: Table, outcomes: seq<AcceptOutcome>, n: nat, t1: Table, t2: Table)
    requires n < |outcomes| && Joined(t, outcomes, n, t1) && Joins(t1, outcomes[n], t2)
    ensures Joined(t, outcomes, n + 1, t2)
  {
    forall fd | fd in t2.conns
      ensures fd in t.conns || exists i :: 0 <= i < n + 1 && outcomes[i] == NewClient(fd, true)
    {
      if fd in t1.conns && fd !in t.conns {
        var i :| 0 <= i < n && outcomes[i] == NewClient(fd, true);
      } else if fd !in t1.conns {
        assert outcomes[n] == NewClient(fd, true);
      }
    }
  }

  lemma PossibleAt(t: Table, outcomes: seq<AcceptOutcome>, i: nat)
    requires AcceptsPossible(t, outcomes) && i < |outcomes|
    ensures AcceptPossible(AfterAccepts(t, outcomes, i), outcomes[i])
  {
  }

  lemma AcceptKeepsInv(t: Table, o: AcceptOutcome)
    requires TableInv(t) && AcceptPossible(t, o)
    ensures TableInv(AfterAccept(t, o)) && Joins(t, o, AfterAccept(t, o))
  {
    if o.NewClient? {
      AcceptedInv(t, o.fd, o.addOk);
    }
  }

  lemma {:induction false} AcceptsInv(t: Table, outcomes: seq<AcceptOutcome>, n: nat)
    requires TableInv(t) && AcceptsPossible(t, outcomes) && n <= |outcomes|
    ensures TableInv(AfterAccepts(t, outcomes, n))
  {
    if n > 0 {
      AcceptsInv(t, outcomes, n - 1);
      PossibleAt(t, outcomes, n - 1);
      AcceptKeepsInv(AfterAccepts(t, outcomes, n - 1), outcomes[n - 1]);
    }
  }

  lemma {:induction false} AcceptsJoin(t: Table, outcomes: seq<AcceptOutcome>, n: nat)
    requires TableInv(t) && AcceptsPossible(t, outcomes) && n <= |outcomes|
    ensures Joined(t, outcomes, n, AfterAccepts(t, outcomes, n))
  {
    if n > 0 {
      AcceptsJoin(t, outcomes, n - 1);
      AcceptsInv(t, outcomes, n - 1);
      PossibleAt(t, outcomes, n - 1);
      AcceptKeepsInv(AfterAccepts(t, outcomes, n - 1), outcomes[n - 1]);
      JoinedStep(t, outcomes, n - 1, AfterAccepts(t, outcomes, n - 1), AfterAccepts(t, outcomes, n));
    }
  }

  function AfterDispatches(t: Table, results: seq<Result>, modifyOk: seq<bool>): Table
    requires |modifyOk| == |results|
    decreases |results|
  {
    if results == [] then t
    else AfterDispatches(Dispatched(t, results[0], modifyOk[0]), results[1..], modifyOk[1..])
  }

  /** The responses among some results that are for connection `id` at `fd`. */
  function ResponsesTo(results: seq<Result>, fd: int, id: nat): seq<Payload> {
    if results == [] then []
    else
      var rest := ResponsesTo(results[1..], fd, id);
      if results[0].fd == fd && results[0].id == id && |results[0].response| <= MAX_PAYLOAD_SIZE
      then [results[0].response] + rest else rest
  }

  predicate IsFor(r: Result, fd: int, id: nat) {
    r.fd == fd && r.id == id
  }

  lemma {:induction false} DispatchesAddNobody(t: Table, results: seq<Result>, modifyOk: seq<bool>)
    requires |modifyOk| == |results|
    ensures AfterDispatches(t, results, modifyOk).conns.Keys <= t.conns.Keys
    decreases |results|
  {
    if results != [] {
      DispatchesAddNobody(Dispatched(t, results[0], modifyOk[0]), results[1..], modifyOk[1..]);
    }
  }

  lemma DispatchedTo(t: Table, r: Result, modifyOk: bool, fd: int)
    requires TableInv(t) && fd in t.conns
    ensures var c, t' := t.conns[fd], Dispatched(t, r, modifyOk);
            && TableInv(t')
            && (fd in t'.conns <==> (IsFor(r, fd, c.id) ==> |r.response| <= MAX_PAYLOAD_SIZE && modifyOk))
            && (fd in t'.conns ==>
                  t'.conns[fd] ==
                  if IsFor(r, fd, c.id) then c.(pending := c.pending + Encode(r.response)) else c)
  {
    DispatchedOutcome(t, r, modifyOk);
    DispatchedInv(t, r, modifyOk);
    if r.fd != fd {
      assert fd in t.conns - {r.fd} && (t.conns - {r.fd})[fd] == t.conns[fd];
    }
  }

  ghost predicate AllFit(results: seq<Result>, modifyOk: seq<bool>, fd: int, id: nat)
    requires |modifyOk| == |results|
  {
    forall i :: 0 <= i < |results| && IsFor(results[i], fd, id) ==>
      |results[i].response| <= MAX_PAYLOAD_SIZE && modifyOk[i]
  }

  lemma AllFitFirst(results: seq<Result>, modifyOk: seq<bool>, fd: int, id: nat)
    requires |modifyOk| == |results| && results != []
    ensures AllFit(results, modifyOk, fd, id) <==>
              && (IsFor(results[0], fd, id) ==> |results[0].response| <= MAX_PAYLOAD_SIZE && modifyOk[0])
              && AllFit(results[1..], modifyOk[1..], fd, id)
  {
    assert forall i :: 1 <= i < |results| ==> results[i] == results[1..][i - 1] && modifyOk[i] == modifyOk[1..][i - 1];
    if AllFit(results, modifyOk, fd, id) {
      assert forall i :: 0 <= i < |results| - 1 ==>
               results[1..][i] == results[i + 1] && modifyOk[1..][i] == modifyOk[i + 1];
    }
  }

  /** Dispatching a batch closes a connection exactly when a response for it is too
      long or epoll refuses behind one. */
  lemma {:induction false} DispatchesKeep(t: Table, results: seq<Result>, modifyOk: seq<bool>, fd: int)
    requires TableInv(t) && |modifyOk| == |results| && fd in t.conns
    ensures fd in AfterDispatches(t, results, modifyOk).conns <==> AllFit(results, modifyOk, fd, t.conns[fd].id)
    decreases |results|
  {
    if results != [] {
      var t1 := Dispatched(t, results[0], modifyOk[0]);
      DispatchedTo(t, results[0], modifyOk[0], fd);
      AllFitFirst(results, modifyOk, fd, t.conns[fd].id);
      DispatchesAddNobody(t1, results[1..], modifyOk[1..]);
      if fd in t1.conns {
        DispatchesKeep(t1, results[1..], modifyOk[1..], fd);
      }
    }
  }

  /** Otherwise it appends the encodings of the responses for it, in order. */
  lemma {:induction false} DispatchesAppend(t: Table, results: seq<Result>, modifyOk: seq<bool>, fd: int)
    requires TableInv(t) && |modifyOk| == |results| && fd in t.conns
    requires fd in AfterDispatches(t, results, modifyOk).conns
    ensures var c := t.conns[fd];
            AfterDispatches(t, results, modifyOk).conns[fd] ==
            c.(pending := c.pending + EncodeAll(ResponsesTo(results, fd, c.id)))
    decreases |results|
  {
    var c := t.conns[fd];
    if results == [] {
      AppendEmpty(c.pending);
    } else {
      var r, rest := results[0], results[1..];
      var t1 := Dispatched(t, r, modifyOk[0]);
      DispatchedTo(t, r, modifyOk[0], fd);
      DispatchesAddNobody(t1, rest, modifyOk[1..]);
      DispatchesAppend(t1, rest, modifyOk[1..], fd);
      if IsFor(r, fd, c.id) {
        EncodeAllCons(r.response, ResponsesTo(rest, fd, c.id));
        AppendAssociates(c.pending, Encode(r.response), EncodeAll(ResponsesTo(rest, fd, c.id)));
      }
    }
  }

  /** What a batch of results does to the clients. */
  lemma DispatchesOutcome(t: Table, results: seq<Result>, modifyOk: seq<bool>, fd: int)
    requires TableInv(t) && |modifyOk| == |results|
    ensures fd in AfterDispatches(t, results, modifyOk).conns <==>
              && fd in t.conns
              && forall i :: 0 <= i < |results| && results[i].fd == fd && results[i].id == t.conns[fd].id ==>
                   |results[i].response| <= MAX_PAYLOAD_SIZE && modifyOk[i]
    ensures fd in AfterDispatches(t, results, modifyOk).conns ==>
              AfterDispatches(t, results, modifyOk).conns[fd] ==
              t.conns[fd].(pending := t.conns[fd].pending + EncodeAll(ResponsesTo(results, fd, t.conns[fd].id)))
  {
    DispatchesAddNobody(t, results, modifyOk);
    if fd in t.conns {
      DispatchesKeep(t, results, modifyOk, fd);
      assert AllFit(results, modifyOk, fd, t.conns[fd].id) <==>
               forall i :: 0 <= i < |results| && results[i].fd == fd && results[i].id == t.conns[fd].id ==>
                 |results[i].response| <= MAX_PAYLOAD_SIZE && modifyOk[i];
      if fd in AfterDispatches(t, results, modifyOk).conns {
        DispatchesAppend(t, results, modifyOk, fd);
      }
    }
  }

  function TasksOf(fd: int, id: nat, frames: seq<Payload>): (r: seq<Task>)
    ensures |r| == |frames|
    ensures forall i :: 0 <= i < |r| ==> r[i] == Task(fd, id, frames[i])
  {
    seq(|frames|, i requires 0 <= i < |frames| => Task(fd, id, frames[i]))
  }

  function FramesRead(t: Table, fd: int, e: ClientEvent): Parsed
    requires fd in t.conns
  {
    Parse(t.conns[fd].unread + e.bytes)
  }

  /** The answers are ones the connection and the kernel can give. */
  predicate EventPossible(t: Table, fd: int, e: ClientEvent)
  {
    && (fd in t.conns && e.readable ==>
          && e.taken <= |FramesRead(t, fd, e).frames|
          && (e.status == ReadProtocolError <==>
                e.bytes != [] && FirstFrame(FramesRead(t, fd, e).rest) == PayloadTooLarge))
    && (fd in t.conns ==> e.sent <= |t.conns[fd].pending|)
    && (e.writeFailed ==> fd in t.conns && t.conns[fd].pending != [])
  }

  function AfterClientEvent(t: Table, fd: int, e: ClientEvent): Table
    requires EventPossible(t, fd, e)
  {
    if fd !in t.conns then t
    else if e.hangup then Closed(t, fd)
    else if !e.readable then Flushed(t, fd, e.sent, e.writeFailed, e.modifyOk)
    else
      var read := FramesRead(t, fd, e);
      var t1 := Received(t, fd, read.rest);
      if e.taken < |read.frames| || e.status != ReadReady then Closed(t1, fd)
      else Flushed(t1, fd, e.sent, e.writeFailed, e.modifyOk)
  }

  /** What submitting some frames one after the other does to a queue that nobody
      else touches meanwhile: the first ones that fit are accepted, in order. */
  predicate Submits(fd: int, id: nat, frames: seq<Payload>, healthy: bool, capacity: nat,
                    before: QueueState<Task>, after: QueueState<Task>, taken: nat) {
    && taken == (if fd < 0 || id == 0 || !healthy || before.closed || capacity < |before.items| then 0
                 else Min(|frames|, capacity - |before.items|))
    && after == before.(items := before.items + TasksOf(fd, id, frames)[..taken])
  }

  /** A read that leaves the connection as it was found: the stream is not broken,
      and nothing but an empty socket stops it. */
  ghost predicate ReadsOn(unread: Bytes, arriving: Bytes, stop: RecvOutcome) {
    && (arriving == [] || FirstFrame(Parse(unread + arriving).rest) != PayloadTooLarge)
    && stop == Failed(EAGAIN)
  }

  /** All that `readAvailable` promises of one read, in terms of values. */
  ghost predicate IsRead(unread: Bytes, arriving: Bytes, stop: RecvOutcome, read: ReadResult, bytes: Bytes)
    requires !Passes(stop)
  {
    && ReadsAll(unread, arriving, stop, read, bytes)
    && ReadSpec(unread, bytes, read.status, read.frames, Parse(unread + bytes).rest)
    && read.frames == Parse(unread + arriving).frames
    && (read.status == ReadReady <==> ReadsOn(unread, arriving, stop))
  }

  /** The value the loop's map has for a connection object. */
  ghost predicate Holds(connection: Connection, client: Client)
    reads connection, connection.socket, connection.decoder, connection.writeBuffer
  {
    && connection.Valid()
    && connection.decoder.Unread() == client.unread
    && connection.writeBuffer.Pending() == client.pending
  }

  class EventLoop {
    const reserved: set<int>
    var connections: map<int, Client>
    var nextConnectionId: nat
    var errorNumber: int
    var open: set<int>           // the kernel's
    var watched: map<int, bool>  // the kernel's

    function View(): Table
      reads this
    {
      Table(connections, nextConnectionId, reserved, open, watched)
    }

    constructor (reserved: set<int>)
      ensures View() == Table(map[], 1, reserved, reserved, map[]) && TableInv(View()) && errorNumber == 0
    {
      this.reserved := reserved;
      connections, nextConnectionId, errorNumber, open, watched := map[], 1, 0, reserved, map[];
    }

    /** The descriptor a client socket owns is closed with it. */
    method DestroySocket(fd: int)
      modifies this
      ensures View() == KernelClosed(old(View()), fd) && errorNumber == old(errorNumber)
    {
      open := open - {fd};
      watched := watched - {fd};
    }

    /** Handles the first `handled` answers, up to the one that ends the loop. */
    method AcceptReadyClients(outcomes: seq<AcceptOutcome>) returns (ok: bool, ghost handled: nat)
      requires TableInv(View()) && AcceptsPossible(View(), outcomes)
      modifies this
      ensures TableInv(View()) && handled <= |outcomes|
      ensures View() == AfterAccepts(old(View()), outcomes, handled)
      ensures forall i :: 0 <= i < handled && outcomes[i].AcceptFailed? ==> outcomes[i].errno == EINTR
      ensures handled < |outcomes| ==> outcomes[handled].AcceptFailed? && outcomes[handled].errno != EINTR
      ensures nextConnectionId == old(nextConnectionId) + Newcomers(outcomes, handled)
      ensures forall fd :: fd in old(connections) ==> fd in connections && connections[fd] == old(connections)[fd]
      ensures forall i :: 0 <= i < handled && outcomes[i].NewClient? && outcomes[i].addOk ==>
                && outcomes[i].fd in connections
                && connections[outcomes[i].fd] == Client(old(nextConnectionId) + Newcomers(outcomes, i), [], [])
      ensures forall fd :: fd in connections ==>
                fd in old(connections) || exists i :: 0 <= i < handled && outcomes[i] == NewClient(fd, true)
      ensures ok <==> handled == |outcomes| || outcomes[handled].errno == EAGAIN
      ensures errorNumber == if ok then old(errorNumber) else outcomes[handled].errno
    {
      ok, handled := true, 0;
      var next: nat := 0;
      while next < |outcomes|
        invariant next == handled <= |outcomes| && ok && errorNumber == old(errorNumber)
        invariant forall i :: 0 <= i < handled && outcomes[i].AcceptFailed? ==> outcomes[i].errno == EINTR
        invariant View() == AfterAccepts(old(View()), outcomes, handled)
      {
        var outcome := outcomes[next];
        next := next + 1;
        match outcome
        case NewClient(fd, addOk) =>
          AcceptOne(fd, addOk);
          handled := handled + 1;
        case AcceptFailed(errno) =>
          if errno == EINTR {
            handled := handled + 1;
            continue;
          }
          if errno != EAGAIN {
            errorNumber, ok := errno, false;
          }
          break;
      }
      AcceptsInv(old(View()), outcomes, handled);
      AcceptsJoin(old(View()), outcomes, handled);
    }

    /** A new socket gets the next id; it is closed again when its descriptor is
        taken or when epoll does not accept it. */
    method AcceptOne(fd: int, addOk: bool)
      modifies this
      ensures View() == Accepted(old(View()), fd, addOk) && errorNumber == old(errorNumber)
      ensures nextConnectionId == old(nextConnectionId) + 1
      ensures connections == if addOk && fd !in old(connections)
                             then old(connections)[fd := Client(old(nextConnectionId), [], [])] else old(connections)
    {
      var id := nextConnectionId;
      nextConnectionId := nextConnectionId + 1;
      open := open + {fd};
      if fd in connections {
        DestroySocket(fd);
        return;
      }
      connections := connections[fd := Client(id, [], [])];
      if !addOk {
        connections := connections - {fd};
        assert connections == old(connections);
        DestroySocket(fd);
        return;
      }
      watched := watched[fd := false];
    }

    method CloseConnection(fd: int)
      modifies this
      ensures View() == Closed(old(View()), fd) && errorNumber == old(errorNumber)
      ensures connections == old(connections) - {fd} && nextConnectionId == old(nextConnectionId)
      ensures fd in old(connections) ==> open == old(open) - {fd} && watched == old(watched) - {fd}
      ensures fd !in old(connections) ==> open == old(open) && watched == old(watched)
    {
      if fd !in connections {
        return;
      }
      watched := watched - {fd};
      connections := connections - {fd};
      DestroySocket(fd);
    }

    method UpdateInterest(fd: int, modifyOk: bool) returns (ok: bool)
      requires fd in connections
      modifies `watched
      ensures ok == ModifySucceeds(old(View()), fd, modifyOk) && (ok <==> modifyOk && fd in old(watched))
      ensures watched == if ok then old(watched)[fd := connections[fd].pending != []] else old(watched)
    {
      ok := modifyOk && fd in watched;
      if ok {
        watched := watched[fd := connections[fd].pending != []];
      }
    }

    /** Consumes the notification first and takes the results second: either both
        happen and every result is dispatched, or nothing changes. */
    method HandleProcessingResults(dispatcher: ProcessingDispatcher, script: seq<Hindrance>, modifyOk: seq<bool>)
      returns (ok: bool)
      requires dispatcher.Valid() && TableInv(View()) && |modifyOk| == |dispatcher.completed|
      modifies this, dispatcher`completed, dispatcher.notifier
      ensures dispatcher.Valid() && TableInv(View())
      ensures || (&& ok && old(dispatcher.notifier.counter) > 0 && dispatcher.notifier.counter == 0
                  && dispatcher.completed == [] && errorNumber == old(errorNumber)
                  && View() == AfterDispatches(old(View()), old(dispatcher.completed), modifyOk))
              || (&& dispatcher.notifier.counter == old(dispatcher.notifier.counter)
                  && dispatcher.completed == old(dispatcher.completed) && View() == old(View())
                  && (ok ==> dispatcher.notifier.counter == 0 && errorNumber == old(errorNumber))
                  && (!ok ==> errorNumber != 0 && errorNumber != EAGAIN))
      ensures Decisive(script) == Interrupted && dispatcher.notifier.fd >= 0 ==>
                ok && (dispatcher.completed == [] || old(dispatcher.notifier.counter) == 0)
      ensures ok <==> dispatcher.notifier.fd >= 0 && Decisive(script) == Interrupted
      ensures errorNumber == if ok then old(errorNumber)
                             else if dispatcher.notifier.fd < 0 then EBADF
                             else if Decisive(script) == Partial then EIO else Decisive(script).errno
    {
      var notification := dispatcher.notifier.Consume(script);
      if !notification.success {
        if notification.errorNumber == EAGAIN {
          return true;
        }
        errorNumber := notification.errorNumber;
        return false;
      }
      var results := dispatcher.TakeCompleted();
      DispatchResults(results, modifyOk);
      return true;
    }

    /** The dispatch loop over the results taken from the dispatcher. */
    method DispatchResults(results: seq<Result>, modifyOk: seq<bool>)
      requires TableInv(View()) && |modifyOk| == |results|
      modifies this
      ensures TableInv(View()) && View() == AfterDispatches(old(View()), results, modifyOk)
      ensures errorNumber == old(errorNumber)
    {
      var next: nat := 0;
      while next < |results|
        invariant next <= |results| && errorNumber == old(errorNumber) && TableInv(View())
        invariant AfterDispatches(View(), results[next..], modifyOk[next..]) ==
                  AfterDispatches(old(View()), results, modifyOk)
      {
        var result, ok := results[next], modifyOk[next];
        assert results[next..][1..] == results[next + 1..] && modifyOk[next..][1..] == modifyOk[next + 1..];
        next := next + 1;
        DispatchedInv(View(), result, ok);
        DispatchOne(result, ok);
      }
    }

    method DispatchOne(result: Result, modifyOk: bool)
      modifies this
      ensures View() == Dispatched(old(View()), result, modifyOk) && errorNumber == old(errorNumber)
      ensures result.fd !in old(connections) || old(connections)[result.fd].id != result.id ==>
                View() == old(View())
      ensures result.fd in old(connections) && old(connections)[result.fd].id == result.id ==>
                var client := old(connections)[result.fd];
                connections == if |result.response| <= MAX_PAYLOAD_SIZE && modifyOk && result.fd in old(watched)
                               then old(connections)[result.fd :=
                                      client.(pending := client.pending + Encode(result.response))]
                               else old(connections) - {result.fd}
    {
      if result.fd !in connections {
        return;
      }
      var client := connections[result.fd];
      if client.id != result.id {
        return;
      }
      if |result.response| > MAX_PAYLOAD_SIZE {
        CloseConnection(result.fd);
        return;
      }
      connections := connections[result.fd := client.(pending := client.pending + Encode(result.response))];
      var ok := UpdateInterest(result.fd, modifyOk);
      if !ok {
        CloseConnection(result.fd);
        assert connections == old(connections) - {result.fd};
      }
    }

    /** Reads, submits, flushes and updates the interest, as far as it gets; `e`
        says what it met on the way. */
    method HandleClientEvent(fd: int, connection: Connection, dispatcher: ProcessingDispatcher,
                             hangup: bool, readable: bool, modifyOk: bool)
      returns (ghost e: ClientEvent, ghost read: ReadResult)
      requires dispatcher.Valid()
      requires fd in connections ==> Holds(connection, connections[fd])
      modifies this, dispatcher.queue
      modifies connection`frames, connection.decoder, connection.writeBuffer, connection.socket
      ensures dispatcher.Valid()
      ensures e.hangup == hangup && e.readable == readable && e.modifyOk == modifyOk
      ensures EventPossible(old(View()), fd, e) && View() == AfterClientEvent(old(View()), fd, e)
      ensures fd in connections ==> Holds(connection, connections[fd])
      ensures fd in old(connections) && !hangup && readable ==>
                && ReadsAll(old(connections)[fd].unread, Arriving(old(connection.socket.incoming)),
                            RecvStop(old(connection.socket.incoming)), read, e.bytes)
                && e.status == read.status && read.frames == FramesRead(old(View()), fd, e).frames
                && Submits(fd, old(connections)[fd].id, read.frames, dispatcher.Healthy(), dispatcher.queue.capacity,
                           old(dispatcher.queue.State()), dispatcher.queue.State(), e.taken)
      ensures fd !in old(connections) || hangup || !readable ==>
                dispatcher.queue.State() == old(dispatcher.queue.State())
      ensures fd in old(connections) && !hangup
              && (readable ==> e.taken == |read.frames| && read.status == ReadReady) ==>
                && e.sent == Min(|old(connections)[fd].pending|, Room(old(connection.socket.outgoing)))
                && (e.writeFailed <==> Room(old(connection.socket.outgoing)) < |old(connections)[fd].pending|
                                       && SendStop(old(connection.socket.outgoing)) != EAGAIN)
      ensures fd in old(connections) && !hangup && readable ==>
                && read.frames == Parse(old(connections)[fd].unread + Arriving(old(connection.socket.incoming))).frames
                && e.taken <= |read.frames|
                && dispatcher.queue.queue ==
                   old(dispatcher.queue.queue) + TasksOf(fd, old(connections)[fd].id, read.frames)[..e.taken]
                && (e.taken < |read.frames| ==>
                      fd < 0 || old(connections)[fd].id == 0 || !dispatcher.Healthy() || dispatcher.queue.closed
                      || |dispatcher.queue.queue| >= dispatcher.queue.capacity)
      ensures fd in connections <==>
                && fd in old(connections) && !hangup
                && (readable ==>
                      && e.taken == |read.frames|
                      && (Arriving(old(connection.socket.incoming)) == []
                          || FirstFrame(Parse(old(connections)[fd].unread
                                              + Arriving(old(connection.socket.incoming))).rest) != PayloadTooLarge)
                      && RecvStop(old(connection.socket.incoming)) == Failed(EAGAIN))
                && (|old(connections)[fd].pending| <= Room(old(connection.socket.outgoing))
                    || SendStop(old(connection.socket.outgoing)) == EAGAIN)
                && modifyOk && fd in old(watched)
    {
      e := ClientEvent(hangup, readable, [], ReadReady, 0, 0, false, modifyOk);
      read := ReadResult(ReadReady, [], 0);
      if fd !in connections {
        return;
      }
      if hangup {
        CloseConnection(fd);
        return;
      }
      e, read := ServeClient(fd, connection, dispatcher, readable, modifyOk);
    }

    /** The rest of the handler, for a client that is there and did not hang up. */
    method ServeClient(fd: int, connection: Connection, dispatcher: ProcessingDispatcher,
                       readable: bool, modifyOk: bool)
      returns (ghost e: ClientEvent, ghost read: ReadResult)
      requires dispatcher.Valid() && fd in connections && Holds(connection, connections[fd])
      modifies this, dispatcher.queue
      modifies connection`frames, connection.decoder, connection.writeBuffer, connection.socket
      ensures dispatcher.Valid()
      ensures !e.hangup && e.readable == readable && e.modifyOk == modifyOk
      ensures EventPossible(old(View()), fd, e) && View() == AfterClientEvent(old(View()), fd, e)
      ensures fd in connections ==> Holds(connection, connections[fd])
      ensures readable ==>
                && IsRead(old(connections)[fd].unread, Arriving(old(connection.socket.incoming)),
                          RecvStop(old(connection.socket.incoming)), read, e.bytes)
                && e.status == read.status
                && Submits(fd, old(connections)[fd].id, read.frames, dispatcher.Healthy(), dispatcher.queue.capacity,
                           old(dispatcher.queue.State()), dispatcher.queue.State(), e.taken)
      ensures !readable ==> dispatcher.queue.State() == old(dispatcher.queue.State())
      ensures (readable ==> e.taken == |read.frames| && read.status == ReadReady) ==>
                && e.sent == Min(|old(connections)[fd].pending|, Room(old(connection.socket.outgoing)))
                && (e.writeFailed <==> Room(old(connection.socket.outgoing)) < |old(connections)[fd].pending|
                                       && SendStop(old(connection.socket.outgoing)) != EAGAIN)
      ensures fd in connections <==>
                && (readable ==> e.taken == |read.frames| && read.status == ReadReady)
                && !e.writeFailed && modifyOk && fd in old(watched)
    {
      e := ClientEvent(false, readable, [], ReadReady, 0, 0, false, modifyOk);
      read := ReadResult(ReadReady, [], 0);
      if readable {
        var open, result, taken, bytes := ReadClient(fd, connection, dispatcher);
        read, e := result, e.(bytes := bytes, status := result.status, taken := taken);
        if !open {
          return;
        }
      }
      ghost var t1 := View();
      assert t1 == if readable then Received(old(View()), fd, FramesRead(old(View()), fd, e).rest) else old(View());
      assert connections[fd].pending == old(connections)[fd].pending;
      ghost var sent, writeFailed := FinishClientEvent(fd, connection, modifyOk);
      assert View() == Flushed(t1, fd, sent, writeFailed, modifyOk);
      e := e.(sent := sent, writeFailed := writeFailed);
    }

    /** `readAvailable`, and then one submission for each frame; a frame refused
        closes the connection, and so does any end of the read but the usual one. */
    method ReadClient(fd: int, connection: Connection, dispatcher: ProcessingDispatcher)
      returns (open: bool, read: ReadResult, taken: nat, ghost bytes: Bytes)
      requires dispatcher.Valid() && fd in connections && Holds(connection, connections[fd])
      modifies this, dispatcher.queue, connection`frames, connection.decoder
      modifies connection.socket`incoming, connection.socket`received
      ensures dispatcher.Valid() && connection.Valid() && taken <= |read.frames|
      ensures IsRead(old(connections)[fd].unread, Arriving(old(connection.socket.incoming)),
                     RecvStop(old(connection.socket.incoming)), read, bytes)
      ensures connection.decoder.Unread() == Parse(old(connections)[fd].unread + bytes).rest
      ensures Submits(fd, old(connections)[fd].id, read.frames, dispatcher.Healthy(), dispatcher.queue.capacity,
                      old(dispatcher.queue.State()), dispatcher.queue.State(), taken)
      ensures open <==> taken == |read.frames| && read.status == ReadReady
      ensures var t1 := Received(old(View()), fd, connection.decoder.Unread());
              View() == if open then t1 else Closed(t1, fd)
      ensures fd in connections <==> open
      ensures open ==> connections[fd].pending == old(connections)[fd].pending && watched == old(watched)
    {
      read, bytes := ReadInto(fd, connection);
      taken := SubmitFrames(fd, connections[fd].id, read.frames, dispatcher);
      open := taken == |read.frames| && read.status == ReadReady;
      if taken < |read.frames| {
        CloseConnection(fd);
        return;
      }
      if read.status != ReadReady {
        CloseConnection(fd);
      }
    }

    /** `readAvailable`, and what it leaves in the map. */
    method ReadInto(fd: int, connection: Connection) returns (read: ReadResult, ghost bytes: Bytes)
      requires fd in connections && Holds(connection, connections[fd])
      modifies `connections, connection`frames, connection.decoder
      modifies connection.socket`incoming, connection.socket`received
      ensures connection.Valid()
      ensures IsRead(old(connections)[fd].unread, Arriving(old(connection.socket.incoming)),
                     RecvStop(old(connection.socket.incoming)), read, bytes)
      ensures connection.decoder.Unread() == Parse(old(connections)[fd].unread + bytes).rest
      ensures connections == old(connections)[fd := old(connections)[fd].(unread := connection.decoder.Unread())]
    {
      var client := connections[fd];
      read, bytes := connection.ReadAvailable();
      connections := connections[fd := client.(unread := connection.decoder.Unread())];
    }

    method SubmitFrames(fd: int, id: nat, frames: seq<Payload>, dispatcher: ProcessingDispatcher) returns (taken: nat)
      requires dispatcher.Valid()
      modifies dispatcher.queue
      ensures dispatcher.Valid() && taken <= |frames|
      ensures Submits(fd, id, frames, dispatcher.Healthy(), dispatcher.queue.capacity,
                      old(dispatcher.queue.State()), dispatcher.queue.State(), taken)
      ensures dispatcher.queue.queue == old(dispatcher.queue.queue) + TasksOf(fd, id, frames)[..taken]
      ensures dispatcher.queue.closed == old(dispatcher.queue.closed)
      ensures taken < |frames| <==>
                frames != [] && (fd < 0 || id == 0 || dispatcher.notifier.fd < 0 || dispatcher.errorNumber != 0
                                 || old(dispatcher.queue.closed)
                                 || dispatcher.queue.capacity - old(|dispatcher.queue.queue|) < |frames|)
    {
      taken := 0;
      ghost var tasks, before := TasksOf(fd, id, frames), dispatcher.queue.State();
      AppendEmpty(before.items);
      while taken < |frames|
        invariant taken <= |frames| && dispatcher.Valid()
        invariant dispatcher.queue.State() == before.(items := before.items + tasks[..taken])
        invariant taken > 0 ==> fd >= 0 && id != 0 && dispatcher.Healthy() && !before.closed
      {
        var status := dispatcher.TrySubmit(Task(fd, id, frames[taken]));
        if status != Submitted {
          return;
        }
        AppendAssociates(before.items, tasks[..taken], [tasks[taken]]);
        assert tasks[..taken + 1] == tasks[..taken] + [tasks[taken]];
        taken := taken + 1;
      }
    }

    /** `flushWrites` when there is something to send, then `updateInterest`. */
    method FinishClientEvent(fd: int, connection: Connection, modifyOk: bool)
      returns (ghost sent: nat, ghost writeFailed: bool)
      requires fd in connections && Holds(connection, connections[fd])
      modifies this, connection.writeBuffer, connection.socket`outgoing, connection.socket`wire
      ensures connection.Valid()
      ensures fd in connections ==> connection.writeBuffer.Pending() == connections[fd].pending
      ensures sent <= |old(connections)[fd].pending| && (writeFailed ==> old(connections)[fd].pending != [])
      ensures View() == Flushed(old(View()), fd, sent, writeFailed, modifyOk)
      ensures sent == Min(|old(connections)[fd].pending|, Room(old(connection.socket.outgoing)))
      ensures writeFailed <==>
                Room(old(connection.socket.outgoing)) < |old(connections)[fd].pending|
                && SendStop(old(connection.socket.outgoing)) != EAGAIN
      ensures fd in connections <==> !writeFailed && modifyOk && fd in old(watched)
    {
      var client := connections[fd];
      sent, writeFailed := 0, false;
      NothingSent(connections, fd);
      if connection.WantsWrite() {
        var flush, bytes := connection.FlushWrites();
        sent, writeFailed := flush.bytesTransferred, flush.status == FlushError;
        Unsent(client.pending, bytes, connection.writeBuffer.Pending());
        connections := connections[fd := client.(pending := connection.writeBuffer.Pending())];
        if flush.status == FlushError {
          CloseConnection(fd);
          return;
        }
      }
      var ok := UpdateInterest(fd, modifyOk);
      if !ok {
        CloseConnection(fd);
      }
    }
  }

  lemma Unsent(pending: Bytes, taken: Bytes, left: Bytes)
    requires pending == taken + left
    ensures left == pending[|taken|..]
  {
  }

  lemma NothingSent(conns: map<int, Client>, fd: int)
    requires fd in conns
    ensures conns[fd := conns[fd].(pending := conns[fd].pending[0..])] == conns
  {
  }

  lemma ClientEventInv(t: Table, fd: int, e: ClientEvent)
    requires TableInv(t) && EventPossible(t, fd, e)
    ensures TableInv(AfterClientEvent(t, fd, e))
  {
    if fd in t.conns {
      ClosedInv(t, fd);
      FlushedInv(t, fd, e.sent, e.writeFailed, e.modifyOk);
      if !e.hangup && e.readable {
        var t1 := Received(t, fd, FramesRead(t, fd, e).rest);
        ReceivedInv(t, fd, FramesRead(t, fd, e).rest);
        ClosedInv(t1, fd);
        FlushedInv(t1, fd, e.sent, e.writeFailed, e.modifyOk);
      }
    }
  }

  lemma ReadableOutcome(t: Table, fd: int, e: ClientEvent)
    requires TableInv(t) && fd in t.conns && EventPossible(t, fd, e) && !e.hangup && e.readable
    ensures fd in AfterClientEvent(t, fd, e).conns <==>
              e.taken == |FramesRead(t, fd, e).frames| && e.status == ReadReady && !e.writeFailed && e.modifyOk
    ensures AfterClientEvent(t, fd, e).conns - {fd} == t.conns - {fd}
  {
    var read := FramesRead(t, fd, e);
    var t1 := Received(t, fd, read.rest);
    ReceivedInv(t, fd, read.rest);
    assert t1.conns - {fd} == t.conns - {fd};
    if e.taken < |read.frames| || e.status != ReadReady {
      assert AfterClientEvent(t, fd, e) == Closed(t1, fd);
    } else {
      assert AfterClientEvent(t, fd, e) == Flushed(t1, fd, e.sent, e.writeFailed, e.modifyOk);
      FlushedOutcome(t1, fd, e.sent, e.writeFailed, e.modifyOk);
    }
  }

  /** A client survives an event exactly when there was no hangup, every frame
      was accepted, the stream is neither ended nor broken, and neither the write
      nor epoll failed; no event touches another client. */
  lemma SurvivesIff(t: Table, fd: int, e: ClientEvent)
    requires TableInv(t) && fd in t.conns && EventPossible(t, fd, e)
    ensures fd in AfterClientEvent(t, fd, e).conns <==>
              && !e.hangup && !e.writeFailed && e.modifyOk
              && (e.readable ==> e.status == ReadReady && e.taken == |FramesRead(t, fd, e).frames|)
    ensures AfterClientEvent(t, fd, e).conns - {fd} == t.conns - {fd}
  {
    if !e.hangup && !e.readable {
      FlushedOutcome(t, fd, e.sent, e.writeFailed, e.modifyOk);
    } else if !e.hangup {
      ReadableOutcome(t, fd, e);
    }
  }
}
