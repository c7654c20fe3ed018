/** What the server promises a client, for every run of it. */
module ServerTheorems {
  import opened Wire
  import opened Kernel
  import opened EventFds
  import opened Dispatching
  import opened EventLoops
  import opened ServerModel
  import opened ServerSafety
  import opened ServerConservation
  import TP = ThreadPoolModel
  import TPT = ThreadPoolTheorems

  ghost predicate Reachable(respond: Responder, s: Server) {
    exists s0: Server, run: seq<Step> :: Initial(s0) && Run(respond, s0, run, s)
  }

  lemma ReachableInv(respond: Responder, s: Server)
    requires Reachable(respond, s)
    ensures ServerInv(respond, s)
  {
    var s0: Server, run: seq<Step> :| Initial(s0) && Run(respond, s0, run, s);
    InitialServerInv(respond, s0);
    RunServerInv(respond, s0, run, s);
  }

  lemma {:induction false} PoolOfRun(respond: Responder, s: Server, run: seq<Step>, s': Server)
    requires TP.Reachable(s.pool) && Run(respond, s, run, s')
    ensures TP.Reachable(s'.pool)
    decreases |run|
  {
    if run != [] {
      var s1 := Next(respond, s, run[0]);
      PoolProjection(respond, s, run[0]);
      if s1.pool != s.pool {
        TP.NextReachable(s.pool, PoolActionOf(s, run[0]));
      }
      PoolOfRun(respond, s1, run[1..], s');
    }
  }

  /** The pool of the server is in a state that the pool alone can reach. */
  lemma PoolReachable(respond: Responder, s: Server)
    requires Reachable(respond, s)
    ensures TP.Reachable(s.pool)
  {
    var s0: Server, run: seq<Step> :| Initial(s0) && Run(respond, s0, run, s);
    TP.InitialReachable(s0.pool);
    PoolOfRun(respond, s0, run, s);
  }

  /** Conservation over every interleaving, for every connection and every
      possible result on it: the frames owing it are those not yet submitted, in
      the queue, with a worker, in the result list, in the loop's batch, or
      answered; a connection that is gone may miss some. */
  lemma Conservation(respond: Responder, s: Server, r: Result)
    requires Reachable(respond, s) && r.id in s.hist
    ensures var owed := Times(r, Owed(respond, s.hist[r.id], r.id));
            var accounted := DueTimes(respond, r, Unsubmitted(s.loop)) + DueTimes(respond, r, s.pool.queue.items)
                             + Held(respond, r, s.pool.workers) + Times(r, s.completed) + Times(r, Batch(s.loop))
                             + Times(r, Enqueued(s.hist[r.id], r.id));
            owed >= accounted && (IsOpen(s, r.id) ==> owed == accounted)
  {
    ReachableInv(respond, s);
    assert Conserved(respond, s, r);
  }

  /** No lost notification: a stored result is announced by the counter, unless a
      worker is about to announce it, the loop is about to take it, or a failure
      other than a full counter has been recorded. */
  lemma NoLostNotification(respond: Responder, s: Server)
    requires Reachable(respond, s) && s.completed != [] && s.error == 0
    ensures s.counter > 0 || s.loop == Consumed || exists w: nat :: w < |s.pool.workers| && s.pool.workers[w].Ran?
  {
    ReachableInv(respond, s);
    if SomeRan(s.pool) {
      var w :| 0 <= w < |s.pool.workers| && s.pool.workers[w].Ran?;
    }
  }

  /** The loop's map, the kernel's descriptors and epoll's registrations agree. */
  lemma TablesAgree(respond: Responder, s: Server)
    requires Reachable(respond, s)
    ensures s.table.watched.Keys == s.table.conns.Keys
    ensures s.table.open == s.table.reserved + s.table.conns.Keys && s.table.reserved !! s.table.conns.Keys
    ensures forall fd :: fd in s.table.conns ==>
              && 0 < s.table.conns[fd].id < s.table.nextId
              && IsOpen(s, s.table.conns[fd].id) && s.hist[s.table.conns[fd].id].fd == fd
              && (s.table.watched[fd] <==> s.table.conns[fd].pending != [])
    ensures forall fd, fd' :: fd in s.table.conns && fd' in s.table.conns && fd != fd' ==>
              s.table.conns[fd].id != s.table.conns[fd'].id
  {
    ReachableInv(respond, s);
  }

  /** No task or result of connection `id` is anywhere between decoder and
      write buffer. */
  predicate NothingInFlight(s: Server, id: nat) {
    && (s.loop.Submitting? && s.loop.id == id ==> s.loop.frames == [])
    && (forall i :: 0 <= i < |s.pool.queue.items| ==> s.pool.queue.items[i].id != id)
    && (forall w :: 0 <= w < |s.pool.workers| && s.pool.workers[w].Running? ==> s.pool.workers[w].task.id != id)
    && (forall i :: 0 <= i < |s.completed| ==> s.completed[i].id != id)
    && (s.loop.Delivering? ==> forall i :: 0 <= i < |s.loop.batch| ==> s.loop.batch[i].id != id)
  }

  lemma {:induction false} NoneHeld(respond: Responder, ws: seq<TP.Worker<Task>>, r: Result)
    requires forall w :: 0 <= w < |ws| && ws[w].Running? ==> ws[w].task.id != r.id
    ensures Held(respond, r, ws) == 0
  {
    if ws != [] {
      NoneHeld(respond, ws[1..], r);
    }
  }

  lemma NoneInFlight(respond: Responder, s: Server, r: Result)
    requires NothingInFlight(s, r.id)
    ensures InFlight(respond, s, r) == 0
  {
    NoneHeld(respond, s.pool.workers, r);
    assert r !in Processed(respond, Unsubmitted(s.loop));
    assert r !in Processed(respond, s.pool.queue.items);
    assert r !in s.completed && r !in Batch(s.loop);
  }

  /** Responses enqueued on a connection answer frames decoded on that same
      connection, each at most once; all of them once nothing is in flight. */
  lemma AnswersItsOwnFrames(respond: Responder, s: Server, id: nat)
    requires ServerInv(respond, s) && id in s.hist
    ensures multiset(Enqueued(s.hist[id], id)) <= multiset(Owed(respond, s.hist[id], id))
    ensures IsOpen(s, id) && NothingInFlight(s, id) ==>
              multiset(Enqueued(s.hist[id], id)) == multiset(Owed(respond, s.hist[id], id))
  {
    var enqueued, owed := Enqueued(s.hist[id], id), Owed(respond, s.hist[id], id);
    forall r: Result
      ensures multiset(enqueued)[r] <= multiset(owed)[r]
      ensures IsOpen(s, id) && NothingInFlight(s, id) ==> multiset(enqueued)[r] == multiset(owed)[r]
    {
      if r.id == id {
        assert Conserved(respond, s, r);
        assert Times(r, enqueued) == multiset(enqueued)[r] && Times(r, owed) == multiset(owed)[r];
        if NothingInFlight(s, id) {
          NoneInFlight(respond, s, r);
        }
      } else {
        assert r !in enqueued && r !in owed;
      }
    }
  }

  /** The main theorem: for every connection the server ever accepted, in every
      reachable state,
      - its frames are the parse of the bytes received on it;
      - the bytes sent to it are a prefix of the encoding of its responses, and
        with the pending bytes, while it is open, all of it;
      - whoever parses the bytes sent gets a prefix of these responses;
      - the responses answer its own frames, each at most once, and exactly once
        when the connection is open and nothing of it is in flight. */
  lemma EndToEnd(respond: Responder, s: Server, id: nat)
    requires Reachable(respond, s) && id in s.hist
    ensures var h := s.hist[id];
            && Parse(h.received).frames == h.frames
            && h.sent <= EncodeAll(h.delivered)
            && (IsOpen(s, id) ==> h.sent + s.table.conns[h.fd].pending == EncodeAll(h.delivered))
            && Parse(h.sent).frames <= h.delivered
            && multiset(Enqueued(h, id)) <= multiset(Owed(respond, h, id))
            && |h.delivered| <= |h.frames|
            && (IsOpen(s, id) && NothingInFlight(s, id) ==>
                  multiset(Enqueued(h, id)) == multiset(Owed(respond, h, id)) && |h.delivered| == |h.frames|)
  {
    ReachableInv(respond, s);
    var h := s.hist[id];
    assert Past(h);
    PrefixDecodesToPrefix(h.sent, h.delivered);
    AnswersItsOwnFrames(respond, s, id);
    SizesFollow(Enqueued(h, id), Owed(respond, h, id));
  }

  lemma SizesFollow(a: seq<Result>, b: seq<Result>)
    requires multiset(a) <= multiset(b)
    ensures |a| <= |b| && (multiset(a) == multiset(b) ==> |a| == |b|)
  {
    assert |multiset(a)| == |a| && |multiset(b)| == |b|;
    assert multiset(b) == multiset(a) + (multiset(b) - multiset(a));
  }

  /** No cross-delivery, however descriptors are reused: every response on a
      connection is the answer to a frame that came in on it. */
  lemma NoCrossDelivery(respond: Responder, s: Server, id: nat, i: nat)
    requires Reachable(respond, s) && id in s.hist && i < |s.hist[id].delivered|
    ensures exists j :: 0 <= j < |s.hist[id].frames|
              && s.hist[id].delivered[i] == respond(Task(s.hist[id].fd, id, s.hist[id].frames[j]))
  {
    ReachableInv(respond, s);
    AnswersItsOwnFrames(respond, s, id);
    var h := s.hist[id];
    var r := Enqueued(h, id)[i];
    assert r in multiset(Enqueued(h, id));
    assert r in Owed(respond, h, id);
    var j :| 0 <= j < |h.frames| && Owed(respond, h, id)[j] == r;
    assert TasksOf(h.fd, id, h.frames)[j] == Task(h.fd, id, h.frames[j]);
  }

  /** A step that waits for nothing from outside: no client, no call of `stop`,
      no failure of the kernel and no spurious wakeup. */
  predicate Internal(step: Step) {
    match step
    case Background(a) => a.NotifyOne? || a.Check?
    case Consume(r) => r.success
    case PublishPush(_) => true
    case PublishNotify(_, _) => true
    case Take => true
    case Deliver(_) => true
    case Admit => true
    case Submit => true
    case ReadDone => true
    case Flush(_, _, _) => true
    case _ => false
  }

  /** The server cannot move on its own. */
  ghost predicate Stuck(s: Server) {
    forall step: Step :: Internal(step) ==> !Enabled(s, step)
  }

  /** The loop waits and the counter would not wake it, no notification is in
      flight, and no worker is awake. */
  predicate Quiet(s: Server) {
    && s.loop == Polling && s.counter == 0 && s.pool.notifying == 0
    && forall w :: 0 <= w < |s.pool.workers| ==> s.pool.workers[w] == TP.Waiting || s.pool.workers[w] == TP.Exited
  }

  lemma WorkerStep(s: Server, w: nat) returns (step: Step)
    requires s.counter <= COUNTER_MAX && w < |s.pool.workers|
    requires s.pool.workers[w] != TP.Waiting && s.pool.workers[w] != TP.Exited
    ensures Internal(step) && Enabled(s, step)
  {
    if s.pool.workers[w] == TP.Ready {
      step := Background(TP.Check(w));
    } else if s.pool.workers[w].Running? {
      step := PublishPush(w);
    } else if s.counter < COUNTER_MAX {
      step := PublishNotify(w, NotifyResult(true, 0));
    } else {
      step := PublishNotify(w, NotifyResult(false, EAGAIN));
    }
  }

  lemma LoopStep(s: Server) returns (step: Step)
    requires LoopInv(s) && s.counter <= COUNTER_MAX && s.pool.notifying == 0
    requires s.loop != Returned && (s.loop == Polling ==> s.counter > 0)
    ensures Internal(step) && Enabled(s, step)
  {
    match s.loop
    case Polling => step := Consume(ConsumeResult(true, s.counter, 0));
    case Consumed => step := Take;
    case Delivering(_) => step := Deliver(true);
    case Submitting(_, _, frames, _, admitted) =>
      step := if frames == [] then ReadDone else if admitted then Submit else Admit;
    case Flushing(_) => step := Flush(0, false, true);
  }

  lemma NotifyStep(p: TP.Pool<Task>) returns (a: TP.Action<Task>)
    requires p.notifying > 0
    ensures a.NotifyOne? && TP.Enabled(p, a)
  {
    a := TP.NotifyOne(0);
    if TP.SomeWaiting(p) {
      var w :| 0 <= w < |p.workers| && p.workers[w] == TP.Waiting;
      a := TP.NotifyOne(w);
    }
  }

  /** What it means that the server is stuck: everybody waits. */
  lemma StuckIffQuiet(respond: Responder, s: Server)
    requires Reachable(respond, s) && s.loop != Returned
    ensures Stuck(s) <==> Quiet(s)
  {
    ReachableInv(respond, s);
    if !Quiet(s) {
      var step: Step;
      if s.pool.notifying > 0 {
        var a := NotifyStep(s.pool);
        step := Background(a);
      } else if s.loop != Polling || s.counter > 0 {
        step := LoopStep(s);
      } else {
        var w :| 0 <= w < |s.pool.workers| && s.pool.workers[w] != TP.Waiting && s.pool.workers[w] != TP.Exited;
        step := WorkerStep(s, w);
      }
      assert Internal(step) && Enabled(s, step);
    }
  }

  /** Every frame of the connection has been answered, exactly once, and epoll
      watches its socket for output if and only if some is left to send. */
  ghost predicate Served(respond: Responder, s: Server, id: nat)
    requires id in s.hist
  {
    var h := s.hist[id];
    && multiset(Enqueued(h, id)) == multiset(Owed(respond, h, id))
    && h.fd in s.table.watched
    && (s.table.watched[h.fd] <==> h.sent != EncodeAll(h.delivered))
  }

  /** Nothing is ever stranded: when no step is left that waits for nothing from
      outside, and no failure has been recorded, the queue and the result list are
      empty and every open connection has been served. */
  lemma StuckMeansServed(respond: Responder, s: Server)
    requires Reachable(respond, s) && Stuck(s) && s.error == 0 && s.loop != Returned
    ensures s.pool.queue.items == [] && s.completed == []
    ensures forall id :: id in s.hist && IsOpen(s, id) ==> Served(respond, s, id)
  {
    ReachableInv(respond, s);
    StuckIffQuiet(respond, s);
    QuietIsEmpty(respond, s);
    forall id | id in s.hist && IsOpen(s, id)
      ensures Served(respond, s, id)
    {
      ServedWhenQuiet(respond, s, id);
    }
  }

  lemma QuietIsEmpty(respond: Responder, s: Server)
    requires Reachable(respond, s) && Quiet(s) && s.error == 0
    ensures s.pool.queue.items == [] && s.completed == []
  {
    ReachableInv(respond, s);
    if s.pool.queue.items != [] {
      PoolReachable(respond, s);
      TPT.NoLostWakeup(s.pool);
    }
  }

  lemma ServedWhenQuiet(respond: Responder, s: Server, id: nat)
    requires ServerInv(respond, s) && Quiet(s) && id in s.hist && IsOpen(s, id)
    requires s.pool.queue.items == [] && s.completed == []
    ensures Served(respond, s, id)
  {
    assert NothingInFlight(s, id);
    AnswersItsOwnFrames(respond, s, id);
    ArmedIffUnsent(respond, s, id);
  }

  /** EPOLLOUT is armed on an open connection if and only if it has bytes left. */
  lemma ArmedIffUnsent(respond: Responder, s: Server, id: nat)
    requires ServerInv(respond, s) && id in s.hist && IsOpen(s, id)
    ensures s.hist[id].fd in s.table.watched
    ensures s.table.watched[s.hist[id].fd] <==> s.hist[id].sent != EncodeAll(s.hist[id].delivered)
  {
    var h := s.hist[id];
    var c := s.table.conns[h.fd];
    assert Tracks(c, h);
    assert |h.sent + c.pending| == |h.sent| + |c.pending|;
    if c.pending == [] {
      AppendEmpty(h.sent);
    }
  }

  /** Arms of the source that no run reaches: a duplicate descriptor, an invalid
      task, and a read of a connection whose stream is already broken. */
  lemma DeadArms(respond: Responder, s: Server, step: Step)
    requires Reachable(respond, s) && Enabled(s, step)
    ensures step.Accept? ==> step.fd !in s.table.conns
    ensures step == Admit ==> AdmitStatusOf(s) != InvalidTask
    ensures step.Read? ==> FirstFrame(s.table.conns[step.fd].unread) != PayloadTooLarge
    ensures step.Deliver? && s.loop.batch != [] ==> s.loop.batch[0].id in s.hist
  {
    ReachableInv(respond, s);
    if step.Deliver? && s.loop.batch != [] {
      assert Owned(s.hist, s.loop.batch[0].fd, s.loop.batch[0].id);
    }
  }

  /** After a returned `stop` no frame is accepted and no result published. */
  lemma StoppedServer(respond: Responder, s: Server, step: Step)
    requires Reachable(respond, s) && s.pool.stopReturns > 0 && Enabled(s, step)
    ensures TPT.Drained(s.pool) && !step.PublishPush? && !step.PublishNotify?
    ensures step == Submit ==> SubmitStatusOf(s) != Submitted
  {
    PoolReachable(respond, s);
    TPT.StopDrains(s.pool);
  }

  /** When a result is stored, at most worker count - 1 frames submitted before its
      own are still without one, and the backlog is bounded. */
  lemma BoundedReordering(respond: Responder, s: Server, w: nat)
    requires Reachable(respond, s) && Enabled(s, PublishPush(w))
    ensures |TPT.Unpublished(s.pool, s.pool.workers[w].ticket)| <= |s.pool.workers| - 1
    ensures |s.pool.accepted| <= |s.pool.ran| + s.pool.capacity + |s.pool.workers|
  {
    PoolReachable(respond, s);
    TPT.BoundedOvertaking(s.pool, w);
    TPT.BoundedInFlight(s.pool);
  }

  /** The shipped server acknowledges: a client that parses what it was sent sees
      only acknowledgements, never more than the frames it has sent, and one for
      each frame once an open connection is quiet and flushed. */
  lemma OnlyAcknowledgements(s: Server, id: nat)
    requires Reachable(Acknowledge, s) && id in s.hist
    ensures var h := s.hist[id];
            var seen := Parse(h.sent).frames;
            && |seen| <= |Parse(h.received).frames|
            && (forall i :: 0 <= i < |seen| ==> seen[i] == Acknowledge(Task(h.fd, id, [])))
            && (IsOpen(s, id) && NothingInFlight(s, id) && s.table.conns[h.fd].pending == [] ==>
                  |seen| == |Parse(h.received).frames|)
  {
    EndToEnd(Acknowledge, s, id);
    var h := s.hist[id];
    var seen := Parse(h.sent).frames;
    forall i | 0 <= i < |seen|
      ensures seen[i] == Acknowledge(Task(h.fd, id, []))
    {
      assert seen[i] == h.delivered[i];
      NoCrossDelivery(Acknowledge, s, id, i);
    }
    if IsOpen(s, id) && s.table.conns[h.fd].pending == [] {
      AppendEmpty(h.sent);
      PrefixDecodesToPrefix(h.sent, h.delivered);
    }
  }
}
