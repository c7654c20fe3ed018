/** With one worker the server also keeps order: the responses on a connection
    come in the order of the frames they answer.
 */
module SingleWorker {
  import opened Wire
  import opened Connections
  import opened Dispatching
  import opened ConnectionTables
  import opened EventLoops
  import opened ServerModel
  import opened ServerSafety
  import opened ServerConservation
  import opened ServerAccounting
  import TP = ThreadPoolModel
  import TPS = ThreadPoolSafety

  function InHand(respond: Responder, p: TP.Pool<Task>): seq<Result> {
    if p.workers != [] && p.workers[0].Running? then [ProcessFrame(respond, p.workers[0].task)] else []
  }

  /** Everything on its way to a write buffer, what arrives first coming first. */
  function Way(respond: Responder, s: Server): seq<Result> {
    Batch(s.loop) + BehindBatch(respond, s)
  }

  function BehindBatch(respond: Responder, s: Server): seq<Result> {
    s.completed + InHand(respond, s.pool) + Processed(respond, s.pool.queue.items)
    + Processed(respond, Unsubmitted(s.loop))
  }

  ghost predicate InOrder(respond: Responder, s: Server, id: nat)
    requires id in s.hist
  {
    Enqueued(s.hist[id], id) + Mine(id, Way(respond, s)) == Owed(respond, s.hist[id], id)
  }

  /** What stays of the order when a connection is gone. */
  ghost predicate WasInOrder(respond: Responder, s: Server, id: nat)
    requires id in s.hist
  {
    Enqueued(s.hist[id], id) <= Owed(respond, s.hist[id], id)
  }

  ghost predicate OrderInv(respond: Responder, s: Server) {
    && ServerInv(respond, s) && |s.pool.workers| == 1
    && (forall id :: id in s.hist && IsOpen(s, id) ==> InOrder(respond, s, id))
    && (forall id :: id in s.hist ==> WasInOrder(respond, s, id))
  }

  /** What a step adds at the end of the way, and what it takes off its front. */
  function Entering(respond: Responder, s: Server, step: Step): seq<Result>
    requires Enabled(s, step)
  {
    if step.Read? then
      Processed(respond, TasksOf(step.fd, s.table.conns[step.fd].id, Decoded(s, step.fd, step.bytes).frames))
    else []
  }

  function Leaving(s: Server, step: Step): seq<Result>
    requires Enabled(s, step)
  {
    if step.Deliver? && s.loop.batch != [] then [s.loop.batch[0]] else []
  }

  lemma PoolWay(respond: Responder, p: TP.Pool<Task>, a: TP.Action<Task>)
    requires |p.workers| == 1 && TP.Enabled(p, a) && !a.Push? && !a.Act?
    ensures var q := TP.Next(p, a);
            InHand(respond, q) + Processed(respond, q.queue.items) ==
            InHand(respond, p) + Processed(respond, p.queue.items)
  {
    if a.Check? && p.queue.items != [] {
      assert Processed(respond, p.queue.items) ==
             [ProcessFrame(respond, p.queue.items[0])] + Processed(respond, p.queue.items[1..]);
    }
  }

  lemma SubmitWay(respond: Responder, s: Server)
    requires Enabled(s, Submit) && SubmitStatusOf(s) == Submitted
    ensures Way(respond, NextSubmit(s)) == Way(respond, s)
  {
    var s', r := NextSubmit(s), ProcessFrame(respond, NextTask(s));
    var items, left := Processed(respond, s.pool.queue.items), Processed(respond, Unsubmitted(s'.loop));
    assert Processed(respond, s'.pool.queue.items) == items + [r];
    assert Processed(respond, Unsubmitted(s.loop)) == [r] + left;
    assert InHand(respond, s'.pool) == InHand(respond, s.pool);
    AppendAssociates(items, [r], left);
  }

  lemma DeliverWay(respond: Responder, s: Server, modifyOk: bool)
    requires Enabled(s, Deliver(modifyOk))
    ensures Leaving(s, Deliver(modifyOk)) + Way(respond, NextDeliver(s, modifyOk)) == Way(respond, s)
  {
    var s' := NextDeliver(s, modifyOk);
    var behind := BehindBatch(respond, s);
    assert Unsubmitted(s'.loop) == Unsubmitted(s.loop) == [];
    if s.loop.batch != [] {
      assert s.loop.batch == [s.loop.batch[0]] + s.loop.batch[1..];
      AppendAssociates([s.loop.batch[0]], s.loop.batch[1..], behind);
    } else {
      AppendEmpty(behind);
    }
  }

  lemma ActWay(respond: Responder, s: Server, w: nat)
    requires |s.pool.workers| == 1 && Enabled(s, PublishPush(w))
    ensures Way(respond, NextPush(respond, s, w)) == Way(respond, s)
  {
    assert w == 0;
    var r := ProcessFrame(respond, s.pool.workers[0].task);
    assert InHand(respond, s.pool) == [r] && InHand(respond, NextPush(respond, s, w).pool) == [];
    AppendEmpty(s.completed + [r]);
  }

  lemma PoolStepWay(respond: Responder, s: Server, step: Step)
    requires |s.pool.workers| == 1 && Enabled(s, step) && (step.Background? || step.PublishNotify?)
    ensures Way(respond, Next(respond, s, step)) == Way(respond, s)
  {
    var a := if step.Background? then step.a else TP.Return(step.w);
    PoolWay(respond, s.pool, a);
    var s' := Next(respond, s, step);
    assert s'.pool == TP.Next(s.pool, a) && s'.loop == s.loop && s'.completed == s.completed;
    AppendAssociates(s.completed, InHand(respond, s.pool), Processed(respond, s.pool.queue.items));
    AppendAssociates(s.completed, InHand(respond, s'.pool), Processed(respond, s'.pool.queue.items));
  }

  lemma AdmitWay(respond: Responder, s: Server)
    requires Enabled(s, Admit) && AdmitStatusOf(s) == Submitted
    ensures Way(respond, NextAdmit(s)) == Way(respond, s)
  {
    assert Unsubmitted(NextAdmit(s).loop) == Unsubmitted(s.loop);
  }

  lemma ReadWay(respond: Responder, s: Server, fd: int, bytes: Bytes, status: ReadStatus)
    requires Enabled(s, Read(fd, bytes, status))
    ensures Way(respond, NextRead(s, fd, bytes, status)) ==
            Way(respond, s) + Entering(respond, s, Read(fd, bytes, status))
  {
    var s', entering := NextRead(s, fd, bytes, status), Entering(respond, s, Read(fd, bytes, status));
    assert Processed(respond, Unsubmitted(s'.loop)) == entering && Unsubmitted(s.loop) == [];
    AppendEmpty(s.completed + InHand(respond, s.pool) + Processed(respond, s.pool.queue.items));
  }

  lemma TakeWay(respond: Responder, s: Server)
    requires Enabled(s, Take)
    ensures Way(respond, Next(respond, s, Take)) == Way(respond, s)
  {
    var hand, items := InHand(respond, s.pool), Processed(respond, s.pool.queue.items);
    AppendAssociates(s.completed, hand, items);
    AppendAssociates(s.completed, hand + items, Processed(respond, Unsubmitted(s.loop)));
  }

  lemma LoopWay(respond: Responder, s: Server, step: Step)
    requires Enabled(s, step) && OfLoop(step) && step != Admit && step != Submit && !step.Deliver?
    ensures Way(respond, Next(respond, s, step)) == Way(respond, s) + Entering(respond, s, step)
  {
    if step.Read? {
      ReadWay(respond, s, step.fd, step.bytes, step.status);
    } else {
      AppendEmpty(Way(respond, s));
      if step == Take {
        TakeWay(respond, s);
      } else {
        StillWay(respond, s, step);
      }
    }
  }

  lemma StillWay(respond: Responder, s: Server, step: Step)
    requires Enabled(s, step) && OfLoop(step) && step != Admit && step != Submit && !step.Deliver?
    requires !step.Read? && step != Take
    ensures Way(respond, Next(respond, s, step)) == Way(respond, s)
  {
  }

  /** Only a refused submission, which closes its connection, breaks the line. */
  lemma WayStep(respond: Responder, s: Server, step: Step)
    requires |s.pool.workers| == 1 && Enabled(s, step)
    requires !Refuses(s, step)
    ensures Leaving(s, step) + Way(respond, Next(respond, s, step)) == Way(respond, s) + Entering(respond, s, step)
  {
    match step
    case Background(_) => PoolStepWay(respond, s, step);
    case PublishNotify(_, _) => PoolStepWay(respond, s, step);
    case PublishPush(w) => ActWay(respond, s, w);
    case Admit => AdmitWay(respond, s);
    case Submit => SubmitWay(respond, s);
    case Deliver(modifyOk) => DeliverWay(respond, s, modifyOk);
    case _ => LoopWay(respond, s, step);
  }

  lemma OwedExtended(respond: Responder, h: Hist, id: nat, frames: seq<Payload>)
    ensures Owed(respond, h.(frames := h.frames + frames), id) ==
            Owed(respond, h, id) + Processed(respond, TasksOf(h.fd, id, frames))
  {
    assert TasksOf(h.fd, id, h.frames + frames) == TasksOf(h.fd, id, h.frames) + TasksOf(h.fd, id, frames);
  }

  lemma ReadInOrder(respond: Responder, s: Server, step: Step, id: nat)
    requires HistInv(s.table.conns, s.table.nextId, s.hist) && Enabled(s, step) && step.Read? && id in s.hist
    ensures Owed(respond, NextRead(s, step.fd, step.bytes, step.status).hist[id], id) ==
            Owed(respond, s.hist[id], id) + Mine(id, Entering(respond, s, step))
  {
    MineAll(id, Entering(respond, s, step));
    var h' := NextRead(s, step.fd, step.bytes, step.status).hist[id];
    if s.table.conns[step.fd].id == id {
      var frames := Decoded(s, step.fd, step.bytes).frames;
      OwedExtended(respond, s.hist[id], id, frames);
      assert h'.frames == s.hist[id].frames + frames && h'.fd == s.hist[id].fd == step.fd;
    } else {
      assert h' == s.hist[id];
      AppendEmpty(Owed(respond, h', id));
    }
  }

  lemma OwedInOrder(respond: Responder, s: Server, step: Step, id: nat)
    requires HistInv(s.table.conns, s.table.nextId, s.hist) && Enabled(s, step) && id in s.hist
    ensures id in Next(respond, s, step).hist
    ensures Owed(respond, Next(respond, s, step).hist[id], id) ==
            Owed(respond, s.hist[id], id) + Mine(id, Entering(respond, s, step))
  {
    HistoryKept(respond, s, step);
    if step.Read? {
      ReadInOrder(respond, s, step, id);
    } else {
      AppendEmpty(Owed(respond, s.hist[id], id));
    }
  }

  lemma DeliveredInOrder(respond: Responder, s: Server, modifyOk: bool, id: nat)
    requires TableInv(s.table) && HistInv(s.table.conns, s.table.nextId, s.hist) && LoopInv(s) && AddressInv(s)
    requires Enabled(s, Deliver(modifyOk)) && s.loop.batch != [] && s.loop.batch[0].id == id
    requires id in s.hist && IsOpen(NextDeliver(s, modifyOk), id)
    ensures Enqueued(NextDeliver(s, modifyOk).hist[id], id) == Enqueued(s.hist[id], id) + [s.loop.batch[0]]
  {
    LostOnlyWhenClosed(Acknowledge, s, Deliver(modifyOk), s.loop.batch[0]);
    DeliveredLast(s, modifyOk);
  }

  lemma DeliverInOrder(respond: Responder, s: Server, modifyOk: bool, id: nat)
    requires TableInv(s.table) && HistInv(s.table.conns, s.table.nextId, s.hist) && LoopInv(s) && AddressInv(s)
    requires Enabled(s, Deliver(modifyOk)) && id in s.hist && IsOpen(NextDeliver(s, modifyOk), id)
    ensures Enqueued(NextDeliver(s, modifyOk).hist[id], id) ==
            Enqueued(s.hist[id], id) + Mine(id, Leaving(s, Deliver(modifyOk)))
  {
    MineAll(id, Leaving(s, Deliver(modifyOk)));
    if s.loop.batch != [] && s.loop.batch[0].id == id {
      DeliveredInOrder(respond, s, modifyOk, id);
    } else {
      NothingDelivered(s, modifyOk, id);
      AppendEmpty(Enqueued(s.hist[id], id));
    }
  }

  lemma EnqueuedInOrder(respond: Responder, s: Server, step: Step, id: nat)
    requires TableInv(s.table) && HistInv(s.table.conns, s.table.nextId, s.hist) && LoopInv(s) && AddressInv(s)
    requires Enabled(s, step) && id in s.hist
    ensures id in Next(respond, s, step).hist
    ensures IsOpen(Next(respond, s, step), id) ==>
              Enqueued(Next(respond, s, step).hist[id], id) == Enqueued(s.hist[id], id) + Mine(id, Leaving(s, step))
  {
    HistoryKept(respond, s, step);
    if !step.Deliver? {
      AppendEmpty(Enqueued(s.hist[id], id));
    } else if IsOpen(Next(respond, s, step), id) {
      DeliverInOrder(respond, s, step.modifyOk, id);
    }
  }

  /** A refused submission takes only results of the connection it closes. */
  lemma RefusedInOrder(respond: Responder, s: Server, step: Step, id: nat)
    requires Enabled(s, step) && Refuses(s, step) && id != s.loop.id
    ensures Mine(id, Way(respond, Next(respond, s, step))) == Mine(id, Way(respond, s))
  {
    var front := s.completed + InHand(respond, s.pool) + Processed(respond, s.pool.queue.items);
    var left := Processed(respond, Unsubmitted(s.loop));
    assert Way(respond, s) == front + left && Way(respond, Next(respond, s, step)) == front + [];
    MineAppend(id, front, left);
    MineAppend(id, front, []);
    MineAll(id, left);
  }

  lemma MineStep(respond: Responder, s: Server, step: Step, id: nat)
    requires |s.pool.workers| == 1 && LoopInv(s) && Enabled(s, step)
    requires id in s.hist && HistInv(s.table.conns, s.table.nextId, s.hist)
    requires id in Next(respond, s, step).hist && IsOpen(Next(respond, s, step), id)
    ensures Mine(id, Leaving(s, step)) + Mine(id, Way(respond, Next(respond, s, step))) ==
            Mine(id, Way(respond, s)) + Mine(id, Entering(respond, s, step))
  {
    if Refuses(s, step) {
      RefusedInOrder(respond, s, step, id);
      AppendEmpty(Mine(id, Way(respond, s)));
    } else {
      WayStep(respond, s, step);
      MineAppend(id, Leaving(s, step), Way(respond, Next(respond, s, step)));
      MineAppend(id, Way(respond, s), Entering(respond, s, step));
    }
  }

  lemma InOrderStep(respond: Responder, s: Server, step: Step, id: nat)
    requires OrderInv(respond, s) && Enabled(s, step) && id in s.hist
    requires id in Next(respond, s, step).hist && IsOpen(Next(respond, s, step), id)
    ensures InOrder(respond, Next(respond, s, step), id)
  {
    var s' := Next(respond, s, step);
    OnlyCloses(respond, s, step, id);
    OwedInOrder(respond, s, step, id);
    EnqueuedInOrder(respond, s, step, id);
    MineStep(respond, s, step, id);
    var enqueued := Enqueued(s.hist[id], id);
    AppendAssociates(enqueued, Mine(id, Leaving(s, step)), Mine(id, Way(respond, s')));
    AppendAssociates(enqueued, Mine(id, Way(respond, s)), Mine(id, Entering(respond, s, step)));
  }

  predicate NoneOf(id: nat, results: seq<Result>) {
    forall i :: 0 <= i < |results| ==> results[i].id != id
  }

  lemma NoneOfAppend(id: nat, a: seq<Result>, b: seq<Result>)
    requires NoneOf(id, a) && NoneOf(id, b)
    ensures NoneOf(id, a + b)
  {
  }

  lemma NoneInPool(respond: Responder, s: Server, id: nat)
    requires TPS.PoolInv(s.pool) && AddressInv(s) && id !in s.hist && |s.pool.workers| == 1
    ensures NoneOf(id, InHand(respond, s.pool)) && NoneOf(id, Processed(respond, s.pool.queue.items))
  {
    var w := s.pool.workers[0];
    assert w.Running? ==> w.task == s.pool.accepted[w.ticket];
  }

  lemma NoneOnTheWay(respond: Responder, s: Server, id: nat)
    requires ServerInv(respond, s) && id !in s.hist && |s.pool.workers| == 1
    ensures Mine(id, Way(respond, s)) == []
  {
    NoneInPool(respond, s, id);
    var hand, items := InHand(respond, s.pool), Processed(respond, s.pool.queue.items);
    NoneOfAppend(id, s.completed, hand);
    NoneOfAppend(id, s.completed + hand, items);
    NoneOfAppend(id, s.completed + hand + items, Processed(respond, Unsubmitted(s.loop)));
    NoneOfAppend(id, Batch(s.loop), BehindBatch(respond, s));
    MineAll(id, Way(respond, s));
  }

  lemma NewHistory(respond: Responder, s: Server, step: Step, id: nat)
    requires Enabled(s, step) && id !in s.hist && id in Next(respond, s, step).hist
    ensures Next(respond, s, step).hist[id] == Hist(Next(respond, s, step).hist[id].fd, [], [], [], [])
    ensures Way(respond, Next(respond, s, step)) == Way(respond, s)
  {
    assert step.Accept?;
    assert Next(respond, s, step) == NextAccept(s, step.fd, step.addOk);
  }

  lemma NewInOrder(respond: Responder, s: Server, step: Step, id: nat)
    requires OrderInv(respond, s) && Enabled(s, step)
    requires id !in s.hist && id in Next(respond, s, step).hist
    ensures InOrder(respond, Next(respond, s, step), id)
  {
    NewHistory(respond, s, step, id);
    NoneOnTheWay(respond, s, id);
    var h := Next(respond, s, step).hist[id];
    assert Owed(respond, h, id) == [] && Enqueued(h, id) == [];
  }

  lemma PrefixExtended(a: seq<Result>, b: seq<Result>, c: seq<Result>)
    requires a <= b
    ensures a <= b + c
  {
  }

  /** A connection that is gone keeps its frames and its responses. */
  lemma GoneStays(respond: Responder, s: Server, step: Step, id: nat)
    requires HistInv(s.table.conns, s.table.nextId, s.hist) && Enabled(s, step) && id in s.hist && !IsOpen(s, id)
    ensures id in Next(respond, s, step).hist
    ensures Next(respond, s, step).hist[id].frames == s.hist[id].frames
    ensures Next(respond, s, step).hist[id].delivered == s.hist[id].delivered
    ensures Next(respond, s, step).hist[id].fd == s.hist[id].fd
  {
    HistoryKept(respond, s, step);
    if step.Read? {
      GoneIsNotRead(s, step.fd, step.bytes, step.status, id);
    } else if step.Deliver? {
      GoneIsNotServed(s, step.modifyOk, id);
    }
  }

  lemma GoneIsNotRead(s: Server, fd: int, bytes: Bytes, status: ReadStatus, id: nat)
    requires HistInv(s.table.conns, s.table.nextId, s.hist) && Enabled(s, Read(fd, bytes, status))
    requires id in s.hist && !IsOpen(s, id)
    ensures NextRead(s, fd, bytes, status).hist[id] == s.hist[id]
  {
    assert s.table.conns[fd].id != id;
  }

  lemma GoneIsNotServed(s: Server, modifyOk: bool, id: nat)
    requires HistInv(s.table.conns, s.table.nextId, s.hist) && Enabled(s, Deliver(modifyOk))
    requires id in s.hist && !IsOpen(s, id)
    ensures id in NextDeliver(s, modifyOk).hist && NextDeliver(s, modifyOk).hist[id] == s.hist[id]
  {
    if s.loop.batch != [] && Fits(s, s.loop.batch[0]) {
      assert s.loop.batch[0].id != id;
    }
  }

  lemma NextOfMine(enqueued: seq<Result>, b: Result, behind: seq<Result>, owed: seq<Result>)
    requires enqueued + ([b] + behind) == owed
    ensures enqueued + [b] <= owed && enqueued <= owed
  {
    AppendAssociates(enqueued, [b], behind);
  }

  /** The step that closes a connection may still have enqueued a response, and
      then the one that was next. */
  lemma DeliverPrefix(respond: Responder, s: Server, modifyOk: bool, id: nat)
    requires OrderInv(respond, s) && Enabled(s, Deliver(modifyOk)) && id in s.hist && IsOpen(s, id)
    requires s.loop.batch != [] && s.loop.batch[0].id == id && Fits(s, s.loop.batch[0])
    ensures id in NextDeliver(s, modifyOk).hist
    ensures Enqueued(NextDeliver(s, modifyOk).hist[id], id) <= Owed(respond, s.hist[id], id)
  {
    assert InOrder(respond, s, id);
    DeliveredLast(s, modifyOk);
    FirstOfMine(respond, s, id);
    NextOfMine(Enqueued(s.hist[id], id), s.loop.batch[0], Mine(id, Way(respond, s))[1..],
               Owed(respond, s.hist[id], id));
  }

  lemma DeliverKeepsPrefix(respond: Responder, s: Server, modifyOk: bool, id: nat)
    requires OrderInv(respond, s) && Enabled(s, Deliver(modifyOk)) && id in s.hist && IsOpen(s, id)
    ensures id in NextDeliver(s, modifyOk).hist
    ensures Enqueued(NextDeliver(s, modifyOk).hist[id], id) <= Owed(respond, s.hist[id], id)
  {
    assert WasInOrder(respond, s, id);
    if s.loop.batch != [] && s.loop.batch[0].id == id && Fits(s, s.loop.batch[0]) {
      DeliverPrefix(respond, s, modifyOk, id);
    } else {
      NothingDelivered(s, modifyOk, id);
    }
  }

  lemma NothingDelivered(s: Server, modifyOk: bool, id: nat)
    requires Enabled(s, Deliver(modifyOk)) && id in s.hist
    requires s.loop.batch == [] || s.loop.batch[0].id != id || !Fits(s, s.loop.batch[0])
    ensures id in NextDeliver(s, modifyOk).hist && NextDeliver(s, modifyOk).hist[id] == s.hist[id]
  {
  }

  lemma FirstOfMine(respond: Responder, s: Server, id: nat)
    requires s.loop.Delivering? && s.loop.batch != [] && s.loop.batch[0].id == id
    ensures Mine(id, Way(respond, s)) != [] && Mine(id, Way(respond, s))[0] == s.loop.batch[0]
    ensures Mine(id, Way(respond, s)) == [s.loop.batch[0]] + Mine(id, Way(respond, s))[1..]
  {
    assert Way(respond, s)[0] == s.loop.batch[0];
  }

  lemma WasInOrderStep(respond: Responder, s: Server, step: Step, id: nat)
    requires OrderInv(respond, s) && Enabled(s, step) && id in s.hist
    ensures id in Next(respond, s, step).hist && WasInOrder(respond, Next(respond, s, step), id)
  {
    OwedInOrder(respond, s, step, id);
    assert WasInOrder(respond, s, id);
    if !IsOpen(s, id) {
      GoneStays(respond, s, step, id);
    } else if step.Deliver? {
      DeliverKeepsPrefix(respond, s, step.modifyOk, id);
      AppendEmpty(Owed(respond, s.hist[id], id));
    } else {
      HistoryKept(respond, s, step);
      PrefixExtended(Enqueued(s.hist[id], id), Owed(respond, s.hist[id], id), Mine(id, Entering(respond, s, step)));
    }
  }

  lemma OneWorkerStays(respond: Responder, s: Server, step: Step)
    requires Enabled(s, step)
    ensures |Next(respond, s, step).pool.workers| == |s.pool.workers|
  {
    PoolProjection(respond, s, step);
  }

  lemma OrderStepInv(respond: Responder, s: Server, step: Step)
    requires OrderInv(respond, s) && Enabled(s, step)
    ensures OrderInv(respond, Next(respond, s, step))
  {
    ServerStepInv(respond, s, step);
    OneWorkerStays(respond, s, step);
    var s' := Next(respond, s, step);
    forall id | id in s'.hist
      ensures IsOpen(s', id) ==> InOrder(respond, s', id)
      ensures WasInOrder(respond, s', id)
    {
      if id in s.hist {
        WasInOrderStep(respond, s, step, id);
        if IsOpen(s', id) {
          InOrderStep(respond, s, step, id);
        }
      } else {
        NewInOrder(respond, s, step, id);
      }
    }
  }

  lemma {:induction false} RunOrderInv(respond: Responder, s: Server, run: seq<Step>, s': Server)
    requires OrderInv(respond, s) && Run(respond, s, run, s')
    ensures OrderInv(respond, s')
    decreases |run|
  {
    if run != [] {
      OrderStepInv(respond, s, run[0]);
      RunOrderInv(respond, Next(respond, s, run[0]), run[1..], s');
    }
  }

  /** With one worker the k-th response on a connection answers the k-th frame
      received on it, whatever the other connections do. */
  lemma ResponsesInRequestOrder(respond: Responder, s0: Server, run: seq<Step>, s: Server, id: nat, k: nat)
    requires Initial(s0) && |s0.pool.workers| == 1 && Run(respond, s0, run, s)
    requires id in s.hist && k < |s.hist[id].delivered|
    ensures k < |s.hist[id].frames|
    ensures s.hist[id].delivered[k] == respond(Task(s.hist[id].fd, id, s.hist[id].frames[k]))
  {
    InitialServerInv(respond, s0);
    RunOrderInv(respond, s0, run, s);
    var h := s.hist[id];
    assert WasInOrder(respond, s, id);
    assert Enqueued(h, id)[k] == Owed(respond, h, id)[k];
  }
}
