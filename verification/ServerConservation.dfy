/** No result is lost on an open connection, and none is ever made up: the law
    of conservation through queue, workers, result list and dispatch batch.
 */
module ServerConservation {
  import opened Wire
  import opened Connections
  import opened Dispatching
  import opened ConnectionTables
  import opened EventLoops
  import opened ServerModel
  import opened ServerSafety
  import TP = ThreadPoolModel
  import TPS = ThreadPoolSafety

  lemma TimesFirst(r: Result, results: seq<Result>)
    requires results != []
    ensures Times(r, results) == (if results[0] == r then 1 else 0) + Times(r, results[1..])
  {
    assert results == [results[0]] + results[1..];
  }

  lemma TimesAppend(r: Result, a: seq<Result>, b: seq<Result>)
    ensures Times(r, a + b) == Times(r, a) + Times(r, b)
  {
  }

  lemma TimesSnoc(r: Result, a: seq<Result>, x: Result)
    ensures Times(r, a + [x]) == Times(r, a) + (if x == r then 1 else 0)
  {
  }

  lemma DueAppend(respond: Responder, r: Result, a: seq<Task>, b: seq<Task>)
    ensures DueTimes(respond, r, a + b) == DueTimes(respond, r, a) + DueTimes(respond, r, b)
  {
    assert Processed(respond, a + b) == Processed(respond, a) + Processed(respond, b);
  }

  lemma DueFirst(respond: Responder, r: Result, a: seq<Task>)
    requires a != []
    ensures DueTimes(respond, r, a) ==
            (if ProcessFrame(respond, a[0]) == r then 1 else 0) + DueTimes(respond, r, a[1..])
  {
    assert Processed(respond, a)[1..] == Processed(respond, a[1..]);
    TimesFirst(r, Processed(respond, a));
  }

  lemma DueSnoc(respond: Responder, r: Result, a: seq<Task>, t: Task)
    ensures DueTimes(respond, r, a + [t]) ==
            DueTimes(respond, r, a) + (if ProcessFrame(respond, t) == r then 1 else 0)
  {
    assert Processed(respond, a + [t]) == Processed(respond, a) + [ProcessFrame(respond, t)];
  }

  lemma {:induction false} HeldUpdate(respond: Responder, r: Result, ws: seq<TP.Worker<Task>>, w: nat,
                                      to: TP.Worker<Task>)
    requires w < |ws|
    ensures Held(respond, r, ws[w := to]) ==
            Held(respond, r, ws) - HeldBy(respond, r, ws[w]) + HeldBy(respond, r, to)
  {
    if w == 0 {
      assert ws[0 := to][1..] == ws[1..];
    } else {
      assert ws[w := to][1..] == ws[1..][w - 1 := to];
      HeldUpdate(respond, r, ws[1..], w - 1, to);
    }
  }

  lemma {:induction false} HeldAwake(respond: Responder, r: Result, ws: seq<TP.Worker<Task>>)
    ensures Held(respond, r, TP.Awake(ws)) == Held(respond, r, ws)
  {
    if ws != [] {
      assert TP.Awake(ws)[1..] == TP.Awake(ws[1..]);
      HeldAwake(respond, r, ws[1..]);
    }
  }

  /** How often `r` starts its way: once for each newly decoded frame it answers. */
  function Gained(respond: Responder, s: Server, step: Step, r: Result): nat
    requires Enabled(s, step)
  {
    if step.Read? then
      DueTimes(respond, r, TasksOf(step.fd, s.table.conns[step.fd].id, Decoded(s, step.fd, step.bytes).frames))
    else 0
  }

  /** How often `r` ends its way, at the write buffer or on the floor. */
  function Lost(respond: Responder, s: Server, step: Step, r: Result): nat
    requires Enabled(s, step)
  {
    if step.Deliver? && s.loop.batch != [] && s.loop.batch[0] == r then 1
    else if Refuses(s, step) then DueTimes(respond, r, Unsubmitted(s.loop))
    else 0
  }

  function Arrived(s: Server, step: Step, r: Result): nat
    requires Enabled(s, step)
  {
    if step.Deliver? && s.loop.batch != [] && s.loop.batch[0] == r && Fits(s, r) then 1 else 0
  }

  lemma CheckFlow(respond: Responder, r: Result, p: TP.Pool<Task>, w: nat)
    requires TP.Enabled(p, TP.Check(w))
    ensures InPool(respond, r, TP.Next(p, TP.Check(w))) == InPool(respond, r, p)
  {
    HeldUpdate(respond, r, p.workers, w, TP.Next(p, TP.Check(w)).workers[w]);
    if p.queue.items != [] {
      DueFirst(respond, r, p.queue.items);
    }
  }

  lemma BackgroundFlow(respond: Responder, r: Result, p: TP.Pool<Task>, a: TP.Action<Task>)
    requires TP.Enabled(p, a) && !a.Push? && !a.Act?
    ensures InPool(respond, r, TP.Next(p, a)) == InPool(respond, r, p)
  {
    match a
    case NotifyOne(w) =>
      if TP.SomeWaiting(p) {
        HeldUpdate(respond, r, p.workers, w, TP.Ready);
      }
    case Wake(w) => HeldUpdate(respond, r, p.workers, w, TP.Ready);
    case Return(w) => HeldUpdate(respond, r, p.workers, w, TP.Ready);
    case Check(w) => CheckFlow(respond, r, p, w);
    case StopNotifyAll => HeldAwake(respond, r, p.workers);
    case _ =>
  }

  lemma PushFlow(respond: Responder, s: Server, w: nat, r: Result)
    requires Enabled(s, PublishPush(w))
    ensures InFlight(respond, NextPush(respond, s, w), r) == InFlight(respond, s, r)
  {
    HeldUpdate(respond, r, s.pool.workers, w, TP.Ran(s.pool.workers[w].ticket));
    TimesSnoc(r, s.completed, ProcessFrame(respond, s.pool.workers[w].task));
  }

  lemma SubmitFlow(respond: Responder, s: Server, r: Result)
    requires Enabled(s, Submit)
    ensures InFlight(respond, NextSubmit(s), r) + Lost(respond, s, Submit, r) == InFlight(respond, s, r)
  {
    if SubmitStatusOf(s) == Submitted {
      DueSnoc(respond, r, s.pool.queue.items, NextTask(s));
      DueFirst(respond, r, Unsubmitted(s.loop));
      assert Unsubmitted(NextSubmit(s).loop) == Unsubmitted(s.loop)[1..];
    }
  }

  lemma AdmitFlow(respond: Responder, s: Server, r: Result)
    requires Enabled(s, Admit)
    ensures InFlight(respond, NextAdmit(s), r) + Lost(respond, s, Admit, r) == InFlight(respond, s, r)
  {
  }

  lemma DeliverFlow(respond: Responder, s: Server, modifyOk: bool, r: Result)
    requires Enabled(s, Deliver(modifyOk))
    ensures InFlight(respond, NextDeliver(s, modifyOk), r) + Lost(respond, s, Deliver(modifyOk), r)
            == InFlight(respond, s, r)
  {
    if s.loop.batch != [] {
      TimesFirst(r, s.loop.batch);
    }
  }

  /** The steps of the loop's thread that submit or dispatch nothing. */
  lemma LoopFlow(respond: Responder, s: Server, step: Step, r: Result)
    requires Enabled(s, step) && OfLoop(step) && step != Admit && step != Submit && !step.Deliver?
    ensures InFlight(respond, Next(respond, s, step), r) == InFlight(respond, s, r) + Gained(respond, s, step, r)
  {
    assert Next(respond, s, step).pool == s.pool;
  }

  lemma WorkerFlow(respond: Responder, s: Server, step: Step, r: Result)
    requires Enabled(s, step) && (step.Background? || step.PublishNotify?)
    ensures InFlight(respond, Next(respond, s, step), r) == InFlight(respond, s, r)
  {
    BackgroundFlow(respond, r, s.pool, if step.Background? then step.a else TP.Return(step.w));
  }

  /** What is in flight changes by what starts and what ends its way, only. */
  lemma Flow(respond: Responder, s: Server, step: Step, r: Result)
    requires Enabled(s, step)
    ensures InFlight(respond, Next(respond, s, step), r) + Lost(respond, s, step, r)
            == InFlight(respond, s, r) + Gained(respond, s, step, r)
  {
    match step
    case Background(_) => WorkerFlow(respond, s, step, r);
    case PublishNotify(_, _) => WorkerFlow(respond, s, step, r);
    case PublishPush(w) => PushFlow(respond, s, w, r);
    case Admit => AdmitFlow(respond, s, r);
    case Submit => SubmitFlow(respond, s, r);
    case Deliver(modifyOk) => DeliverFlow(respond, s, modifyOk, r);
    case _ => LoopFlow(respond, s, step, r);
  }

  lemma OwedGrows(respond: Responder, h: Hist, id: nat, frames: seq<Payload>, r: Result)
    ensures Times(r, Owed(respond, h.(frames := h.frames + frames), id)) ==
            Times(r, Owed(respond, h, id)) + DueTimes(respond, r, TasksOf(h.fd, id, frames))
  {
    assert TasksOf(h.fd, id, h.frames + frames) == TasksOf(h.fd, id, h.frames) + TasksOf(h.fd, id, frames);
    DueAppend(respond, r, TasksOf(h.fd, id, h.frames), TasksOf(h.fd, id, frames));
  }

  lemma NotDueElsewhere(respond: Responder, fd: int, id: nat, frames: seq<Payload>, r: Result)
    ensures DueTimes(respond, r, TasksOf(fd, id, frames)) > 0 ==> r.fd == fd && r.id == id
  {
    var results := Processed(respond, TasksOf(fd, id, frames));
    assert r in multiset(results) ==> r in results;
  }

  lemma ReadOwed(respond: Responder, s: Server, fd: int, bytes: Bytes, status: ReadStatus, r: Result)
    requires HistInv(s.table.conns, s.table.nextId, s.hist) && Enabled(s, Read(fd, bytes, status)) && r.id in s.hist
    ensures Times(r, Owed(respond, NextRead(s, fd, bytes, status).hist[r.id], r.id)) ==
            Times(r, Owed(respond, s.hist[r.id], r.id)) + Gained(respond, s, Read(fd, bytes, status), r)
  {
    var id, frames := s.table.conns[fd].id, Decoded(s, fd, bytes).frames;
    NotDueElsewhere(respond, fd, id, frames, r);
    if id == r.id {
      OwedGrows(respond, s.hist[id], id, frames, r);
      var h, h' := s.hist[id], NextRead(s, fd, bytes, status).hist[id];
      assert h'.frames == h.frames + frames && h'.fd == h.fd == fd;
    }
  }

  /** Frames decoded are owed a result: on their own connection only. */
  lemma OwedStep(respond: Responder, s: Server, step: Step, r: Result)
    requires HistInv(s.table.conns, s.table.nextId, s.hist) && Enabled(s, step) && r.id in s.hist
    ensures r.id in Next(respond, s, step).hist
    ensures Times(r, Owed(respond, Next(respond, s, step).hist[r.id], r.id)) ==
            Times(r, Owed(respond, s.hist[r.id], r.id)) + Gained(respond, s, step, r)
  {
    HistoryKept(respond, s, step);
    if step.Read? {
      ReadOwed(respond, s, step.fd, step.bytes, step.status, r);
    }
  }

  /** A dispatched result becomes the last response of its connection. */
  lemma DeliveredLast(s: Server, modifyOk: bool)
    requires HistInv(s.table.conns, s.table.nextId, s.hist) && Enabled(s, Deliver(modifyOk))
    requires s.loop.batch != [] && Fits(s, s.loop.batch[0])
    ensures var b := s.loop.batch[0];
            && b.id in s.hist && b.id in NextDeliver(s, modifyOk).hist
            && Enqueued(NextDeliver(s, modifyOk).hist[b.id], b.id) == Enqueued(s.hist[b.id], b.id) + [b]
  {
    var b := s.loop.batch[0];
    var h := s.hist[b.id];
    assert NextDeliver(s, modifyOk).hist[b.id] == h.(delivered := h.delivered + [b.response]);
  }

  lemma DeliverEnqueued(s: Server, modifyOk: bool, r: Result)
    requires HistInv(s.table.conns, s.table.nextId, s.hist) && Enabled(s, Deliver(modifyOk)) && r.id in s.hist
    ensures r.id in NextDeliver(s, modifyOk).hist
    ensures Times(r, Enqueued(NextDeliver(s, modifyOk).hist[r.id], r.id)) ==
            Times(r, Enqueued(s.hist[r.id], r.id)) + Arrived(s, Deliver(modifyOk), r)
  {
    if s.loop.batch != [] && Fits(s, s.loop.batch[0]) && s.loop.batch[0].id == r.id {
      DeliveredLast(s, modifyOk);
      TimesSnoc(r, Enqueued(s.hist[r.id], r.id), s.loop.batch[0]);
    } else {
      assert r.id in NextDeliver(s, modifyOk).hist && NextDeliver(s, modifyOk).hist[r.id] == s.hist[r.id];
    }
  }

  /** A response reaches the write buffer of its own connection only. */
  lemma EnqueuedStep(respond: Responder, s: Server, step: Step, r: Result)
    requires HistInv(s.table.conns, s.table.nextId, s.hist) && Enabled(s, step) && r.id in s.hist
    ensures r.id in Next(respond, s, step).hist
    ensures Times(r, Enqueued(Next(respond, s, step).hist[r.id], r.id)) ==
            Times(r, Enqueued(s.hist[r.id], r.id)) + Arrived(s, step, r)
  {
    HistoryKept(respond, s, step);
    if step.Deliver? {
      DeliverEnqueued(s, step.modifyOk, r);
    }
  }

  lemma ConnsOnlyClose(respond: Responder, s: Server, step: Step)
    requires TableInv(s.table) && Enabled(s, step)
    ensures forall fd :: fd in Next(respond, s, step).table.conns ==>
              || (fd in s.table.conns && s.table.conns[fd].id == Next(respond, s, step).table.conns[fd].id)
              || Next(respond, s, step).table.conns[fd].id == s.table.nextId
  {
    if step.Accept? {
      AcceptedInv(s.table, step.fd, step.addOk);
    }
  }

  /** Ids are never reopened. */
  lemma OnlyCloses(respond: Responder, s: Server, step: Step, id: nat)
    requires TableInv(s.table) && HistInv(s.table.conns, s.table.nextId, s.hist) && Enabled(s, step)
    requires id in s.hist && IsOpen(Next(respond, s, step), id)
    ensures IsOpen(s, id)
  {
    HistoryKept(respond, s, step);
    assert Owned(s.hist, s.hist[id].fd, id);
    ConnsOnlyClose(respond, s, step);
  }

  /** A result ends on the floor only when its connection is gone. */
  lemma LostOnlyWhenClosed(respond: Responder, s: Server, step: Step, r: Result)
    requires TableInv(s.table) && HistInv(s.table.conns, s.table.nextId, s.hist) && LoopInv(s) && AddressInv(s)
    requires Enabled(s, step) && r.id in s.hist
    ensures Arrived(s, step, r) <= Lost(respond, s, step, r)
    ensures Arrived(s, step, r) < Lost(respond, s, step, r) ==> !IsOpen(Next(respond, s, step), r.id)
  {
    if step.Deliver? && s.loop.batch != [] {
      assert Owned(s.hist, s.loop.batch[0].fd, s.loop.batch[0].id);
    }
    if Refuses(s, step) {
      NotDueElsewhere(respond, s.loop.fd, s.loop.id, s.loop.frames, r);
    }
  }

  lemma {:induction false} HeldOwned(respond: Responder, ws: seq<TP.Worker<Task>>, hist: map<nat, Hist>, r: Result)
    requires forall w :: 0 <= w < |ws| && ws[w].Running? ==> Owned(hist, ws[w].task.fd, ws[w].task.id)
    requires Held(respond, r, ws) > 0
    ensures Owned(hist, r.fd, r.id)
  {
    if HeldBy(respond, r, ws[0]) == 0 {
      HeldOwned(respond, ws[1..], hist, r);
    }
  }

  lemma DueOwned(respond: Responder, tasks: seq<Task>, hist: map<nat, Hist>, r: Result)
    requires forall i :: 0 <= i < |tasks| ==> Owned(hist, tasks[i].fd, tasks[i].id)
    requires DueTimes(respond, r, tasks) > 0
    ensures Owned(hist, r.fd, r.id)
  {
    assert r in Processed(respond, tasks);
  }

  lemma OwnedAmong(results: seq<Result>, hist: map<nat, Hist>, r: Result)
    requires forall i :: 0 <= i < |results| ==> Owned(hist, results[i].fd, results[i].id)
    requires Times(r, results) > 0
    ensures Owned(hist, r.fd, r.id)
  {
    assert r in results;
  }

  /** Whatever is in flight belongs to a connection once accepted. */
  lemma InFlightOwned(respond: Responder, s: Server, r: Result)
    requires TPS.PoolInv(s.pool) && HistInv(s.table.conns, s.table.nextId, s.hist) && LoopInv(s) && AddressInv(s)
    requires InFlight(respond, s, r) > 0
    ensures Owned(s.hist, r.fd, r.id)
  {
    if DueTimes(respond, r, Unsubmitted(s.loop)) > 0 {
      DueOwned(respond, Unsubmitted(s.loop), s.hist, r);
    } else if DueTimes(respond, r, s.pool.queue.items) > 0 {
      DueOwned(respond, s.pool.queue.items, s.hist, r);
    } else if Held(respond, r, s.pool.workers) > 0 {
      HeldOwned(respond, s.pool.workers, s.hist, r);
    } else if Times(r, s.completed) > 0 {
      OwnedAmong(s.completed, s.hist, r);
    } else {
      OwnedAmong(Batch(s.loop), s.hist, r);
    }
  }

  lemma NewConnection(respond: Responder, s: Server, step: Step, r: Result)
    requires ServerInv(respond, s) && Enabled(s, step)
    requires r.id !in s.hist && r.id in Next(respond, s, step).hist
    ensures Conserved(respond, Next(respond, s, step), r)
  {
    if InFlight(respond, s, r) > 0 {
      InFlightOwned(respond, s, r);
    }
    NewIsEmpty(respond, s, step, r);
  }

  lemma NewIsEmpty(respond: Responder, s: Server, step: Step, r: Result)
    requires Enabled(s, step) && r.id !in s.hist && r.id in Next(respond, s, step).hist
    requires InFlight(respond, s, r) == 0
    ensures Conserved(respond, Next(respond, s, step), r)
  {
    assert step.Accept?;
    LoopFlow(respond, s, step, r);
    var h := Next(respond, s, step).hist[r.id];
    assert Owed(respond, h, r.id) == [] && Enqueued(h, r.id) == [];
  }

  lemma ConservationStepInv(respond: Responder, s: Server, step: Step)
    requires ServerInv(respond, s) && Enabled(s, step)
    ensures ConservationInv(respond, Next(respond, s, step))
  {
    var s' := Next(respond, s, step);
    forall r: Result | r.id in s'.hist
      ensures Conserved(respond, s', r)
    {
      if r.id !in s.hist {
        NewConnection(respond, s, step, r);
      } else {
        ConservedStep(respond, s, step, r);
      }
    }
  }

  lemma ConservedStep(respond: Responder, s: Server, step: Step, r: Result)
    requires ServerInv(respond, s) && Enabled(s, step) && r.id in s.hist
    ensures r.id in Next(respond, s, step).hist && Conserved(respond, Next(respond, s, step), r)
  {
    var s' := Next(respond, s, step);
    assert Conserved(respond, s, r);
    Flow(respond, s, step, r);
    OwedStep(respond, s, step, r);
    EnqueuedStep(respond, s, step, r);
    LostOnlyWhenClosed(respond, s, step, r);
    if IsOpen(s', r.id) {
      OnlyCloses(respond, s, step, r.id);
    }
  }

  /** The whole invariant holds in every reachable state of the server. */
  lemma ServerStepInv(respond: Responder, s: Server, step: Step)
    requires ServerInv(respond, s) && Enabled(s, step)
    ensures ServerInv(respond, Next(respond, s, step))
  {
    PoolStepInv(respond, s, step);
    TableStepInv(respond, s, step);
    NotifyStepInv(respond, s, step);
    LoopStepInv(respond, s, step);
    HistStepInv(respond, s, step);
    AddressStepInv(respond, s, step);
    ConservationStepInv(respond, s, step);
  }

  lemma InitialServerInv(respond: Responder, s: Server)
    requires Initial(s)
    ensures ServerInv(respond, s)
  {
    TPS.InitialInv(s.pool);
  }

  lemma {:induction false} RunServerInv(respond: Responder, s: Server, run: seq<Step>, s': Server)
    requires ServerInv(respond, s) && Run(respond, s, run, s')
    ensures ServerInv(respond, s')
    decreases |run|
  {
    if run != [] {
      ServerStepInv(respond, s, run[0]);
      RunServerInv(respond, Next(respond, s, run[0]), run[1..], s');
    }
  }
}
