/** The handlers of the event loop and the step system, in both directions: run
    without interruption a handler is a run of the step system, and between two
    waits every run, with the workers' steps anywhere, does to the loop's data
    what the handler does for the answers met in that run.
 */
module LoopRefinement {
  import opened Wire
  import opened Kernel
  import opened Connections
  import opened EventFds
  import opened Dispatching
  import opened BoundedQueues
  import opened ConnectionTables
  import opened EventLoops
  import opened ServerModel
  import TP = ThreadPoolModel

  lemma {:induction false} RunConcat(respond: Responder, a: Server, r1: seq<Step>, b: Server, r2: seq<Step>, c: Server)
    requires Run(respond, a, r1, b) && Run(respond, b, r2, c)
    ensures Run(respond, a, r1 + r2, c)
    decreases |r1|
  {
    if r1 == [] {
      assert r1 + r2 == r2;
    } else {
      assert (r1 + r2)[0] == r1[0] && (r1 + r2)[1..] == r1[1..] + r2;
      RunConcat(respond, Next(respond, a, r1[0]), r1[1..], b, r2, c);
    }
  }

  lemma RunCons(respond: Responder, s: Server, step: Step, rest: seq<Step>, s': Server) returns (run: seq<Step>)
    requires Enabled(s, step) && Run(respond, Next(respond, s, step), rest, s')
    ensures Run(respond, s, run, s') && run == [step] + rest
  {
    run := [step] + rest;
    assert run[0] == step && run[1..] == rest;
  }

  /** The accept loop: the run that does what its first `n` answers do consists of
      one step for each new client, in order. */
  lemma {:induction false} AcceptsAreSteps(respond: Responder, s: Server, outcomes: seq<AcceptOutcome>, n: nat)
    returns (run: seq<Step>, s': Server)
    requires s.loop == Polling && s.pool.notifying == 0 && AcceptsPossible(s.table, outcomes) && n <= |outcomes|
    ensures Run(respond, s, run, s')
    ensures s'.table == AfterAccepts(s.table, outcomes, n) && s'.loop == Polling && s'.pool == s.pool
    ensures |run| == Newcomers(outcomes, n)
    ensures forall i :: 0 <= i < n && outcomes[i].NewClient? ==>
              Newcomers(outcomes, i) < |run| && run[Newcomers(outcomes, i)] == Accept(outcomes[i].fd, outcomes[i].addOk)
  {
    run, s' := [], s;
    if n > 0 {
      run, s' := AcceptsAreSteps(respond, s, outcomes, n - 1);
      var o := outcomes[n - 1];
      if o.NewClient? {
        PossibleAt(s.table, outcomes, n - 1);
        var step := Accept(o.fd, o.addOk);
        var s1 := Next(respond, s', step);
        var last := RunCons(respond, s', step, [], s1);
        RunConcat(respond, s, run, s', last, s1);
        run, s' := run + last, s1;
      }
    }
  }

  /** `consumeNotifications` as the loop sees it: the step is there for every result
      the notifier can give, and only a hard failure makes the loop return. */
  lemma ConsumeIsStep(respond: Responder, s: Server, r: ConsumeResult, after: nat)
    requires s.loop == Polling && s.pool.notifying == 0
    ensures ConsumeSpec(s.counter, after, r) <==>
              Enabled(s, Consume(r)) && Next(respond, s, Consume(r)).counter == after
    ensures Enabled(s, Consume(r)) ==>
              var s' := Next(respond, s, Consume(r));
              && (s'.loop == Consumed <==> r.success)
              && (s'.loop == Polling <==> !r.success && r.errorNumber == EAGAIN)
              && (s'.loop == Returned <==> !r.success && r.errorNumber != EAGAIN)
              && s'.table == s.table && s'.completed == s.completed && s'.pool == s.pool && s'.error == s.error
  {
  }

  /** The dispatch loop over one batch. */
  lemma {:induction false} DispatchesAreSteps(respond: Responder, s: Server, modifyOk: seq<bool>)
    returns (run: seq<Step>, s': Server)
    requires s.loop.Delivering? && s.pool.notifying == 0 && |modifyOk| == |s.loop.batch|
    ensures Run(respond, s, run, s')
    ensures s'.table == AfterDispatches(s.table, s.loop.batch, modifyOk) && s'.loop == Polling && s'.pool == s.pool
    decreases |modifyOk|
  {
    var rest: seq<Step> := [];
    if modifyOk == [] {
      s' := Next(respond, s, Deliver(true));
      run := RunCons(respond, s, Deliver(true), rest, s');
    } else {
      rest, s' := DispatchesAreSteps(respond, Next(respond, s, Deliver(modifyOk[0])), modifyOk[1..]);
      run := RunCons(respond, s, Deliver(modifyOk[0]), rest, s');
    }
  }

  /** A successful submission, with the notification that follows it. */
  lemma SubmitAndNotify(respond: Responder, s: Server) returns (run: seq<Step>, s': Server)
    requires Enabled(s, Submit) && SubmitStatusOf(s) == Submitted
    ensures Run(respond, s, run, s')
    ensures s'.table == s.table && s'.loop == s.loop.(frames := s.loop.frames[1..], admitted := false)
    ensures s'.pool.notifying == 0 && s'.pool.capacity == s.pool.capacity && s'.error == s.error
    ensures s'.pool.queue == s.pool.queue.(items := s.pool.queue.items + [NextTask(s)])
  {
    var s1 := Next(respond, s, Submit);
    var w: nat := 0;
    if TP.SomeWaiting(s1.pool) {
      w :| w < |s1.pool.workers| && s1.pool.workers[w] == TP.Waiting;
    }
    var notify := Background(TP.NotifyOne(w));
    s' := Next(respond, s1, notify);
    run := RunCons(respond, s1, notify, [], s');
    run := RunCons(respond, s, Submit, run, s');
  }

  lemma SubmitsFirst(fd: int, id: nat, frames: seq<Payload>, healthy: bool, capacity: nat,
                     q: QueueState<Task>, q1: QueueState<Task>, q': QueueState<Task>, taken: nat)
    requires frames != [] && fd >= 0 && id != 0 && healthy && !q.closed && |q.items| < capacity
    requires q1 == q.(items := q.items + [Task(fd, id, frames[0])])
    requires Submits(fd, id, frames[1..], healthy, capacity, q1, q', taken)
    ensures Submits(fd, id, frames, healthy, capacity, q, q', taken + 1)
  {
    var tasks := TasksOf(fd, id, frames);
    assert tasks[..taken + 1] == [tasks[0]] + TasksOf(fd, id, frames[1..])[..taken];
    AppendAssociates(q.items, [tasks[0]], TasksOf(fd, id, frames[1..])[..taken]);
  }

  /** The submit loop over the frames of one read, when no worker takes a task. */
  lemma {:induction false} SubmitsAreSteps(respond: Responder, s: Server)
    returns (run: seq<Step>, s': Server, taken: nat)
    requires s.loop.Submitting? && !s.loop.admitted && s.pool.notifying == 0 && |s.pool.queue.items| <= s.pool.capacity
    ensures Run(respond, s, run, s') && s'.pool.notifying == 0 && taken <= |s.loop.frames|
    ensures Submits(s.loop.fd, s.loop.id, s.loop.frames, s.error == 0, s.pool.capacity,
                    s.pool.queue, s'.pool.queue, taken)
    ensures if taken == |s.loop.frames|
            then s'.loop == s.loop.(frames := []) && s'.table == s.table
            else s'.loop == Polling && s'.table == Closed(s.table, s.loop.fd)
    decreases |s.loop.frames|
  {
    run, s', taken := [], s, 0;
    AppendEmpty(s.pool.queue.items);
    if s.loop.frames != [] {
      var s0 := Next(respond, s, Admit);
      if AdmitStatusOf(s) != Submitted {
        s' := s0;
      } else if SubmitStatusOf(s0) == Submitted {
        var s1, rest;
        run, s1 := SubmitAndNotify(respond, s0);
        rest, s', taken := SubmitsAreSteps(respond, s1);
        RunConcat(respond, s0, run, s1, rest, s');
        SubmitsFirst(s.loop.fd, s.loop.id, s.loop.frames, s.error == 0, s.pool.capacity,
                     s.pool.queue, s1.pool.queue, s'.pool.queue, taken);
        run, taken := run + rest, taken + 1;
      } else {
        s' := Next(respond, s0, Submit);
        run := RunCons(respond, s0, Submit, [], s');
      }
      run := RunCons(respond, s, Admit, run, s');
    }
  }

  lemma FlushIsStep(respond: Responder, s: Server, e: ClientEvent) returns (run: seq<Step>, s': Server)
    requires s.loop.Flushing? && s.pool.notifying == 0 && s.loop.fd in s.table.conns
    requires e.sent <= |s.table.conns[s.loop.fd].pending|
    requires e.writeFailed ==> s.table.conns[s.loop.fd].pending != []
    ensures Run(respond, s, run, s') && s'.loop == Polling && s'.pool == s.pool
    ensures s'.table == Flushed(s.table, s.loop.fd, e.sent, e.writeFailed, e.modifyOk)
  {
    var step := Flush(e.sent, e.writeFailed, e.modifyOk);
    s' := Next(respond, s, step);
    run := RunCons(respond, s, step, [], s');
  }

  /** What `Connection.ReadAvailable` guarantees is what a read step does, so the
      step system starts from the contract proved of the class. */
  lemma ReadAvailableIsReadStep(respond: Responder, s: Server, fd: int, bytes: Bytes, status: ReadStatus,
                                frames: seq<Payload>, left: Bytes)
    requires s.loop == Polling && s.pool.notifying == 0 && fd in s.table.conns
    ensures ReadSpec(s.table.conns[fd].unread, bytes, status, frames, left) <==>
              && Enabled(s, Read(fd, bytes, status))
              && Next(respond, s, Read(fd, bytes, status)).loop ==
                 Submitting(fd, s.table.conns[fd].id, frames, status, false)
              && Next(respond, s, Read(fd, bytes, status)).table == Received(s.table, fd, left)
  {
    var read := Decoded(s, fd, bytes);
    assert Received(s.table, fd, read.rest).conns[fd].unread == read.rest;
    assert Received(s.table, fd, left).conns[fd].unread == left;
  }

  /** `handleClientEvent`: the step system can do what the handler does, and when
      no worker takes a task it submits what the handler submits. */
  lemma ClientEventIsSteps(respond: Responder, s: Server, fd: int, e: ClientEvent)
    returns (run: seq<Step>, s': Server, taken: nat)
    requires s.loop == Polling && s.pool.notifying == 0 && fd in s.table.conns
    requires EventPossible(s.table, fd, e) && |s.pool.queue.items| <= s.pool.capacity
    ensures EventPossible(s.table, fd, e.(taken := taken))
    ensures Run(respond, s, run, s') && s'.loop == Polling
    ensures s'.table == AfterClientEvent(s.table, fd, e.(taken := taken))
    ensures !e.hangup && e.readable ==>
              Submits(fd, s.table.conns[fd].id, FramesRead(s.table, fd, e).frames, s.error == 0, s.pool.capacity,
                      s.pool.queue, s'.pool.queue, taken)
  {
    taken := e.taken;
    if e.hangup {
      s' := Next(respond, s, Hangup(fd));
      run := RunCons(respond, s, Hangup(fd), [], s');
    } else if !e.readable {
      run, s' := FlushIsStep(respond, Next(respond, s, Writable(fd)), e);
      run := RunCons(respond, s, Writable(fd), run, s');
    } else {
      var rest, s1;
      var read := Read(fd, e.bytes, e.status);
      run, s1, taken := SubmitsAreSteps(respond, Next(respond, s, read));
      run := RunCons(respond, s, read, run, s1);
      s' := s1;
      if s1.loop.Submitting? {
        rest, s' := ReadDoneIsSteps(respond, s1, e);
        RunConcat(respond, s, run, s1, rest, s');
        run := run + rest;
      }
    }
  }

  lemma ReadDoneIsSteps(respond: Responder, s: Server, e: ClientEvent) returns (run: seq<Step>, s': Server)
    requires s.loop.Submitting? && s.loop.frames == [] && s.pool.notifying == 0 && s.loop.fd in s.table.conns
    requires e.sent <= |s.table.conns[s.loop.fd].pending|
    requires e.writeFailed ==> s.table.conns[s.loop.fd].pending != []
    ensures Run(respond, s, run, s') && s'.loop == Polling
    ensures s'.pool == s.pool
    ensures s'.table == if s.loop.status != ReadReady then Closed(s.table, s.loop.fd)
                        else Flushed(s.table, s.loop.fd, e.sent, e.writeFailed, e.modifyOk)
  {
    s' := Next(respond, s, ReadDone);
    run := [];
    if s.loop.status == ReadReady {
      run, s' := FlushIsStep(respond, s', e);
    }
    run := RunCons(respond, s, ReadDone, run, s');
  }

  // ------------------------------------------------- from runs to the handlers

  /** A run that ends when the loop's thread is next at its wait. */
  ghost predicate UntilPolling(respond: Responder, s: Server, run: seq<Step>, s': Server)
    decreases |run|
  {
    if run == [] then s' == s && s.loop == Polling
    else s.loop != Polling && Enabled(s, run[0]) && UntilPolling(respond, Next(respond, s, run[0]), run[1..], s')
  }

  /** The workers leave alone what belongs to the loop's thread, and submit nothing. */
  lemma WorkersLeaveLoop(respond: Responder, s: Server, step: Step)
    requires Enabled(s, step) && !OfLoop(step)
    ensures var s' := Next(respond, s, step);
            && s'.loop == s.loop && s'.table == s.table
            && s'.pool.accepted == s.pool.accepted && s.completed <= s'.completed
  {
  }

  lemma {:induction false} FlushOfRun(respond: Responder, s: Server, run: seq<Step>, s': Server) returns (flush: Step)
    requires s.loop.Flushing? && UntilPolling(respond, s, run, s')
    ensures flush.Flush? && flush in run && s'.pool.accepted == s.pool.accepted
    ensures s.loop.fd in s.table.conns && flush.sent <= |s.table.conns[s.loop.fd].pending|
    ensures flush.writeFailed ==> s.table.conns[s.loop.fd].pending != []
    ensures s'.table == Flushed(s.table, s.loop.fd, flush.sent, flush.writeFailed, flush.modifyOk)
    decreases |run|
  {
    if OfLoop(run[0]) {
      flush := run[0];
    } else {
      WorkersLeaveLoop(respond, s, run[0]);
      flush := FlushOfRun(respond, Next(respond, s, run[0]), run[1..], s');
    }
  }

  /** What a run submits from here on, and how it ends. */
  ghost predicate SubmitsInRun(s: Server, run: seq<Step>, s': Server, taken: nat, flush: Step)
    requires s.loop.Submitting? && flush.Flush?
  {
    && taken <= |s.loop.frames|
    && s'.pool.accepted == s.pool.accepted + TasksOf(s.loop.fd, s.loop.id, s.loop.frames)[..taken]
    && if taken < |s.loop.frames| || s.loop.status != ReadReady then s'.table == Closed(s.table, s.loop.fd)
       else
         && flush in run && s.loop.fd in s.table.conns
         && flush.sent <= |s.table.conns[s.loop.fd].pending|
         && (flush.writeFailed ==> s.table.conns[s.loop.fd].pending != [])
         && s'.table == Flushed(s.table, s.loop.fd, flush.sent, flush.writeFailed, flush.modifyOk)
  }

  lemma SubmitsOneMore(s: Server, s1: Server, run: seq<Step>, s': Server, taken: nat, flush: Step)
    requires flush.Flush? && run != [] && s.loop.Submitting? && s.loop.frames != []
    requires s1.loop == s.loop.(frames := s.loop.frames[1..], admitted := false) && s1.table == s.table
    requires s1.pool.accepted == s.pool.accepted + [NextTask(s)]
    requires SubmitsInRun(s1, run[1..], s', taken, flush)
    ensures SubmitsInRun(s, run, s', taken + 1, flush)
  {
    var tasks := TasksOf(s.loop.fd, s.loop.id, s.loop.frames);
    var rest := TasksOf(s.loop.fd, s.loop.id, s1.loop.frames)[..taken];
    assert tasks[..taken + 1] == [NextTask(s)] + rest;
    AppendAssociates(s.pool.accepted, [NextTask(s)], rest);
  }

  lemma {:induction false} SubmitsOfRun(respond: Responder, s: Server, run: seq<Step>, s': Server)
    returns (taken: nat, flush: Step)
    requires s.loop.Submitting? && UntilPolling(respond, s, run, s')
    ensures flush.Flush? && SubmitsInRun(s, run, s', taken, flush)
    decreases |run|
  {
    taken, flush := 0, Flush(0, false, true);
    AppendEmpty(s.pool.accepted);
    var s1 := Next(respond, s, run[0]);
    if s1.loop.Flushing? {
      flush := FlushOfRun(respond, s1, run[1..], s');
    } else if s1.loop.Submitting? {
      taken, flush := SubmitsOfRun(respond, s1, run[1..], s');
      if run[0] == Submit {
        SubmitsOneMore(s, s1, run, s', taken, flush);
        taken := taken + 1;
      } else {
        SameSubmits(respond, s, run[0]);
      }
    }
  }

  lemma SameSubmits(respond: Responder, s: Server, step: Step)
    requires s.loop.Submitting? && Enabled(s, step) && step != Submit && Next(respond, s, step).loop.Submitting?
    ensures var s1 := Next(respond, s, step);
            && s1.loop.(admitted := s.loop.admitted) == s.loop && s1.table == s.table
            && s1.pool.accepted == s.pool.accepted
  {
  }

  /** The steps that begin a client event. */
  predicate Begins(step: Step, fd: int) {
    match step
    case Hangup(f) => f == fd
    case Read(f, _, _) => f == fd
    case Writable(f) => f == fd
    case _ => false
  }

  /** `handleClientEvent`, whatever the workers do meanwhile: the run does to the
      loop's data what the handler does for the answers `e` met in the run, and
      what it submits is the prefix of the frames that `e` counts. */
  lemma ClientEventOfRun(respond: Responder, s: Server, fd: int, step: Step, run: seq<Step>, s': Server)
    returns (e: ClientEvent)
    requires s.loop == Polling && Enabled(s, step) && Begins(step, fd)
    requires UntilPolling(respond, Next(respond, s, step), run, s')
    ensures fd in s.table.conns && EventPossible(s.table, fd, e)
    ensures s'.table == AfterClientEvent(s.table, fd, e)
    ensures step == if e.hangup then Hangup(fd) else if e.readable then Read(fd, e.bytes, e.status) else Writable(fd)
    ensures !e.hangup && (e.readable ==> e.taken == |FramesRead(s.table, fd, e).frames| && e.status == ReadReady) ==>
              Flush(e.sent, e.writeFailed, e.modifyOk) in run
    ensures s'.pool.accepted == s.pool.accepted +
              if step.Read?
              then TasksOf(fd, s.table.conns[fd].id, FramesRead(s.table, fd, e).frames)[..e.taken] else []
  {
    var s1 := Next(respond, s, step);
    AppendEmpty(s.pool.accepted);
    e := ClientEvent(step.Hangup?, step.Read?, [], ReadReady, 0, 0, false, true);
    if step.Read? {
      var taken, flush := SubmitsOfRun(respond, s1, run, s');
      e := e.(bytes := step.bytes, status := step.status, taken := taken);
      if taken == |s1.loop.frames| && step.status == ReadReady {
        e := e.(sent := flush.sent, writeFailed := flush.writeFailed, modifyOk := flush.modifyOk);
      }
    } else if step.Writable? {
      var flush := FlushOfRun(respond, s1, run, s');
      e := e.(sent := flush.sent, writeFailed := flush.writeFailed, modifyOk := flush.modifyOk);
    }
  }

  lemma {:induction false} DispatchesOfRun(respond: Responder, s: Server, run: seq<Step>, s': Server)
    returns (modifyOk: seq<bool>)
    requires s.loop.Delivering? && UntilPolling(respond, s, run, s')
    ensures |modifyOk| == |s.loop.batch| && s'.table == AfterDispatches(s.table, s.loop.batch, modifyOk)
    ensures s'.pool.accepted == s.pool.accepted
    decreases |run|
  {
    modifyOk := [];
    var s1 := Next(respond, s, run[0]);
    if !OfLoop(run[0]) {
      WorkersLeaveLoop(respond, s, run[0]);
      modifyOk := DispatchesOfRun(respond, s1, run[1..], s');
    } else if s.loop.batch != [] {
      var rest := DispatchesOfRun(respond, s1, run[1..], s');
      modifyOk := [run[0].modifyOk] + rest;
      assert modifyOk[1..] == rest;
    }
  }

  /** `handleProcessingResults` behind its `consume`, whatever the workers do
      meanwhile: it dispatches, in order, all results stored when it began and
      perhaps some stored before it took them. */
  lemma {:induction false} ResultsOfRun(respond: Responder, s: Server, run: seq<Step>, s': Server)
    returns (batch: seq<Result>, modifyOk: seq<bool>)
    requires s.loop == Consumed && UntilPolling(respond, s, run, s')
    ensures s.completed <= batch && |modifyOk| == |batch|
    ensures s'.table == AfterDispatches(s.table, batch, modifyOk)
    ensures s'.pool.accepted == s.pool.accepted
    decreases |run|
  {
    var s1 := Next(respond, s, run[0]);
    if OfLoop(run[0]) {
      batch := s.completed;
      modifyOk := DispatchesOfRun(respond, s1, run[1..], s');
    } else {
      WorkersLeaveLoop(respond, s, run[0]);
      batch, modifyOk := ResultsOfRun(respond, s1, run[1..], s');
    }
  }
}
