/** What happens eventually in the whole server: the result of every accepted
    frame is dispatched to its connection, unless a failure of the notifier is
    recorded or the loop returns.

    Assumed are three kinds of fairness: of the pool's threads, as in
    `ThreadPoolLiveness`; of the loop's thread between two waits; and of the
    wait, which reports a counter that is positive again and again.
 */
module ServerLiveness {
  import opened Wire
  import opened Kernel
  import opened BoundedQueues
  import opened EventFds
  import opened ConnectionTables
  import opened Dispatching
  import opened ServerModel
  import opened ServerSafety
  import opened ServerConservation
  import TP = ThreadPoolModel
  import TPL = ThreadPoolLiveness

  // ------------------------------------------------------------ runs and fairness

  ghost predicate StepAt(respond: Responder, states: nat -> Server, steps: nat -> Step, i: nat) {
    Enabled(states(i), steps(i)) && states(i + 1) == Next(respond, states(i), steps(i))
  }

  ghost predicate IsRun(respond: Responder, states: nat -> Server, steps: nat -> Step) {
    Initial(states(0)) && forall i: nat :: StepAt(respond, states, steps, i)
  }

  /** What a step of the server is to the pool. */
  function PoolStepOf(s: Server, step: Step): TP.Action<Task> {
    match step
    case Background(a) => a
    case PublishPush(w) => TP.Act(w)
    case PublishNotify(w, _) => TP.Return(w)
    case Submit => if s.loop.Submitting? && s.loop.frames != [] then TP.Push(NextTask(s)) else TP.Idle
    case _ => TP.Idle
  }

  function PoolStates(states: nat -> Server): nat -> TP.Pool<Task> {
    (i: nat) => states(i).pool
  }

  function PoolSteps(states: nat -> Server, steps: nat -> Step): nat -> TP.Action<Task> {
    (i: nat) => PoolStepOf(states(i), steps(i))
  }

  predicate AtWait(s: Server) {
    s.loop == Polling || s.loop == Returned
  }

  /** Steps of the loop's thread, including the `notify_one` behind a push. */
  predicate OfLoopThread(step: Step) {
    OfLoop(step) || (step.Background? && step.a.NotifyOne?)
  }

  ghost predicate LoopMoves(states: nat -> Server, steps: nat -> Step, n: nat) {
    exists j: nat :: n <= j && (AtWait(states(j)) || OfLoopThread(steps(j)))
  }

  predicate Signalled(s: Server) {
    s.loop == Polling && s.counter > 0
  }

  predicate Consumes(step: Step) {
    step.Consume? && step.c.success
  }

  ghost predicate NoSignalFrom(states: nat -> Server, j: nat) {
    forall i: nat :: j <= i ==> !Signalled(states(i))
  }

  ghost predicate Reported(states: nat -> Server, steps: nat -> Step, n: nat) {
    || (exists j: nat :: n <= j && Consumes(steps(j)))
    || (exists j: nat :: n <= j && NoSignalFrom(states, j))
  }

  ghost predicate Fair(states: nat -> Server, steps: nat -> Step) {
    && TPL.WeaklyFair(PoolStates(states), PoolSteps(states, steps))
    && (forall n: nat :: LoopMoves(states, steps, n))
    && (forall n: nat :: Reported(states, steps, n))
  }

  /** The assumptions can be met: a server without clients, whose worker sleeps
      and whose loop finds the counter at zero for ever. */
  lemma FairRunExists(respond: Responder) returns (states: nat -> Server, steps: nat -> Step)
    ensures IsRun(respond, states, steps) && Fair(states, steps)
  {
    var ready: seq<TP.Worker<Task>>, waiting: seq<TP.Worker<Task>> := [TP.Ready], [TP.Waiting];
    var pool: TP.Pool<Task> := TP.Pool(1, QueueState([], false), ready, 0, false, TP.NoStopper, [], [], 0);
    var first := Server(pool, [], 0, 0, Polling, Table(map[], 1, {}, {}, map[]), map[]);
    var asleep := first.(pool := pool.(workers := waiting));
    var check, nothing := Background(TP.Check(0)), Consume(ConsumeResult(false, 0, EAGAIN));
    states := (i: nat) => if i == 0 then first else asleep;
    steps := (i: nat) => if i == 0 then check else nothing;
    assert Next(respond, first, check) == asleep by {
      assert ready[0 := TP.Waiting] == waiting;
    }
    forall i: nat
      ensures StepAt(respond, states, steps, i)
    {
    }
    forall n: nat
      ensures LoopMoves(states, steps, n) && Reported(states, steps, n)
    {
      assert AtWait(states(n)) && NoSignalFrom(states, n);
    }
    forall a: TP.Action<Task>, n: nat | TPL.Fair(a)
      ensures TPL.Resolved(PoolStates(states), PoolSteps(states, steps), a, n)
    {
      assert !TP.Enabled(PoolStates(states)(n + 1), a);
    }
  }

  lemma PoolStepIs(respond: Responder, s: Server, step: Step)
    requires Enabled(s, step)
    ensures TP.Enabled(s.pool, PoolStepOf(s, step))
    ensures Next(respond, s, step).pool == TP.Next(s.pool, PoolStepOf(s, step))
  {
  }

  lemma PoolRun(respond: Responder, states: nat -> Server, steps: nat -> Step)
    requires IsRun(respond, states, steps)
    ensures TPL.IsRun(PoolStates(states), PoolSteps(states, steps))
  {
    forall i: nat
      ensures TPL.StepAt(PoolStates(states), PoolSteps(states, steps), i)
    {
      assert StepAt(respond, states, steps, i);
      PoolStepIs(respond, states(i), steps(i));
    }
  }

  // --------------------------------------------------- the line of stored results

  /** How many published results have been dispatched. */
  function Dispatched(s: Server): nat {
    var waiting := |Batch(s.loop)| + |s.completed|;
    if waiting <= |s.pool.ran| then |s.pool.ran| - waiting else 0
  }

  /** `r` is the result of the task that was the `i`-th to act. */
  predicate IsResult(respond: Responder, p: TP.Pool<Task>, i: nat, r: Result) {
    i < |p.ran| && p.ran[i] < |p.accepted| && r == ProcessFrame(respond, p.accepted[p.ran[i]])
  }

  ghost predicate AreResults(respond: Responder, p: TP.Pool<Task>, from: nat, line: seq<Result>) {
    forall i :: 0 <= i < |line| ==> IsResult(respond, p, from + i, line[i])
  }

  predicate Dispatches(s: Server, step: Step) {
    step.Deliver? && s.loop.Delivering? && s.loop.batch != []
  }

  function Line(s: Server): seq<Result> {
    Batch(s.loop) + s.completed
  }

  /** The batch and the result list hold the results published last, in order. */
  ghost predicate LineInv(respond: Responder, s: Server) {
    |Line(s)| <= |s.pool.ran| && AreResults(respond, s.pool, Dispatched(s), Line(s))
  }

  lemma HistoryOfStep(respond: Responder, s: Server, step: Step)
    requires Enabled(s, step)
    ensures var s' := Next(respond, s, step);
            && s.pool.accepted <= s'.pool.accepted
            && s'.pool.ran == s.pool.ran + (if step.PublishPush? then [s.pool.workers[step.w].ticket] else [])
  {
  }

  /** The line grows at its end when a worker publishes and shrinks at its front
      when the loop dispatches. */
  lemma LineStep(respond: Responder, s: Server, step: Step)
    returns (gone: seq<Result>, left: seq<Result>, added: seq<Result>)
    requires Enabled(s, step)
    ensures Line(s) == gone + left && Line(Next(respond, s, step)) == left + added
    ensures gone == if Dispatches(s, step) then [s.loop.batch[0]] else []
    ensures added == if step.PublishPush? then [ProcessFrame(respond, s.pool.workers[step.w].task)] else []
  {
    gone, left, added := [], Line(s), [];
    AppendEmpty(left);
    if Dispatches(s, step) {
      gone, left := [s.loop.batch[0]], Line(NextDeliver(s, step.modifyOk));
      AppendEmpty(left);
      LineDispatch(s, step.modifyOk);
    } else if step.PublishPush? {
      added := [ProcessFrame(respond, s.pool.workers[step.w].task)];
      LinePublish(respond, s, step.w);
    } else {
      LineStays(respond, s, step);
    }
  }

  lemma LineDispatch(s: Server, modifyOk: bool)
    requires Dispatches(s, Deliver(modifyOk)) && Enabled(s, Deliver(modifyOk))
    ensures Line(s) == [s.loop.batch[0]] + Line(NextDeliver(s, modifyOk))
  {
    assert s.loop.batch == [s.loop.batch[0]] + s.loop.batch[1..];
    AppendAssociates([s.loop.batch[0]], s.loop.batch[1..], s.completed);
  }

  lemma LinePublish(respond: Responder, s: Server, w: nat)
    requires Enabled(s, PublishPush(w))
    ensures Line(NextPush(respond, s, w)) == Line(s) + [ProcessFrame(respond, s.pool.workers[w].task)]
  {
    AppendAssociates(Batch(s.loop), s.completed, [ProcessFrame(respond, s.pool.workers[w].task)]);
  }

  lemma LineStays(respond: Responder, s: Server, step: Step)
    requires Enabled(s, step) && !Dispatches(s, step) && !step.PublishPush?
    ensures Line(Next(respond, s, step)) == Line(s)
  {
  }

  /** A worker that publishes holds the task of its ticket. */
  predicate HoldsItsTask(s: Server, step: Step)
    requires Enabled(s, step)
  {
    step.PublishPush? ==>
      var w := s.pool.workers[step.w];
      w.ticket < |s.pool.accepted| && w.task == s.pool.accepted[w.ticket]
  }

  lemma ResultsKept(respond: Responder, p: TP.Pool<Task>, from: nat, gone: seq<Result>, left: seq<Result>,
                    q: TP.Pool<Task>)
    requires AreResults(respond, p, from, gone + left) && p.accepted <= q.accepted && p.ran <= q.ran
    ensures AreResults(respond, q, from + |gone|, left)
  {
    forall i | 0 <= i < |left|
      ensures IsResult(respond, q, from + |gone| + i, left[i])
    {
      assert IsResult(respond, p, from + (|gone| + i), (gone + left)[|gone| + i]);
    }
  }

  lemma ResultAdded(respond: Responder, p: TP.Pool<Task>, from: nat, line: seq<Result>, r: Result)
    requires AreResults(respond, p, from, line) && IsResult(respond, p, from + |line|, r)
    ensures AreResults(respond, p, from, line + [r])
  {
  }

  lemma LineCount(respond: Responder, s: Server, step: Step)
    requires |Line(s)| <= |s.pool.ran| && Enabled(s, step)
    ensures |Line(Next(respond, s, step))| <= |Next(respond, s, step).pool.ran|
    ensures Dispatched(Next(respond, s, step)) == Dispatched(s) + (if Dispatches(s, step) then 1 else 0)
  {
    var gone, left, added := LineStep(respond, s, step);
    HistoryOfStep(respond, s, step);
    assert |Line(s)| == |Batch(s.loop)| + |s.completed|;
  }

  lemma LineFollows(respond: Responder, s: Server, s': Server, gone: seq<Result>, left: seq<Result>, added: seq<Result>)
    requires LineInv(respond, s) && Line(s) == gone + left && Line(s') == left + added
    requires s.pool.accepted <= s'.pool.accepted && s.pool.ran <= s'.pool.ran && |Line(s')| <= |s'.pool.ran|
    requires Dispatched(s') == Dispatched(s) + |gone|
    requires added == [] || (&& |added| == 1
                             && IsResult(respond, s'.pool, Dispatched(s') + |left|, added[0]))
    ensures LineInv(respond, s')
  {
    ResultsKept(respond, s.pool, Dispatched(s), gone, left, s'.pool);
    if added != [] {
      assert added == [added[0]];
      ResultAdded(respond, s'.pool, Dispatched(s'), left, added[0]);
    } else {
      AppendEmpty(left);
    }
  }

  lemma LineStepInv(respond: Responder, s: Server, step: Step)
    requires LineInv(respond, s) && Enabled(s, step) && HoldsItsTask(s, step)
    ensures LineInv(respond, Next(respond, s, step))
    ensures Dispatched(Next(respond, s, step)) == Dispatched(s) + (if Dispatches(s, step) then 1 else 0)
  {
    LineCount(respond, s, step);
    HistoryOfStep(respond, s, step);
    var gone, left, added := LineStep(respond, s, step);
    LineFollows(respond, s, Next(respond, s, step), gone, left, added);
  }

  lemma {:induction false} StatesInv(respond: Responder, states: nat -> Server, steps: nat -> Step, n: nat)
    requires IsRun(respond, states, steps)
    ensures ServerInv(respond, states(n))
  {
    if n == 0 {
      InitialServerInv(respond, states(0));
    } else {
      StatesInv(respond, states, steps, n - 1);
      assert StepAt(respond, states, steps, n - 1);
      ServerStepInv(respond, states(n - 1), steps(n - 1));
    }
  }

  lemma TicketOfWorker(respond: Responder, s: Server, step: Step)
    requires ServerInv(respond, s) && Enabled(s, step)
    ensures HoldsItsTask(s, step)
  {
  }

  lemma StepHolds(respond: Responder, states: nat -> Server, steps: nat -> Step, n: nat)
    requires IsRun(respond, states, steps)
    ensures StepAt(respond, states, steps, n) && HoldsItsTask(states(n), steps(n))
  {
    assert StepAt(respond, states, steps, n);
    StatesInv(respond, states, steps, n);
    TicketOfWorker(respond, states(n), steps(n));
  }

  lemma {:induction false} StatesLine(respond: Responder, states: nat -> Server, steps: nat -> Step, n: nat)
    requires IsRun(respond, states, steps)
    ensures LineInv(respond, states(n))
  {
    if n > 0 {
      StatesLine(respond, states, steps, n - 1);
      StepHolds(respond, states, steps, n - 1);
      LineStepInv(respond, states(n - 1), steps(n - 1));
    }
  }

  /** What a step adds to the histories. */
  lemma Moves(respond: Responder, states: nat -> Server, steps: nat -> Step, i: nat)
    requires IsRun(respond, states, steps)
    ensures StepAt(respond, states, steps, i)
    ensures states(i).pool.accepted <= states(i + 1).pool.accepted
    ensures states(i).pool.ran <= states(i + 1).pool.ran
    ensures Dispatched(states(i + 1)) == Dispatched(states(i)) + (if Dispatches(states(i), steps(i)) then 1 else 0)
  {
    StatesLine(respond, states, steps, i);
    StepHolds(respond, states, steps, i);
    HistoryOfStep(respond, states(i), steps(i));
    LineStepInv(respond, states(i), steps(i));
  }

  lemma {:induction false} HistoryGrows(respond: Responder, states: nat -> Server, steps: nat -> Step, n: nat, m: nat)
    requires IsRun(respond, states, steps) && n <= m
    ensures states(n).pool.accepted <= states(m).pool.accepted && states(n).pool.ran <= states(m).pool.ran
    ensures Dispatched(states(n)) <= Dispatched(states(m))
    decreases m
  {
    if n < m {
      HistoryGrows(respond, states, steps, n, m - 1);
      Moves(respond, states, steps, m - 1);
    }
  }

  // ------------------------------------------------- the loop's thread comes back

  function Stage(s: Server): nat {
    if s.loop == Consumed then 1 else 0
  }

  /** What the loop's thread still has to do before its next wait. */
  function Work(s: Server): nat {
    s.pool.notifying +
    match s.loop
    case Delivering(batch) => |batch| + 1
    case Submitting(_, _, frames, _, admitted) => 3 * |frames| + (if admitted then 2 else 3)
    case Flushing(_) => 1
    case _ => 0
  }

  lemma WorkStep(respond: Responder, s: Server, step: Step)
    requires Enabled(s, step) && !AtWait(s)
    ensures var s' := Next(respond, s, step);
            if OfLoopThread(step)
            then AtWait(s') || Stage(s') < Stage(s) || (Stage(s') == Stage(s) && Work(s') < Work(s))
            else s'.loop == s.loop && Stage(s') == Stage(s) && Work(s') == Work(s)
  {
    match step
    case Background(_) =>
    case PublishPush(_) =>
    case PublishNotify(_, _) =>
    case Submit => SubmitWork(s);
    case _ =>
  }

  lemma SubmitWork(s: Server)
    requires Enabled(s, Submit)
    ensures AtWait(NextSubmit(s)) || (Stage(NextSubmit(s)) == Stage(s) && Work(NextSubmit(s)) < Work(s))
  {
    if SubmitStatusOf(s) == Submitted {
      var s' := NextSubmit(s);
      assert s'.pool.notifying == 1 && |s'.loop.frames| == |s.loop.frames| - 1;
    }
  }

  lemma {:induction false} ReachesWait(respond: Responder, states: nat -> Server, steps: nat -> Step, n: nat)
    returns (m: nat)
    requires IsRun(respond, states, steps) && Fair(states, steps)
    ensures m >= n && AtWait(states(m))
    decreases Stage(states(n)), Work(states(n))
  {
    m := n;
    if !AtWait(states(n)) {
      assert LoopMoves(states, steps, n);
      var j: nat :| n <= j && (AtWait(states(j)) || OfLoopThread(steps(j)));
      while m < j && !OfLoopThread(steps(m))
        invariant n <= m <= j && states(m).loop == states(n).loop
        invariant Stage(states(m)) == Stage(states(n)) && Work(states(m)) == Work(states(n))
      {
        assert StepAt(respond, states, steps, m);
        WorkStep(respond, states(m), steps(m));
        m := m + 1;
      }
      assert StepAt(respond, states, steps, m);
      WorkStep(respond, states(m), steps(m));
      m := m + 1;
      if !AtWait(states(m)) {
        m := ReachesWait(respond, states, steps, m);
      }
    }
  }

  // ------------------------------------------------------ results are dispatched

  /** The loop is bound to dispatch something before its next wait. */
  predicate Committed(s: Server) {
    (s.loop == Consumed && s.completed != []) || (s.loop.Delivering? && s.loop.batch != [])
  }

  lemma CommittedStep(respond: Responder, s: Server, step: Step)
    requires Enabled(s, step) && Committed(s) && !Dispatches(s, step)
    ensures Committed(Next(respond, s, step))
  {
  }

  lemma CommittedAdvances(respond: Responder, states: nat -> Server, steps: nat -> Step, n: nat) returns (m: nat)
    requires IsRun(respond, states, steps) && Fair(states, steps)
    requires Committed(states(n))
    ensures m > n && Dispatched(states(m)) > Dispatched(states(n))
  {
    var wait := ReachesWait(respond, states, steps, n);
    m := n;
    while !Dispatches(states(m), steps(m))
      invariant n <= m <= wait && Committed(states(m)) && Dispatched(states(m)) == Dispatched(states(n))
      decreases wait - m
    {
      Moves(respond, states, steps, m);
      CommittedStep(respond, states(m), steps(m));
      m := m + 1;
    }
    Moves(respond, states, steps, m);
    m := m + 1;
  }

  lemma CounterStep(respond: Responder, s: Server, step: Step)
    requires Enabled(s, step) && s.counter > 0 && !Consumes(step)
    ensures Next(respond, s, step).counter > 0
  {
  }

  /** A positive counter is consumed: it stays positive, and the loop comes back
      to its wait, so that the wait reports it. */
  lemma CounterConsumed(respond: Responder, states: nat -> Server, steps: nat -> Step, n: nat) returns (m: nat)
    requires IsRun(respond, states, steps) && Fair(states, steps)
    requires states(n).counter > 0
    ensures m >= n && (Consumes(steps(m)) || states(m).loop == Returned)
  {
    assert Reported(states, steps, n);
    if exists j: nat :: n <= j && Consumes(steps(j)) {
      m :| n <= m && Consumes(steps(m));
    } else {
      var j: nat :| n <= j && NoSignalFrom(states, j);
      m := ReachesWait(respond, states, steps, j);
      var i := n;
      while i < m
        invariant n <= i <= m && states(i).counter > 0
      {
        assert StepAt(respond, states, steps, i);
        CounterStep(respond, states(i), steps(i));
        i := i + 1;
      }
      assert !Signalled(states(m));
    }
  }

  lemma CounterAdvances(respond: Responder, states: nat -> Server, steps: nat -> Step, n: nat) returns (m: nat)
    requires IsRun(respond, states, steps) && Fair(states, steps)
    requires states(n).counter > 0 && Dispatched(states(n)) < |states(n).pool.ran|
    ensures m >= n && (Dispatched(states(m)) > Dispatched(states(n)) || states(m).loop == Returned)
  {
    m := CounterConsumed(respond, states, steps, n);
    if Consumes(steps(m)) {
      assert StepAt(respond, states, steps, m);
      m := m + 1;
      HistoryGrows(respond, states, steps, n, m);
      if Dispatched(states(m)) == Dispatched(states(n)) {
        m := CommittedAdvances(respond, states, steps, m);
      }
    }
  }

  lemma NotifyTells(respond: Responder, s: Server, step: Step)
    requires Enabled(s, step) && step.PublishNotify?
    ensures Next(respond, s, step).counter > 0 || Next(respond, s, step).error != 0
  {
  }

  /** A worker about to notify does. */
  lemma WorkerNotifies(respond: Responder, states: nat -> Server, steps: nat -> Step, n: nat, w: nat) returns (m: nat)
    requires IsRun(respond, states, steps) && Fair(states, steps)
    requires w < |states(n).pool.workers| && states(n).pool.workers[w].Ran?
    ensures m >= n && (states(m).counter > 0 || states(m).error != 0)
  {
    PoolRun(respond, states, steps);
    m := TPL.WorkerMoves(PoolStates(states), PoolSteps(states, steps), n, w);
    assert StepAt(respond, states, steps, m);
    assert PoolStepOf(states(m), steps(m)) == TP.Return(w);
    NotifyTells(respond, states(m), steps(m));
    m := m + 1;
  }

  predicate Failed(s: Server) {
    s.error != 0 || s.loop == Returned
  }

  /** While a published result is not dispatched, another one is. */
  lemma Advances(respond: Responder, states: nat -> Server, steps: nat -> Step, n: nat) returns (m: nat)
    requires IsRun(respond, states, steps) && Fair(states, steps)
    requires Dispatched(states(n)) < |states(n).pool.ran|
    ensures m >= n && (Dispatched(states(m)) > Dispatched(states(n)) || Failed(states(m)))
  {
    StatesInv(respond, states, steps, n);
    var s := states(n);
    m := n;
    if Committed(s) {
      m := CommittedAdvances(respond, states, steps, n);
    } else if s.counter > 0 {
      m := CounterAdvances(respond, states, steps, n);
    } else if s.error == 0 {
      assert s.completed != [] && SomeRan(s.pool);
      var w :| 0 <= w < |s.pool.workers| && s.pool.workers[w].Ran?;
      m := WorkerNotifies(respond, states, steps, n, w);
      HistoryGrows(respond, states, steps, n, m);
      if states(m).error == 0 && Dispatched(states(m)) == Dispatched(s) {
        m := CounterAdvances(respond, states, steps, m);
      }
    }
  }

  lemma {:induction false} DispatchedPast(respond: Responder, states: nat -> Server, steps: nat -> Step, n: nat, i: nat)
    returns (m: nat)
    requires IsRun(respond, states, steps) && Fair(states, steps)
    requires i < |states(n).pool.ran|
    ensures m >= n && (Dispatched(states(m)) > i || Failed(states(m)))
    decreases i - Dispatched(states(n))
  {
    m := n;
    if Dispatched(states(n)) <= i {
      m := Advances(respond, states, steps, n);
      if !Failed(states(m)) {
        HistoryGrows(respond, states, steps, n, m);
        m := DispatchedPast(respond, states, steps, m, i);
      }
    }
  }

  /** The step that dispatched the `i`-th published result. */
  lemma {:induction false} DispatchStep(respond: Responder, states: nat -> Server, steps: nat -> Step, n: nat, i: nat)
    returns (m: nat)
    requires IsRun(respond, states, steps) && i < Dispatched(states(n))
    ensures m < n && Dispatched(states(m)) == i
    ensures Dispatches(states(m), steps(m))
  {
    if n > 0 {
      Moves(respond, states, steps, n - 1);
      if i < Dispatched(states(n - 1)) {
        m := DispatchStep(respond, states, steps, n - 1, i);
      } else {
        m := n - 1;
      }
    }
  }

  /** Step `step` dispatches the result of ticket `k`, the task `task`: afterwards
      the response is the last one on its connection, or the connection is gone. */
  ghost predicate Answers(respond: Responder, s: Server, step: Step, s': Server, k: nat, task: Task) {
    && Dispatches(s, step) && s.loop.batch[0] == ProcessFrame(respond, task)
    && Dispatched(s) < |s.pool.ran| && s.pool.ran[Dispatched(s)] == k
    && task.id in s.hist && task.id in s'.hist
    && (IsOpen(s', task.id) ==> s'.hist[task.id].delivered == s.hist[task.id].delivered + [respond(task)])
  }

  lemma DeliverAnswers(respond: Responder, s: Server, step: Step, k: nat, task: Task)
    requires ServerInv(respond, s) && LineInv(respond, s) && Enabled(s, step)
    requires Dispatches(s, step) && Dispatched(s) < |s.pool.ran|
    requires s.pool.ran[Dispatched(s)] == k && k < |s.pool.accepted| && s.pool.accepted[k] == task
    ensures Answers(respond, s, step, Next(respond, s, step), k, task)
  {
    var b := s.loop.batch[0];
    assert Line(s)[0] == b && IsResult(respond, s.pool, Dispatched(s) + 0, Line(s)[0]);
    assert Owned(s.hist, b.fd, b.id);
    LostOnlyWhenClosed(respond, s, step, b);
    HistoryKept(respond, s, step);
    if Fits(s, b) {
      DeliveredLast(s, step.modifyOk);
      assert Next(respond, s, step).hist[b.id].delivered == s.hist[b.id].delivered + [b.response];
    }
  }

  /** Every accepted frame is answered: in every fair run some step dispatches
      its own result, which then is on its connection unless that is gone; or
      the notifier has failed, or the loop has returned. */
  lemma EveryFrameAnswered(respond: Responder, states: nat -> Server, steps: nat -> Step, n: nat, k: nat)
    returns (m: nat)
    requires IsRun(respond, states, steps) && Fair(states, steps)
    requires k < |states(n).pool.accepted|
    ensures Failed(states(m))
            || Answers(respond, states(m), steps(m), states(m + 1), k, states(n).pool.accepted[k])
  {
    PoolRun(respond, states, steps);
    m := TPL.EveryTaskActs(PoolStates(states), PoolSteps(states, steps), n, k);
    assert k in states(m).pool.ran;
    var i: nat :| i < |states(m).pool.ran| && states(m).pool.ran[i] == k;
    var acted := m;
    m := DispatchedPast(respond, states, steps, acted, i);
    if !Failed(states(m)) {
      var past := m;
      m := DispatchStep(respond, states, steps, past, i);
      HistoryGrows(respond, states, steps, acted, past);
      HistoryGrows(respond, states, steps, m, past);
      HistoryGrows(respond, states, steps, n, past);
      StepAnswers(respond, states, steps, m, k, states(past).pool.ran, states(past).pool.accepted);
    }
  }

  lemma StepAnswers(respond: Responder, states: nat -> Server, steps: nat -> Step, m: nat, k: nat,
                    ran: seq<nat>, accepted: seq<Task>)
    requires IsRun(respond, states, steps) && Dispatches(states(m), steps(m))
    requires states(m).pool.ran <= ran && states(m).pool.accepted <= accepted
    requires Dispatched(states(m)) < |ran| && ran[Dispatched(states(m))] == k && k < |accepted|
    ensures Answers(respond, states(m), steps(m), states(m + 1), k, accepted[k])
  {
    StatesInv(respond, states, steps, m);
    StatesLine(respond, states, steps, m);
    assert StepAt(respond, states, steps, m);
    assert IsResult(respond, states(m).pool, Dispatched(states(m)) + 0, Line(states(m))[0]);
    DeliverAnswers(respond, states(m), steps(m), k, accepted[k]);
  }
}
