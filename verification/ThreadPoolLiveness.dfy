/** What happens eventually, under weak fairness: every accepted task acts, and
    every caller of `stop` that has locked `stop_mutex_` returns.
 */
module ThreadPoolLiveness {
  import opened ThreadPoolModel
  import opened ThreadPoolSafety
  import opened ThreadPoolTheorems

  /** An infinite execution: states and the steps between them. */
  ghost predicate IsRun<T(!new)>(states: nat -> Pool<T>, steps: nat -> Action<T>) {
    Initial(states(0)) && forall i: nat :: StepAt(states, steps, i)
  }

  ghost predicate StepAt<T(!new)>(states: nat -> Pool<T>, steps: nat -> Action<T>, i: nat) {
    Enabled(states(i), steps(i)) && states(i + 1) == Next(states(i), steps(i))
  }

  /** A step that stays possible is eventually taken. Submissions, spurious
      wakeups and new calls of `stop` need no fairness. */
  ghost predicate WeaklyFair<T(!new)>(states: nat -> Pool<T>, steps: nat -> Action<T>) {
    forall a: Action<T>, n: nat :: Fair(a) ==> Resolved(states, steps, a, n)
  }

  predicate Fair<T>(a: Action<T>) {
    || a.NotifyOne? || a.Check? || a.Act? || a.Return?
    || a.StopExchange? || a.StopClose? || a.StopNotifyAll? || a.StopJoin? || a.StopReturn?
  }

  ghost predicate Resolved<T(!new)>(states: nat -> Pool<T>, steps: nat -> Action<T>, a: Action<T>, n: nat) {
    exists j: nat :: n <= j && (!Enabled(states(j), a) || steps(j) == a)
  }

  function Weight<T>(w: Worker<T>): nat {
    match w
    case Exited => 0
    case Ready => 1
    case Waiting => 2
    case Ran(_) => 2
    case Running(_, _) => 3
  }

  function TotalWeight<T>(ws: seq<Worker<T>>): nat {
    if ws == [] then 0 else Weight(ws[0]) + TotalWeight(ws[1..])
  }

  /** The work left for the stopper: one notification, then one join a worker. */
  function StopperWeight<T>(p: Pool<T>): nat {
    match p.stopper
    case NotifyingAll => |p.workers| + 1
    case Joining(i) => if i <= |p.workers| then |p.workers| - i else 0
    case _ => 0
  }

  function Measure<T>(p: Pool<T>): nat {
    3 * |p.queue.items| + TotalWeight(p.workers) + p.notifying + StopperWeight(p)
  }

  lemma {:induction false} TotalWeightUpdate<T>(ws: seq<Worker<T>>, w: nat, to: Worker<T>)
    requires w < |ws|
    ensures TotalWeight(ws[w := to]) == TotalWeight(ws) - Weight(ws[w]) + Weight(to)
  {
    if w == 0 {
      assert ws[0 := to][1..] == ws[1..];
    } else {
      assert ws[w := to][1..] == ws[1..][w - 1 := to];
      TotalWeightUpdate(ws[1..], w - 1, to);
    }
  }

  lemma {:induction false} TotalWeightAwake<T>(ws: seq<Worker<T>>)
    ensures TotalWeight(Awake(ws)) <= TotalWeight(ws)
  {
    if ws != [] {
      assert Awake(ws)[1..] == Awake(ws[1..]);
      TotalWeightAwake(ws[1..]);
    }
  }

  /** A call of `stop` is past the closing of the queue. */
  ghost predicate Draining<T>(p: Pool<T>) {
    p.stopper == NotifyingAll || p.stopper.Joining?
  }

  /** While draining, every step that changes anything makes progress, and only
      its own return ends the call. */
  lemma DrainingStep<T>(p: Pool<T>, a: Action<T>)
    requires PoolInv(p) && Draining(p) && Enabled(p, a)
    ensures a != StopReturn ==> Draining(Next(p, a)) && Next(p, a).stopReturns == p.stopReturns
    ensures a != StopReturn ==> if a.Push? || a == Idle then Next(p, a) == p else Measure(Next(p, a)) < Measure(p)
    ensures a == StopReturn ==> Next(p, a).stopReturns > p.stopReturns
  {
    if !a.Push? && a != Idle && a != StopReturn {
      DrainingProgress(p, a);
    }
  }

  lemma DrainingProgress<T>(p: Pool<T>, a: Action<T>)
    requires PoolInv(p) && Draining(p) && Enabled(p, a) && !a.Push? && a != Idle && a != StopReturn
    ensures Measure(Next(p, a)) < Measure(p)
  {
    match a
    case NotifyOne(w) =>
      if SomeWaiting(p) {
        TotalWeightUpdate(p.workers, w, Ready);
      }
    case Check(w) => CheckProgress(p, w);
    case Wake(w) => TotalWeightUpdate(p.workers, w, Ready);
    case Act(w) => TotalWeightUpdate(p.workers, w, Ran(p.workers[w].ticket));
    case Return(w) => TotalWeightUpdate(p.workers, w, Ready);
    case StopNotifyAll => TotalWeightAwake(p.workers);
    case _ =>
  }

  lemma CheckProgress<T>(p: Pool<T>, w: nat)
    requires PoolInv(p) && Draining(p) && Enabled(p, Check(w))
    ensures Measure(Next(p, Check(w))) < Measure(p)
  {
    TotalWeightUpdate(p.workers, w, Next(p, Check(w)).workers[w]);
  }

  /** While draining some fair step is possible: the worker to be joined next can
      always move, so the shutdown is never stuck. */
  ghost function Urgent<T>(p: Pool<T>): (a: Action<T>)
    requires PoolInv(p) && Draining(p)
    ensures Fair(a) && Enabled(p, a)
  {
    if p.stopper == NotifyingAll then StopNotifyAll
    else if p.stopper.next == |p.workers| then StopReturn
    else
      var w := p.stopper.next;
      if p.workers[w] == Exited then StopJoin
      else if p.workers[w].Running? then Act(w)
      else if p.workers[w].Ran? then Return(w)
      else Check(w)
  }

  lemma {:induction false} StatesReachable<T(!new)>(states: nat -> Pool<T>, steps: nat -> Action<T>, n: nat)
    requires IsRun(states, steps)
    ensures Reachable(states(n))
  {
    if n == 0 {
      InitialReachable(states(0));
    } else {
      StatesReachable(states, steps, n - 1);
      assert StepAt(states, steps, n - 1);
      NextReachable(states(n - 1), steps(n - 1));
    }
  }

  lemma StatesInv<T(!new)>(states: nat -> Pool<T>, steps: nat -> Action<T>, n: nat)
    requires IsRun(states, steps)
    ensures PoolInv(states(n))
  {
    StatesReachable(states, steps, n);
    ReachableInv(states(n));
  }

  /** Either the call returns or the measure drops, some time after `n`. */
  lemma DrainingAdvances<T(!new)>(states: nat -> Pool<T>, steps: nat -> Action<T>, n: nat) returns (m: nat)
    requires IsRun(states, steps) && WeaklyFair(states, steps)
    requires Draining(states(n))
    ensures m > n
    ensures || states(m).stopReturns > states(n).stopReturns
            || (Draining(states(m)) && states(m).stopReturns == states(n).stopReturns
                && Measure(states(m)) < Measure(states(n)))
  {
    StatesInv(states, steps, n);
    var a := Urgent(states(n));
    assert Resolved(states, steps, a, n);
    var j: nat :| n <= j && (!Enabled(states(j), a) || steps(j) == a);
    m := n;
    while m < j && states(m + 1) == states(n)
      invariant n <= m <= j && states(m) == states(n)
    {
      m := m + 1;
    }
    assert StepAt(states, steps, m);
    DrainingStep(states(m), steps(m));
    m := m + 1;
  }

  lemma DrainingReturns<T(!new)>(states: nat -> Pool<T>, steps: nat -> Action<T>, n: nat) returns (m: nat)
    requires IsRun(states, steps) && WeaklyFair(states, steps)
    requires Draining(states(n))
    ensures m > n && states(m).stopReturns > states(n).stopReturns
    decreases Measure(states(n))
  {
    m := DrainingAdvances(states, steps, n);
    if states(m).stopReturns == states(n).stopReturns {
      m := DrainingReturns(states, steps, m);
    }
  }

  /** Before the queue is closed only the stopper's own steps move it on. */
  lemma StopperAdvances<T(!new)>(states: nat -> Pool<T>, steps: nat -> Action<T>, n: nat, a: Action<T>) returns (m: nat)
    requires IsRun(states, steps) && WeaklyFair(states, steps)
    requires (states(n).stopper == Entered && a == StopExchange) || (states(n).stopper == Closing && a == StopClose)
    ensures m >= n && steps(m) == a && states(m).stopReturns == states(n).stopReturns
    ensures states(m).stopper == states(n).stopper
  {
    assert Resolved(states, steps, a, n);
    var j: nat :| n <= j && (!Enabled(states(j), a) || steps(j) == a);
    m := n;
    while m < j && steps(m) != a
      invariant n <= m <= j
      invariant states(m).stopper == states(n).stopper && states(m).stopReturns == states(n).stopReturns
    {
      assert StepAt(states, steps, m);
      m := m + 1;
    }
  }

  /** Every call of `stop` that has locked the mutex returns. */
  lemma StopReturns<T(!new)>(states: nat -> Pool<T>, steps: nat -> Action<T>, n: nat) returns (m: nat)
    requires IsRun(states, steps) && WeaklyFair(states, steps)
    requires states(n).stopper != NoStopper
    ensures m > n && states(m).stopReturns > states(n).stopReturns
  {
    m := n;
    if states(m).stopper == Entered {
      m := StopperAdvances(states, steps, m, StopExchange);
      assert StepAt(states, steps, m);
      m := m + 1;
    }
    if states(m).stopper == Closing {
      m := StopperAdvances(states, steps, m, StopClose);
      assert StepAt(states, steps, m);
      m := m + 1;
    }
    m := DrainingReturns(states, steps, m);
  }

  predicate Busy<T>(w: Worker<T>) { w == Ready || w.Running? || w.Ran? }

  /** The one step a worker that neither sleeps nor has left takes next. */
  function Move<T>(p: Pool<T>, w: nat): (a: Action<T>)
    requires IsWorker(p, w) && Busy(p.workers[w])
    ensures Enabled(p, a) && Fair(a)
  {
    if p.workers[w] == Ready then Check(w) else if p.workers[w].Running? then Act(w) else Return(w)
  }

  lemma OnlyItsOwnMove<T>(p: Pool<T>, w: nat, a: Action<T>)
    requires IsWorker(p, w) && Busy(p.workers[w]) && Enabled(p, a) && a != Move(p, w)
    ensures |Next(p, a).workers| == |p.workers| && Next(p, a).workers[w] == p.workers[w]
  {
  }

  lemma HistoryStep<T>(p: Pool<T>, a: Action<T>, q: Pool<T>)
    requires PoolInv(p) && Enabled(p, a) && q == Next(p, a)
    ensures p.accepted <= q.accepted && Taken(p) <= Taken(q) && |p.workers| == |q.workers|
  {
    FifoStep(p, a);
  }

  lemma {:induction false} HistoryGrows<T(!new)>(states: nat -> Pool<T>, steps: nat -> Action<T>, n: nat, m: nat)
    requires IsRun(states, steps) && n <= m
    ensures states(n).accepted <= states(m).accepted && Taken(states(n)) <= Taken(states(m))
    ensures |states(n).workers| == |states(m).workers|
    decreases m
  {
    if n < m {
      HistoryGrows(states, steps, n, m - 1);
      StatesInv(states, steps, m - 1);
      assert StepAt(states, steps, m - 1);
      HistoryStep(states(m - 1), steps(m - 1), states(m));
    }
  }

  /** A worker that can move does. */
  lemma WorkerMoves<T(!new)>(states: nat -> Pool<T>, steps: nat -> Action<T>, n: nat, w: nat) returns (m: nat)
    requires IsRun(states, steps) && WeaklyFair(states, steps)
    requires IsWorker(states(n), w) && Busy(states(n).workers[w])
    ensures m >= n && IsWorker(states(m), w) && states(m).workers[w] == states(n).workers[w]
    ensures steps(m) == Move(states(n), w)
  {
    var a := Move(states(n), w);
    assert Resolved(states, steps, a, n);
    var j: nat :| n <= j && (!Enabled(states(j), a) || steps(j) == a);
    m := n;
    while m < j && steps(m) != a
      invariant n <= m <= j && IsWorker(states(m), w) && states(m).workers[w] == states(n).workers[w]
    {
      assert StepAt(states, steps, m);
      OnlyItsOwnMove(states(m), w, steps(m));
      m := m + 1;
    }
  }

  lemma BecomesReady<T(!new)>(states: nat -> Pool<T>, steps: nat -> Action<T>, n: nat, w: nat) returns (m: nat)
    requires IsRun(states, steps) && WeaklyFair(states, steps)
    requires IsWorker(states(n), w) && Busy(states(n).workers[w])
    ensures m >= n && IsWorker(states(m), w) && states(m).workers[w] == Ready
    decreases Weight(states(n).workers[w])
  {
    m := n;
    if states(n).workers[w] != Ready {
      m := WorkerMoves(states, steps, n, w);
      assert StepAt(states, steps, m);
      m := BecomesReady(states, steps, m + 1, w);
    }
  }

  /** While everybody sleeps the queue only grows. */
  lemma AsleepUntil<T(!new)>(states: nat -> Pool<T>, steps: nat -> Action<T>, n: nat, j: nat) returns (m: nat)
    requires IsRun(states, steps) && n <= j
    requires PoolInv(states(n)) && states(n).queue.items != []
    ensures n <= m <= j && PoolInv(states(m)) && states(m).queue.items != []
    ensures m == j || !AllAsleep(states(m))
  {
    m := n;
    while m < j && AllAsleep(states(m))
      invariant n <= m <= j && PoolInv(states(m)) && states(m).queue.items != []
    {
      assert StepAt(states, steps, m);
      AsleepKeepsWork(states(m), steps(m));
      m := m + 1;
    }
  }

  /** With work queued and everybody asleep, a notification is on its way. */
  lemma SomeoneWakes<T(!new)>(states: nat -> Pool<T>, steps: nat -> Action<T>, n: nat) returns (m: nat, w: nat)
    requires IsRun(states, steps) && WeaklyFair(states, steps)
    requires states(n).queue.items != []
    ensures m >= n && IsWorker(states(m), w) && Busy(states(m).workers[w])
  {
    StatesInv(states, steps, n);
    assert Resolved(states, steps, NotifyOne(0), n);
    var j: nat :| n <= j && (!Enabled(states(j), NotifyOne(0)) || steps(j) == NotifyOne(0));
    m := AsleepUntil(states, steps, n, j);
    w := 0;
    if AllAsleep(states(m)) {
      NotifyOneIsPossible(states(m));
      assert StepAt(states, steps, m);
      m := m + 1;
    } else {
      w := SomeoneBusy(states(m));
    }
  }

  predicate AllAsleep<T>(p: Pool<T>) {
    forall w :: 0 <= w < |p.workers| ==> p.workers[w] == Waiting
  }

  lemma AsleepKeepsWork<T>(p: Pool<T>, a: Action<T>)
    requires PoolInv(p) && AllAsleep(p) && p.queue.items != [] && Enabled(p, a)
    ensures PoolInv(Next(p, a)) && Next(p, a).queue.items != []
  {
    StepInv(p, a);
  }

  lemma SomeoneBusy<T>(p: Pool<T>) returns (w: nat)
    requires PoolInv(p) && !AllAsleep(p) && p.queue.items != []
    ensures IsWorker(p, w) && Busy(p.workers[w])
  {
    w :| w < |p.workers| && p.workers[w] != Waiting;
  }

  lemma NotifyOneIsPossible<T>(p: Pool<T>)
    requires PoolInv(p) && AllAsleep(p) && p.queue.items != []
    ensures Enabled(p, NotifyOne(0))
    ensures IsWorker(Next(p, NotifyOne(0)), 0) && Busy(Next(p, NotifyOne(0)).workers[0])
  {
    CountZero(p.workers, ReadyPhase);
    assert p.workers[0] == Waiting;
  }

  /** The head of a non-empty queue is taken. */
  lemma HeadTaken<T(!new)>(states: nat -> Pool<T>, steps: nat -> Action<T>, n: nat) returns (m: nat)
    requires IsRun(states, steps) && WeaklyFair(states, steps)
    requires states(n).queue.items != []
    ensures m > n && Taken(states(m)) > Taken(states(n))
  {
    var w;
    m, w := SomeoneWakes(states, steps, n);
    m := BecomesReady(states, steps, m, w);
    m := WorkerMoves(states, steps, m, w);
    HistoryGrows(states, steps, n, m);
    StatesInv(states, steps, n);
    StatesInv(states, steps, m);
    assert StepAt(states, steps, m);
    FifoStep(states(m), steps(m));
    m := m + 1;
  }

  lemma TicketTaken<T(!new)>(states: nat -> Pool<T>, steps: nat -> Action<T>, n: nat, k: nat) returns (m: nat)
    requires IsRun(states, steps) && WeaklyFair(states, steps)
    requires k < |states(n).accepted|
    ensures m >= n && k < Taken(states(m))
    decreases k - Taken(states(n))
  {
    StatesInv(states, steps, n);
    m := n;
    if Taken(states(n)) <= k {
      m := HeadTaken(states, steps, n);
      HistoryGrows(states, steps, n, m);
      m := TicketTaken(states, steps, m, k);
    }
  }

  /** Every accepted task acts, whatever the interleaving: no wakeup is lost. */
  lemma EveryTaskActs<T(!new)>(states: nat -> Pool<T>, steps: nat -> Action<T>, n: nat, k: nat) returns (m: nat)
    requires IsRun(states, steps) && WeaklyFair(states, steps)
    requires k < |states(n).accepted|
    ensures m >= n && k in states(m).ran
  {
    m := TicketTaken(states, steps, n, k);
    StatesReachable(states, steps, m);
    TakenIsRanOrHeld(states(m), k);
    if k !in states(m).ran {
      var w: nat :| w < |states(m).workers| && states(m).workers[w].Running? && states(m).workers[w].ticket == k;
      m := WorkerMoves(states, steps, m, w);
      assert StepAt(states, steps, m);
      m := m + 1;
    }
  }
}
