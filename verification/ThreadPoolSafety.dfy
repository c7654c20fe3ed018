/** What every interleaving of the queue and its workers keeps. */
module ThreadPoolSafety {
  import opened BoundedQueues
  import opened ThreadPoolModel

  datatype Phase = ReadyPhase | WaitingPhase | RunningPhase | RanPhase | ExitedPhase

  function PhaseOf<T>(w: Worker<T>): Phase {
    match w
    case Ready => ReadyPhase
    case Waiting => WaitingPhase
    case Running(_, _) => RunningPhase
    case Ran(_) => RanPhase
    case Exited => ExitedPhase
  }

  /** How many workers are in a phase. */
  function Count<T>(ws: seq<Worker<T>>, phase: Phase): (n: nat)
    ensures n <= |ws|
  {
    if ws == [] then 0
    else (if PhaseOf(ws[0]) == phase then 1 else 0) + Count(ws[1..], phase)
  }

  lemma {:induction false} CountUpdate<T>(ws: seq<Worker<T>>, w: nat, to: Worker<T>, phase: Phase)
    requires w < |ws|
    ensures Count(ws[w := to], phase) ==
            Count(ws, phase) - (if PhaseOf(ws[w]) == phase then 1 else 0) + (if PhaseOf(to) == phase then 1 else 0)
  {
    if w == 0 {
      assert ws[0 := to][1..] == ws[1..];
    } else {
      assert ws[w := to][1..] == ws[1..][w - 1 := to];
      CountUpdate(ws[1..], w - 1, to, phase);
    }
  }

  lemma {:induction false} CountZero<T>(ws: seq<Worker<T>>, phase: Phase)
    ensures Count(ws, phase) == 0 <==> forall w :: 0 <= w < |ws| ==> PhaseOf(ws[w]) != phase
  {
    if ws != [] {
      CountZero(ws[1..], phase);
      assert forall w :: 1 <= w < |ws| ==> ws[w] == ws[1..][w - 1];
      assert forall w :: 0 <= w < |ws| - 1 ==> ws[1..][w] == ws[w + 1];
    }
  }

  lemma {:induction false} CountPointwise<T>(ws: seq<Worker<T>>, vs: seq<Worker<T>>, phase: Phase)
    requires |ws| == |vs|
    requires forall w :: 0 <= w < |ws| ==> (PhaseOf(ws[w]) == phase <==> PhaseOf(vs[w]) == phase)
    ensures Count(ws, phase) == Count(vs, phase)
  {
    if ws != [] {
      CountPointwise(ws[1..], vs[1..], phase);
    }
  }

  /** The queue holds the accepted tasks not yet taken, in order. */
  ghost predicate FifoInv<T>(p: Pool<T>) {
    && 0 < p.capacity && 0 < |p.workers|
    && |p.queue.items| <= p.capacity
    && |p.queue.items| <= |p.accepted|
    && p.queue.items == p.accepted[Taken(p)..]
  }

  /** Every taken ticket either has acted or is held by one worker. */
  ghost predicate TicketInv<T>(p: Pool<T>) {
    && (forall w :: 0 <= w < |p.workers| && p.workers[w].Running? ==>
          && p.workers[w].ticket < Taken(p) && p.workers[w].ticket < |p.accepted|
          && p.workers[w].task == p.accepted[p.workers[w].ticket]
          && p.workers[w].ticket !in p.ran)
    && (forall v, w :: 0 <= v < w < |p.workers| && p.workers[v].Running? && p.workers[w].Running? ==>
          p.workers[v].ticket != p.workers[w].ticket)
    && (forall i :: 0 <= i < |p.ran| ==> p.ran[i] < Taken(p) && p.ran[i] < i + |p.workers|)
    && (forall i, j :: 0 <= i < j < |p.ran| ==> p.ran[i] != p.ran[j])
    && |p.ran| + Count(p.workers, RunningPhase) == Taken(p)
  }

  /** No lost wakeup: while a worker sleeps, every queued task has a
      notification on its way or a worker about to look. */
  ghost predicate WakeupInv<T>(p: Pool<T>) {
    SomeWaiting(p) ==> |p.queue.items| <= p.notifying + Count(p.workers, ReadyPhase)
  }

  /** The order of events in `stop`, and what a returned `stop` guarantees. */
  ghost predicate StopInv<T>(p: Pool<T>) {
    && (p.queue.closed <==> p.stopped && p.stopper != Closing)
    && (p.stopper == Closing || p.stopper == NotifyingAll || p.stopper.Joining? ==> p.stopped)
    && (p.queue.closed && SomeWaiting(p) ==> p.stopper == NotifyingAll)
    && (p.stopper.Joining? ==> p.stopper.next <= |p.workers| && AllExited(p, p.stopper.next))
    && (forall w :: 0 <= w < |p.workers| && p.workers[w] == Exited ==> p.queue == QueueState([], true))
    && (p.stopReturns > 0 ==> AllExited(p, |p.workers|))
  }

  ghost predicate AllExited<T>(p: Pool<T>, n: nat) {
    n <= |p.workers| && forall w :: 0 <= w < n ==> p.workers[w] == Exited
  }

  ghost predicate PoolInv<T>(p: Pool<T>) {
    FifoInv(p) && TicketInv(p) && WakeupInv(p) && StopInv(p)
  }

  lemma InitialInv<T>(p: Pool<T>)
    requires Initial(p)
    ensures PoolInv(p)
  {
    CountZero(p.workers, RunningPhase);
  }

  lemma FifoStep<T>(p: Pool<T>, a: Action<T>)
    requires PoolInv(p) && Enabled(p, a)
    ensures FifoInv(Next(p, a))
    ensures Taken(Next(p, a)) == Taken(p) + (if a.Check? && p.queue.items != [] then 1 else 0)
    ensures p.accepted <= Next(p, a).accepted
  {
  }

  /** A worker takes the next ticket: it is new, and it holds the right task. */
  lemma TicketCheck<T>(p: Pool<T>, w: nat)
    requires PoolInv(p) && Enabled(p, Check(w)) && p.queue.items != []
    ensures TicketInv(Next(p, Check(w)))
  {
    var q := Next(p, Check(w));
    CountUpdate(p.workers, w, q.workers[w], RunningPhase);
    assert q.workers[w] == Running(Taken(p), p.accepted[Taken(p)]);
    assert Taken(q) == Taken(p) + 1 && q.ran == p.ran;
  }

  /** A task acts: its ticket leaves the running ones and joins those that ran. */
  lemma TicketAct<T>(p: Pool<T>, w: nat)
    requires PoolInv(p) && Enabled(p, Act(w))
    ensures TicketInv(Next(p, Act(w)))
  {
    var q := Next(p, Act(w));
    CountUpdate(p.workers, w, q.workers[w], RunningPhase);
    assert q.ran[..|p.ran|] == p.ran;
  }

  /** No other step touches a ticket. */
  lemma TicketOther<T>(p: Pool<T>, a: Action<T>)
    requires PoolInv(p) && Enabled(p, a) && !a.Act? && (a.Check? ==> p.queue.items == [])
    ensures TicketInv(Next(p, a))
  {
    var q := Next(p, a);
    FifoStep(p, a);
    assert forall w :: 0 <= w < |p.workers| && q.workers[w].Running? ==> q.workers[w] == p.workers[w];
    CountPointwise(p.workers, q.workers, RunningPhase);
  }

  lemma TicketStep<T>(p: Pool<T>, a: Action<T>)
    requires PoolInv(p) && Enabled(p, a)
    ensures TicketInv(Next(p, a))
  {
    if a.Act? {
      TicketAct(p, a.w);
    } else if a.Check? && p.queue.items != [] {
      TicketCheck(p, a.w);
    } else {
      TicketOther(p, a);
    }
  }

  lemma WakeupStep<T>(p: Pool<T>, a: Action<T>)
    requires PoolInv(p) && Enabled(p, a)
    ensures WakeupInv(Next(p, a))
  {
    match a
    case NotifyOne(w) =>
      if SomeWaiting(p) {
        CountUpdate(p.workers, w, Ready, ReadyPhase);
      }
    case Wake(w) => CountUpdate(p.workers, w, Ready, ReadyPhase);
    case Check(w) => CountUpdate(p.workers, w, Next(p, a).workers[w], ReadyPhase);
      assert SomeWaiting(Next(p, a)) && p.queue.items != [] ==> SomeWaiting(p);
    case Act(w) => CountUpdate(p.workers, w, Next(p, a).workers[w], ReadyPhase);
      assert SomeWaiting(Next(p, a)) ==> SomeWaiting(p);
    case Return(w) => CountUpdate(p.workers, w, Ready, ReadyPhase);
      assert SomeWaiting(Next(p, a)) ==> SomeWaiting(p);
    case _ =>
  }

  /** The steps of submitters and workers: who left found the queue closed and empty. */
  lemma StopOther<T>(p: Pool<T>, a: Action<T>)
    requires PoolInv(p) && Enabled(p, a) && Next(p, a).stopper == p.stopper
    ensures StopInv(Next(p, a))
  {
    var q := Next(p, a);
    if !a.Check? {
      assert SomeWaiting(q) ==> SomeWaiting(p);
    }
  }

  lemma StopStep<T>(p: Pool<T>, a: Action<T>)
    requires PoolInv(p) && Enabled(p, a)
    ensures StopInv(Next(p, a))
  {
    var q := Next(p, a);
    if q.stopper == p.stopper {
      StopOther(p, a);
    } else {
      assert SomeWaiting(q) ==> SomeWaiting(p);
    }
  }

  /** Every step of every thread keeps the invariant. */
  lemma StepInv<T>(p: Pool<T>, a: Action<T>)
    requires PoolInv(p) && Enabled(p, a)
    ensures PoolInv(Next(p, a))
  {
    FifoStep(p, a);
    TicketStep(p, a);
    WakeupStep(p, a);
    StopStep(p, a);
  }

  lemma {:induction false} RunInv<T>(p: Pool<T>, run: seq<Action<T>>, p': Pool<T>)
    requires PoolInv(p) && Run(p, run, p')
    ensures PoolInv(p')
    decreases |run|
  {
    if run != [] {
      StepInv(p, run[0]);
      RunInv(Next(p, run[0]), run[1..], p');
    }
  }
}
