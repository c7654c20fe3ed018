/** What the invariant of the pool means to those who use it. */
module ThreadPoolTheorems {
  import opened BoundedQueues
  import opened ThreadPoolModel
  import opened ThreadPoolSafety

  lemma ReachableInv<T(!new)>(p: Pool<T>)
    requires Reachable(p)
    ensures PoolInv(p)
  {
    var p0: Pool<T>, run: seq<Action<T>> :| Initial(p0) && Run(p0, run, p);
    InitialInv(p0);
    RunInv(p0, run, p);
  }

  /** A submission is accepted exactly when the queue is open and has room; then
      it waits behind all others, and one notification follows. */
  lemma PushOutcome<T>(p: Pool<T>, value: T)
    ensures var q, accepted := Next(p, Push(value)), !p.queue.closed && |p.queue.items| < p.capacity;
            && q.queue.items == p.queue.items + (if accepted then [value] else [])
            && q.accepted == p.accepted + (if accepted then [value] else [])
            && q.notifying == p.notifying + (if accepted then 1 else 0)
            && q.queue.closed == p.queue.closed && q.workers == p.workers
  {
    assert p.queue.items + [] == p.queue.items && p.accepted + [] == p.accepted;
  }

  /** A worker that looks takes the oldest task, leaves when the queue is closed
      and empty, and otherwise sleeps. */
  lemma CheckOutcome<T(!new)>(p: Pool<T>, w: nat)
    requires Reachable(p) && Enabled(p, Check(w))
    ensures Taken(p) + |p.queue.items| == |p.accepted|
    ensures var q := Next(p, Check(w));
            && (q.workers[w] == Waiting <==> p.queue.items == [] && !p.queue.closed)
            && (q.workers[w] == Exited <==> p.queue.items == [] && p.queue.closed)
            && (p.queue.items != [] ==>
                  && q.workers[w] == Running(Taken(p), p.accepted[Taken(p)])
                  && p.queue.items == [p.accepted[Taken(p)]] + q.queue.items)
            && q.queue.closed == p.queue.closed && q.accepted == p.accepted
  {
    ReachableInv(p);
  }

  /** In no reachable state is work queued while no notification is in flight and
      every worker sleeps: a sleeping worker implies another one about to look. */
  lemma NoLostWakeup<T(!new)>(p: Pool<T>)
    requires Reachable(p)
    requires p.queue.items != [] && p.notifying == 0
    ensures SomeWaiting(p) ==> exists w: nat :: IsWorker(p, w) && p.workers[w] == Ready
    ensures exists w: nat :: IsWorker(p, w) && p.workers[w] != Waiting && p.workers[w] != Exited
  {
    ReachableInv(p);
    CountZero(p.workers, ReadyPhase);
    assert IsWorker(p, 0);
    if SomeWaiting(p) {
      var w: nat :| w < |p.workers| && PhaseOf(p.workers[w]) == ReadyPhase;
      assert IsWorker(p, w);
    }
  }

  /** Once closed, a worker can only be asleep while `notify_all` is in flight. */
  lemma NoSleepAfterClose<T(!new)>(p: Pool<T>)
    requires Reachable(p) && p.queue.closed && p.stopper != NotifyingAll
    ensures !SomeWaiting(p)
  {
    ReachableInv(p);
  }

  function Elements(s: seq<nat>): (r: set<nat>)
    ensures forall x :: x in r <==> x in s
  {
    if s == [] then {} else Elements(s[1..]) + {s[0]}
  }

  lemma {:induction false} DistinctCardinality(s: seq<nat>)
    requires forall i, j :: 0 <= i < j < |s| ==> s[i] != s[j]
    ensures |Elements(s)| == |s|
  {
    if s != [] {
      DistinctCardinality(s[1..]);
      assert s[0] !in s[1..];
    }
  }

  function Below(n: nat): (r: set<nat>)
    ensures |r| == n
    ensures forall k: nat :: k in r <==> k < n
  {
    if n == 0 then {} else Below(n - 1) + {n - 1}
  }

  /** The tickets below `n` that have not acted. */
  ghost function Unpublished<T>(p: Pool<T>, n: nat): set<nat> {
    set k | k in Below(n) && k !in p.ran
  }

  lemma UnpublishedCardinality<T>(p: Pool<T>)
    requires PoolInv(p)
    ensures |Unpublished(p, Taken(p))| == Count(p.workers, RunningPhase)
  {
    var open, acted := Unpublished(p, Taken(p)), Elements(p.ran);
    DistinctCardinality(p.ran);
    assert open !! acted && Below(Taken(p)) == open + acted;
  }

  function HeldTickets<T>(ws: seq<Worker<T>>): (r: set<nat>)
    ensures forall k :: k in r <==> exists w :: 0 <= w < |ws| && ws[w].Running? && ws[w].ticket == k
  {
    if ws == [] then {}
    else
      var rest := HeldTickets(ws[1..]);
      assert forall w :: 1 <= w < |ws| ==> ws[w] == ws[1..][w - 1];
      assert forall w :: 0 <= w < |ws| - 1 ==> ws[1..][w] == ws[w + 1];
      if ws[0].Running? then rest + {ws[0].ticket} else rest
  }

  lemma {:induction false} HeldCardinality<T>(ws: seq<Worker<T>>)
    requires forall v, w :: 0 <= v < w < |ws| && ws[v].Running? && ws[w].Running? ==> ws[v].ticket != ws[w].ticket
    ensures |HeldTickets(ws)| == Count(ws, RunningPhase)
  {
    if ws != [] {
      HeldCardinality(ws[1..]);
    }
  }

  /** A task that has left the queue has acted or is in the hands of a worker. */
  lemma TakenIsRanOrHeld<T(!new)>(p: Pool<T>, k: nat)
    requires Reachable(p) && k < Taken(p)
    ensures k in p.ran || exists w: nat :: w < |p.workers| && p.workers[w].Running? && p.workers[w].ticket == k
  {
    ReachableInv(p);
    var open, held := Unpublished(p, Taken(p)), HeldTickets(p.workers);
    UnpublishedCardinality(p);
    HeldCardinality(p.workers);
    assert held <= open;
    if k !in p.ran && k !in held {
      assert held + {k} <= open;
      SubsetCardinality(held + {k}, open);
    }
  }

  /** When a task acts, at most worker count - 1 tasks accepted before it have
      not: bounded overtaking. */
  lemma BoundedOvertaking<T(!new)>(p: Pool<T>, w: nat)
    requires Reachable(p) && Enabled(p, Act(w))
    ensures |Unpublished(p, p.workers[w].ticket)| <= |p.workers| - 1
  {
    ReachableInv(p);
    var k := p.workers[w].ticket;
    UnpublishedCardinality(p);
    var earlier, all := Unpublished(p, k), Unpublished(p, Taken(p));
    assert k in all && k !in earlier && earlier <= all;
    assert earlier + {k} <= all;
    SubsetCardinality(earlier + {k}, all);
  }

  lemma {:induction false} SubsetCardinality(a: set<nat>, b: set<nat>)
    requires a <= b
    ensures |a| <= |b|
  {
    assert b == a + (b - a);
  }

  /** Accepted but not yet acted: never more than the queue and the workers hold. */
  lemma BoundedInFlight<T(!new)>(p: Pool<T>)
    requires Reachable(p)
    ensures |p.ran| <= |p.accepted| <= |p.ran| + p.capacity + |p.workers|
  {
    ReachableInv(p);
  }

  /** With one worker tasks act in the order in which they were accepted. */
  lemma SingleWorkerInOrder<T(!new)>(p: Pool<T>)
    requires Reachable(p) && |p.workers| == 1
    ensures forall i :: 0 <= i < |p.ran| ==> p.ran[i] == i
  {
    ReachableInv(p);
    SmallDistinctIsIdentity(p.ran);
  }

  lemma {:induction false} SmallDistinctIsIdentity(s: seq<nat>)
    requires forall i :: 0 <= i < |s| ==> s[i] <= i
    requires forall i, j :: 0 <= i < j < |s| ==> s[i] != s[j]
    ensures forall i :: 0 <= i < |s| ==> s[i] == i
  {
    if s != [] {
      var front := s[..|s| - 1];
      SmallDistinctIsIdentity(front);
      assert forall i :: 0 <= i < |s| - 1 ==> front[i] == s[i];
      var last := s[|s| - 1];
      if |s| > 1 {
        var i := if last < |s| - 1 then last else 0;
        assert s[i] == front[i] == i;
      }
    }
  }

  /** Every accepted task has acted exactly once, and nothing is left. */
  ghost predicate Drained<T>(p: Pool<T>) {
    && p.queue == QueueState([], true)
    && AllExited(p, |p.workers|)
    && |p.ran| == |p.accepted|
    && (forall k: nat :: k < |p.accepted| ==> k in p.ran)
    && (forall i, j :: 0 <= i < j < |p.ran| ==> p.ran[i] != p.ran[j])
  }

  /** `stop` drains: whatever was accepted, also between the exchange of
      `stopped_` and the closing of the queue, has run when any call returns. */
  lemma StopDrains<T(!new)>(p: Pool<T>)
    requires Reachable(p)
    requires p.stopReturns > 0 || Enabled(p, StopReturn)
    ensures Drained(p)
  {
    ReachableInv(p);
    assert p.workers[0] == Exited;
    CountZero(p.workers, RunningPhase);
    UnpublishedCardinality(p);
    assert Unpublished(p, Taken(p)) == {};
    forall k: nat | k < |p.accepted|
      ensures k in p.ran
    {
      assert k !in Unpublished(p, Taken(p));
    }
  }

  /** Afterwards no submission succeeds and no task acts, whatever is tried. */
  lemma {:induction false} NothingAfterStop<T(!new)>(p: Pool<T>, run: seq<Action<T>>, p': Pool<T>)
    requires Reachable(p) && Drained(p) && Run(p, run, p')
    ensures Drained(p') && p'.accepted == p.accepted && p'.ran == p.ran
    ensures PushDecision(p'.queue, p'.capacity) == PushClosed
    decreases |run|
  {
    if run != [] {
      NextReachable(p, run[0]);
      ReachableInv(Next(p, run[0]));
      var q := Next(p, run[0]);
      assert q.workers == p.workers;
      NothingAfterStop(q, run[1..], p');
    }
  }

  /** The whole story of one pool: however it is used, once some `stop` has
      returned every accepted task has acted exactly once, for good. */
  lemma DrainingShutdown<T(!new)>(p0: Pool<T>, run: seq<Action<T>>, p: Pool<T>, later: seq<Action<T>>, p': Pool<T>)
    requires Initial(p0) && Run(p0, run, p) && p.stopReturns > 0 && Run(p, later, p')
    ensures Drained(p) && Drained(p') && p'.accepted == p.accepted && p'.ran == p.ran
    ensures p'.queue.items == [] && p'.queue.closed && |p'.ran| == |p'.accepted|
    ensures forall w :: 0 <= w < |p'.workers| ==> p'.workers[w] == Exited
    ensures forall k: nat :: k < |p'.accepted| ==> k in p'.ran
    ensures forall i, j :: 0 <= i < j < |p'.ran| ==> p'.ran[i] != p'.ran[j]
  {
    assert Reachable(p);
    StopDrains(p);
    NothingAfterStop(p, later, p');
  }
}
