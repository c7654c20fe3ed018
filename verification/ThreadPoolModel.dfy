/** `BoundedQueue` and `ThreadPool` as a step system: any number of submitters,
    workers and callers of `stop`, interleaved at every point where the source
    holds no lock. src/concurrency/thread_pool.cpp and
    include/netpulse/concurrency/bounded_queue.hpp.
 */
module ThreadPoolModel {
  import opened BoundedQueues

  /** Where a worker is in `workerLoop`: about to lock the queue, asleep on the
      condition variable, in a task that has not yet acted, in a task that has,
      or returned. A ticket is the rank of the task among the accepted ones. */
  datatype Worker<T> = Ready | Waiting | Running(ticket: nat, task: T) | Ran(ticket: nat) | Exited

  /** Where the caller of `stop` that holds `stop_mutex_` is, if there is one. */
  datatype Stopper = NoStopper | Entered | Closing | NotifyingAll | Joining(next: nat)

  datatype Pool<T> = Pool(
    capacity: nat,
    queue: QueueState<T>,
    workers: seq<Worker<T>>,
    notifying: nat, // submitters between the unlock and `notify_one`
    stopped: bool,
    stopper: Stopper,
    accepted: seq<T>, // history: the tasks pushed, in order
    ran: seq<nat>,    // history: tickets in the order in which their tasks acted
    stopReturns: nat) // history: calls of `stop` that have returned

  /** Both constructors of the source throw when their argument is zero. */
  predicate Initial<T>(p: Pool<T>) {
    && 0 < p.capacity && 0 < |p.workers|
    && p.queue == QueueState([], false)
    && (forall w :: 0 <= w < |p.workers| ==> p.workers[w] == Ready)
    && p.notifying == 0 && !p.stopped && p.stopper == NoStopper
    && p.accepted == [] && p.ran == [] && p.stopReturns == 0
  }

  datatype Action<T> =
    | Push(value: T)      // the locked section of `tryPush`
    | NotifyOne(w: nat)   // wakes `w`, or no one when no one waits
    | Wake(w: nat)        // a spurious wakeup
    | Check(w: nat)       // `waitPop` with the lock held: pop, wait or leave
    | Act(w: nat)         // the task of `w` takes effect
    | Return(w: nat)      // the task of `w` returns or throws
    | StopEnter           // `stop` locks `stop_mutex_`
    | StopExchange        // `stopped_.exchange(true)`
    | StopClose           // the locked section of `close`
    | StopNotifyAll
    | StopJoin
    | StopReturn
    | Idle                // a step of someone else

  predicate IsWorker<T>(p: Pool<T>, w: nat) { w < |p.workers| }

  predicate SomeWaiting<T>(p: Pool<T>) {
    exists w :: 0 <= w < |p.workers| && p.workers[w] == Waiting
  }

  predicate Enabled<T>(p: Pool<T>, a: Action<T>) {
    match a
    case Push(_) => true
    case NotifyOne(w) => p.notifying > 0 && (SomeWaiting(p) ==> IsWorker(p, w) && p.workers[w] == Waiting)
    case Wake(w) => IsWorker(p, w) && p.workers[w] == Waiting
    case Check(w) => IsWorker(p, w) && p.workers[w] == Ready
    case Act(w) => IsWorker(p, w) && p.workers[w].Running?
    case Return(w) => IsWorker(p, w) && p.workers[w].Ran?
    case StopEnter => p.stopper == NoStopper
    case StopExchange => p.stopper == Entered
    case StopClose => p.stopper == Closing
    case StopNotifyAll => p.stopper == NotifyingAll
    case StopJoin => p.stopper.Joining? && p.stopper.next < |p.workers| && p.workers[p.stopper.next] == Exited
    case StopReturn => p.stopper == Joining(|p.workers|)
    case Idle => true
  }

  function SetWorker<T>(p: Pool<T>, w: nat, to: Worker<T>): (r: Pool<T>)
    requires IsWorker(p, w)
  {
    p.(workers := p.workers[w := to])
  }

  function Awake<T>(workers: seq<Worker<T>>): (r: seq<Worker<T>>)
    ensures |r| == |workers|
    ensures forall w :: 0 <= w < |r| ==> r[w] == if workers[w] == Waiting then Ready else workers[w]
  {
    seq(|workers|, w requires 0 <= w < |workers| => if workers[w] == Waiting then Ready else workers[w])
  }

  function Next<T>(p: Pool<T>, a: Action<T>): Pool<T>
    requires Enabled(p, a)
  {
    match a
    case Push(value) =>
      if PushDecision(p.queue, p.capacity) == PushSuccess then
        p.(queue := AfterPush(p.queue, p.capacity, value),
           accepted := p.accepted + [value],
           notifying := p.notifying + 1)
      else p
    case NotifyOne(w) =>
      var q := p.(notifying := p.notifying - 1);
      if SomeWaiting(p) then SetWorker(q, w, Ready) else q
    case Wake(w) => SetWorker(p, w, Ready)
    case Check(w) =>
      (match PopDecision(p.queue)
       case Popped(task) =>
         SetWorker(p, w, Running(Taken(p), task)).(queue := AfterPop(p.queue))
       case MustWait => SetWorker(p, w, Waiting)
       case Finished => SetWorker(p, w, Exited))
    case Act(w) => SetWorker(p, w, Ran(p.workers[w].ticket)).(ran := p.ran + [p.workers[w].ticket])
    case Return(w) => SetWorker(p, w, Ready)
    case StopEnter => p.(stopper := Entered)
    case StopExchange => p.(stopped := true, stopper := if p.stopped then Joining(0) else Closing)
    case StopClose => p.(queue := p.queue.(closed := true), stopper := NotifyingAll)
    case StopNotifyAll => p.(workers := Awake(p.workers), stopper := Joining(0))
    case StopJoin => p.(stopper := Joining(p.stopper.next + 1))
    case StopReturn => p.(stopper := NoStopper, stopReturns := p.stopReturns + 1)
    case Idle => p
  }

  /** How many accepted tasks have left the queue. */
  function Taken<T>(p: Pool<T>): nat {
    if |p.queue.items| <= |p.accepted| then |p.accepted| - |p.queue.items| else 0
  }

  /** Any interleaving: `p'` is reached from `p` by the steps `run`. */
  ghost predicate Run<T>(p: Pool<T>, run: seq<Action<T>>, p': Pool<T>)
    decreases |run|
  {
    if run == [] then p' == p
    else Enabled(p, run[0]) && Run(Next(p, run[0]), run[1..], p')
  }

  ghost predicate Reachable<T(!new)>(p: Pool<T>) {
    exists p0: Pool<T>, run: seq<Action<T>> :: Initial(p0) && Run(p0, run, p)
  }

  lemma InitialReachable<T(!new)>(p: Pool<T>)
    requires Initial(p)
    ensures Reachable(p)
  {
    assert Run(p, [], p);
  }

  lemma {:induction false} RunSnoc<T>(p0: Pool<T>, run: seq<Action<T>>, p: Pool<T>, a: Action<T>)
    requires Run(p0, run, p) && Enabled(p, a)
    ensures Run(p0, run + [a], Next(p, a))
    decreases |run|
  {
    var all := run + [a];
    if run == [] {
      assert all[0] == a && all[1..] == [];
    } else {
      assert all[0] == run[0] && all[1..] == run[1..] + [a];
      RunSnoc(Next(p0, run[0]), run[1..], p, a);
    }
  }

  lemma NextReachable<T(!new)>(p: Pool<T>, a: Action<T>)
    requires Reachable(p) && Enabled(p, a)
    ensures Reachable(Next(p, a))
  {
    var p0: Pool<T>, run: seq<Action<T>> :| Initial(p0) && Run(p0, run, p);
    RunSnoc(p0, run, p, a);
  }
}
