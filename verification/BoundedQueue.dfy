/** The critical sections of include/netpulse/concurrency/bounded_queue.hpp.

    Each method below is what its operation does while it holds the mutex, which
    is what other threads can observe. The gap between a section and the
    notification behind it, and the sleep inside `waitPop`, are steps of
    `ThreadPoolModel`, whose transitions apply the same functions.
 */
module BoundedQueues {
  datatype PushStatus = PushSuccess | PushFull | PushClosed

  /** What `waitPop` finds when its predicate is evaluated. */
  datatype PopOutcome<T> = Popped(value: T) | MustWait | Finished

  datatype QueueState<T> = QueueState(items: seq<T>, closed: bool)

  /** The decision of `tryPush`, made with the mutex held. */
  function PushDecision<T>(q: QueueState<T>, capacity: nat): PushStatus {
    if q.closed then PushClosed else if |q.items| >= capacity then PushFull else PushSuccess
  }

  function AfterPush<T>(q: QueueState<T>, capacity: nat, value: T): QueueState<T> {
    if PushDecision(q, capacity) == PushSuccess then q.(items := q.items + [value]) else q
  }

  function PopDecision<T>(q: QueueState<T>): PopOutcome<T> {
    if q.items != [] then Popped(q.items[0]) else if q.closed then Finished else MustWait
  }

  function AfterPop<T>(q: QueueState<T>): QueueState<T> {
    if q.items != [] then q.(items := q.items[1..]) else q
  }

  class BoundedQueue<T> {
    const capacity: nat
    var queue: seq<T>
    var closed: bool

    function State(): QueueState<T>
      reads this
    {
      QueueState(queue, closed)
    }

    predicate Valid()
      reads this
    {
      0 < capacity && |queue| <= capacity
    }

    constructor (capacity: nat)
      requires capacity > 0
      ensures Valid() && this.capacity == capacity && State() == QueueState([], false)
    {
      this.capacity := capacity;
      queue, closed := [], false;
    }

    method TryPush(value: T) returns (status: PushStatus)
      requires Valid()
      modifies this
      ensures Valid()
      ensures status == PushDecision(old(State()), capacity)
      ensures State() == AfterPush(old(State()), capacity, value)
      ensures status == PushSuccess <==> !old(closed) && old(|queue|) < capacity
      ensures status == PushClosed <==> old(closed)
      ensures status == PushFull <==> !old(closed) && old(|queue|) == capacity
      ensures queue == old(queue) + (if status == PushSuccess then [value] else []) && closed == old(closed)
    {
      if closed {
        return PushClosed;
      }
      if |queue| >= capacity {
        return PushFull;
      }
      queue := queue + [value];
      return PushSuccess;
    }

    method Pop() returns (outcome: PopOutcome<T>)
      requires Valid()
      modifies this
      ensures Valid()
      ensures outcome == PopDecision(old(State()))
      ensures State() == AfterPop(old(State()))
      ensures old(queue) == (if outcome.Popped? then [outcome.value] else []) + queue
      ensures outcome.Popped? <==> old(queue) != []
      ensures outcome == Finished <==> old(closed) && old(queue) == []
      ensures closed == old(closed)
    {
      if !(closed || queue != []) {
        return MustWait;
      }
      if queue == [] {
        return Finished;
      }
      outcome := Popped(queue[0]);
      queue := queue[1..];
    }

    method Close()
      requires Valid()
      modifies this
      ensures Valid() && State() == old(State()).(closed := true)
    {
      closed := true;
    }
  }

  /** The constructor of the source throws when the capacity is zero. */
  method NewQueue<T>(capacity: nat) returns (queue: BoundedQueue?<T>)
    ensures queue == null <==> capacity == 0
    ensures queue != null ==> fresh(queue) && queue.Valid() && queue.capacity == capacity
                              && queue.State() == QueueState([], false)
  {
    if capacity == 0 {
      return null;
    }
    queue := new BoundedQueue(capacity);
  }
}
