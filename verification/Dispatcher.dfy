/** Hand-off of work to the pool and of results back, src/server/processing.cpp
    and src/server/processing_dispatcher.cpp.
 */
module Dispatching {
  import opened Wire
  import opened Kernel
  import opened BoundedQueues
  import opened EventFds

  datatype Task = Task(fd: int, id: nat, payload: Payload)
  datatype Result = Result(fd: int, id: nat, response: Bytes)

  /** The business logic: any total function from a task to response bytes. */
  type Responder = Task -> Bytes

  function ProcessFrame(respond: Responder, task: Task): Result {
    Result(task.fd, task.id, respond(task))
  }

  /** What the repository ships: the same acknowledgement for every frame. */
  function Acknowledge(task: Task): (r: Bytes)
    ensures |r| == |"ACK from NetPulse!"|
    ensures forall i :: 0 <= i < |r| ==> r[i] as char == "ACK from NetPulse!"[i]
  {
    [65, 67, 75, 32, 102, 114, 111, 109, 32, 78, 101, 116, 80, 117, 108, 115, 101, 33]
  }

  datatype SubmitStatus = Submitted | QueueFull | Stopped | InvalidTask

  function PoolStatus(push: PushStatus): SubmitStatus {
    match push
    case PushSuccess => Submitted
    case PushFull => QueueFull
    case PushClosed => Stopped
  }

  /** The checks of `trySubmit` before the pool is asked. */
  function Admission(task: Task, healthy: bool, push: PushStatus): SubmitStatus {
    if task.fd < 0 || task.id == 0 then InvalidTask
    else if !healthy then Stopped
    else PoolStatus(push)
  }

  /** `error_number_` keeps the first failure that is not a full counter. */
  function RecordError(error: int, r: NotifyResult): int {
    if !r.success && r.errorNumber != EAGAIN && error == 0 then r.errorNumber else error
  }

  class ProcessingDispatcher {
    const notifier: EventFd
    const queue: BoundedQueue<Task>
    var completed: seq<Result>
    var errorNumber: int

    predicate Valid()
      reads this, notifier, queue
    {
      notifier.Valid() && queue.Valid()
    }

    predicate Healthy()
      reads this
    {
      notifier.fd >= 0 && errorNumber == 0
    }

    constructor (notifier: EventFd, queue: BoundedQueue<Task>)
      requires notifier.Valid() && queue.Valid()
      ensures Valid() && this.notifier == notifier && this.queue == queue
      ensures completed == [] && errorNumber == 0
    {
      this.notifier, this.queue := notifier, queue;
      completed, errorNumber := [], 0;
    }

    method TrySubmit(task: Task) returns (status: SubmitStatus)
      requires Valid()
      modifies queue
      ensures Valid()
      ensures status == Admission(task, Healthy(), PushDecision(old(queue.State()), queue.capacity))
      ensures status == InvalidTask <==> task.fd < 0 || task.id == 0
      ensures status == Submitted <==>
                && task.fd >= 0 && task.id != 0 && notifier.fd >= 0 && errorNumber == 0
                && !old(queue.closed) && |old(queue.queue)| < queue.capacity
      ensures status == QueueFull <==>
                && task.fd >= 0 && task.id != 0 && notifier.fd >= 0 && errorNumber == 0
                && !old(queue.closed) && |old(queue.queue)| == queue.capacity
      ensures status == Stopped <==>
                task.fd >= 0 && task.id != 0 && (notifier.fd < 0 || errorNumber != 0 || old(queue.closed))
      ensures queue.queue == old(queue.queue) + (if status == Submitted then [task] else [])
      ensures queue.closed == old(queue.closed)
      ensures queue.State() == if status == Submitted then AfterPush(old(queue.State()), queue.capacity, task)
                               else old(queue.State())
    {
      if task.fd < 0 || task.id == 0 {
        return InvalidTask;
      }
      if !Healthy() {
        return Stopped;
      }
      var push := queue.TryPush(task);
      return PoolStatus(push);
    }

    /** The first half of `publish`, under `completed_mutex_`. */
    method PushCompleted(result: Result)
      modifies `completed
      ensures completed == old(completed) + [result]
    {
      completed := completed + [result];
    }

    /** The second half of `publish`: a full counter loses no information. */
    method NotifyCompleted(script: seq<Hindrance>) returns (r: NotifyResult)
      requires Valid()
      modifies `errorNumber, notifier
      ensures Valid() && NotifySpec(1, old(notifier.counter), notifier.counter, r)
      ensures errorNumber == RecordError(old(errorNumber), r)
      ensures errorNumber == if old(errorNumber) == 0 && !r.success && r.errorNumber != EAGAIN then r.errorNumber
                             else old(errorNumber)
      ensures notifier.fd >= 0 && Decisive(script) == Interrupted ==>
                && errorNumber == old(errorNumber)
                && notifier.counter == Min(COUNTER_MAX, old(notifier.counter) + 1)
      ensures r.success <==>
                notifier.fd >= 0 && Decisive(script) == Interrupted && old(notifier.counter) < COUNTER_MAX
      ensures notifier.counter > 0 || errorNumber != 0
    {
      r := notifier.Notify(1, script);
      if !r.success && r.errorNumber != EAGAIN {
        if errorNumber == 0 {
          errorNumber := r.errorNumber;
        }
      }
    }

    /** Swaps the results out under the mutex, then moves them to a vector. */
    method TakeCompleted() returns (results: seq<Result>)
      modifies `completed
      ensures results == old(completed) && completed == []
    {
      var local := completed;
      completed := [];
      results := [];
      while local != []
        invariant results + local == old(completed) && completed == []
        decreases |local|
      {
        results := results + [local[0]];
        local := local[1..];
      }
    }
  }
}
