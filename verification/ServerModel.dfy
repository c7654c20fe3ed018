/** The whole server as a step system: the event loop's thread, the workers of
    the pool and the kernel, interleaved at every access to shared state.
    src/server/event_loop.cpp, src/server/processing_dispatcher.cpp.

    The loop's own data change by the functions that `EventLoops.EventLoop` is
    proved against, the pool by the steps of `ThreadPoolModel`.
 */
module ServerModel {
  import opened Wire
  import opened Kernel
  import opened Connections
  import opened EventFds
  import opened Dispatching
  import opened BoundedQueues
  import opened ConnectionTables
  import TP = ThreadPoolModel

  /** Where the event loop's thread is, with the locals it still needs. */
  datatype Loop =
    | Polling                            // at the wait, or between two events
    | Consumed                           // has read the counter, not yet the results
    | Delivering(batch: seq<Result>)     // results taken, not yet dispatched
    | Submitting(fd: int, id: nat, frames: seq<Payload>, status: ReadStatus,
                 admitted: bool)          // `trySubmit` has passed its checks for the first frame
    | Flushing(fd: int)
    | Returned                           // `run` has returned

  /** The life of one connection, as told by its socket and its buffers. */
  datatype Hist = Hist(fd: int, received: Bytes, frames: seq<Payload>, delivered: seq<Payload>, sent: Bytes)

  datatype Server = Server(
    pool: TP.Pool<Task>,
    completed: seq<Result>,  // `completed_`
    counter: nat,            // the eventfd
    error: int,              // the dispatcher's `error_number_`
    loop: Loop,
    table: Table,
    hist: map<nat, Hist>)    // history: every connection ever accepted, by id

  predicate Initial(s: Server) {
    && TP.Initial(s.pool) && InitialTable(s.table)
    && s.completed == [] && s.counter == 0 && s.error == 0 && s.loop == Polling && s.hist == map[]
  }

  datatype Step =
    | Background(a: TP.Action<Task>)       // a step of the pool that is none of the two below
    | PublishPush(w: nat)                  // worker `w` stores its result
    | PublishNotify(w: nat, n: NotifyResult)
    | Accept(fd: int, addOk: bool)
    | Consume(c: ConsumeResult)
    | Take
    | Deliver(modifyOk: bool)
    | Hangup(fd: int)
    | Read(fd: int, bytes: Bytes, status: ReadStatus)
    | Admit                                // `trySubmit`: the checks before the pool is asked
    | Submit                               // `trySubmit`: the push
    | ReadDone
    | Writable(fd: int)
    | Flush(sent: nat, writeFailed: bool, modifyOk: bool)
    | Fail

  /** Steps of the loop's thread: it is not inside `notify_one`. */
  predicate OfLoop(step: Step) {
    !step.Background? && !step.PublishPush? && !step.PublishNotify?
  }

  predicate Enabled(s: Server, step: Step) {
    && (OfLoop(step) ==> s.pool.notifying == 0)
    && match step
       case Background(a) => !a.Push? && !a.Act? && !a.Return? && a != TP.Idle && TP.Enabled(s.pool, a)
       case PublishPush(w) => TP.Enabled(s.pool, TP.Act(w))
       case PublishNotify(w, r) =>
         TP.Enabled(s.pool, TP.Return(w)) && NotifySpec(1, s.counter, AfterNotify(s, r), r)
       case Accept(fd, _) => s.loop == Polling && fd >= 0 && fd !in s.table.open
       case Consume(r) => s.loop == Polling && ConsumeSpec(s.counter, AfterConsume(s, r), r)
       case Take => s.loop == Consumed
       case Deliver(_) => s.loop.Delivering?
       case Hangup(fd) => s.loop == Polling && fd in s.table.conns
       case Read(fd, bytes, status) =>
         && s.loop == Polling && fd in s.table.conns
         && (status == ReadProtocolError <==>
               bytes != [] && FirstFrame(Decoded(s, fd, bytes).rest) == PayloadTooLarge)
       case Admit => s.loop.Submitting? && s.loop.frames != [] && !s.loop.admitted
       case Submit => s.loop.Submitting? && s.loop.frames != [] && s.loop.admitted
       case ReadDone => s.loop.Submitting? && s.loop.frames == []
       case Writable(fd) => s.loop == Polling && fd in s.table.conns
       case Flush(sent, writeFailed, _) =>
         && s.loop.Flushing? && s.loop.fd in s.table.conns
         && sent <= |s.table.conns[s.loop.fd].pending|
         && (writeFailed ==> s.table.conns[s.loop.fd].pending != [])
       case Fail => s.loop == Polling
  }

  function AfterNotify(s: Server, r: NotifyResult): nat {
    if r.success then s.counter + 1 else s.counter
  }

  function AfterConsume(s: Server, r: ConsumeResult): nat {
    if r.success then 0 else s.counter
  }

  function Decoded(s: Server, fd: int, bytes: Bytes): Parsed
    requires fd in s.table.conns
  {
    Parse(s.table.conns[fd].unread + bytes)
  }

  function NextPush(respond: Responder, s: Server, w: nat): Server
    requires Enabled(s, PublishPush(w))
  {
    s.(pool := TP.Next(s.pool, TP.Act(w)),
       completed := s.completed + [ProcessFrame(respond, s.pool.workers[w].task)])
  }

  function NextConsume(s: Server, r: ConsumeResult): Server {
    s.(counter := AfterConsume(s, r),
       loop := if r.success then Consumed else if r.errorNumber == EAGAIN then Polling else Returned)
  }

  function NextAccept(s: Server, fd: int, addOk: bool): Server {
    s.(table := Accepted(s.table, fd, addOk),
       hist := s.hist[s.table.nextId := Hist(fd, [], [], [], [])])
  }

  /** The response enters the write buffer only of the connection it is for. */
  predicate Fits(s: Server, r: Result) {
    Addressed(s.table, r) && |r.response| <= MAX_PAYLOAD_SIZE
  }

  function NextDeliver(s: Server, modifyOk: bool): Server
    requires Enabled(s, Deliver(modifyOk))
  {
    if s.loop.batch == [] then s.(loop := Polling)
    else
      var r := s.loop.batch[0];
      s.(loop := Delivering(s.loop.batch[1..]),
         table := Dispatched(s.table, r, modifyOk),
         hist := if Fits(s, r) && r.id in s.hist
                 then s.hist[r.id := s.hist[r.id].(delivered := s.hist[r.id].delivered + [r.response])]
                 else s.hist)
  }

  function NextRead(s: Server, fd: int, bytes: Bytes, status: ReadStatus): Server
    requires Enabled(s, Read(fd, bytes, status))
  {
    var id, read := s.table.conns[fd].id, Decoded(s, fd, bytes);
    s.(loop := Submitting(fd, id, read.frames, status, false),
       table := Received(s.table, fd, read.rest),
       hist := if id in s.hist
               then s.hist[id := s.hist[id].(received := s.hist[id].received + bytes,
                                             frames := s.hist[id].frames + read.frames)]
               else s.hist)
  }

  function NextTask(s: Server): Task
    requires s.loop.Submitting? && s.loop.frames != []
  {
    Task(s.loop.fd, s.loop.id, s.loop.frames[0])
  }

  /** What `trySubmit` answers before it asks the pool, `Submitted` being to ask it. */
  function AdmitStatusOf(s: Server): SubmitStatus
    requires s.loop.Submitting? && s.loop.frames != []
  {
    Admission(NextTask(s), s.error == 0, PushSuccess)
  }

  function SubmitStatusOf(s: Server): SubmitStatus {
    PoolStatus(PushDecision(s.pool.queue, s.pool.capacity))
  }

  function NextAdmit(s: Server): Server
    requires Enabled(s, Admit)
  {
    if AdmitStatusOf(s) == Submitted then s.(loop := s.loop.(admitted := true))
    else s.(table := Closed(s.table, s.loop.fd), loop := Polling)
  }

  function NextSubmit(s: Server): Server
    requires Enabled(s, Submit)
  {
    if SubmitStatusOf(s) == Submitted then
      s.(pool := TP.Next(s.pool, TP.Push(NextTask(s))),
         loop := s.loop.(frames := s.loop.frames[1..], admitted := false))
    else
      s.(table := Closed(s.table, s.loop.fd), loop := Polling)
  }

  /** A frame is refused, and its connection closed with it. */
  predicate Refuses(s: Server, step: Step)
    requires Enabled(s, step)
  {
    (step == Admit && AdmitStatusOf(s) != Submitted) || (step == Submit && SubmitStatusOf(s) != Submitted)
  }

  function NextReadDone(s: Server): Server
    requires Enabled(s, ReadDone)
  {
    if s.loop.status == ReadReady then s.(loop := Flushing(s.loop.fd))
    else s.(table := Closed(s.table, s.loop.fd), loop := Polling)
  }

  function NextFlush(s: Server, sent: nat, writeFailed: bool, modifyOk: bool): Server
    requires Enabled(s, Flush(sent, writeFailed, modifyOk))
  {
    var c := s.table.conns[s.loop.fd];
    s.(loop := Polling,
       table := Flushed(s.table, s.loop.fd, sent, writeFailed, modifyOk),
       hist := if c.id in s.hist
               then s.hist[c.id := s.hist[c.id].(sent := s.hist[c.id].sent + c.pending[..sent])]
               else s.hist)
  }

  function Next(respond: Responder, s: Server, step: Step): Server
    requires Enabled(s, step)
  {
    match step
    case Background(a) => s.(pool := TP.Next(s.pool, a))
    case PublishPush(w) => NextPush(respond, s, w)
    case PublishNotify(w, r) =>
      s.(pool := TP.Next(s.pool, TP.Return(w)), counter := AfterNotify(s, r), error := RecordError(s.error, r))
    case Accept(fd, addOk) => NextAccept(s, fd, addOk)
    case Consume(r) => NextConsume(s, r)
    case Take => s.(loop := Delivering(s.completed), completed := [])
    case Deliver(modifyOk) => NextDeliver(s, modifyOk)
    case Hangup(fd) => s.(table := Closed(s.table, fd))
    case Read(fd, bytes, status) => NextRead(s, fd, bytes, status)
    case Admit => NextAdmit(s)
    case Submit => NextSubmit(s)
    case ReadDone => NextReadDone(s)
    case Writable(fd) => s.(loop := Flushing(fd))
    case Flush(sent, writeFailed, modifyOk) => NextFlush(s, sent, writeFailed, modifyOk)
    case Fail => s.(loop := Returned)
  }

  ghost predicate Run(respond: Responder, s: Server, run: seq<Step>, s': Server)
    decreases |run|
  {
    if run == [] then s' == s
    else Enabled(s, run[0]) && Run(respond, Next(respond, s, run[0]), run[1..], s')
  }
}
