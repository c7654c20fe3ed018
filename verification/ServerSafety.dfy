/** What every interleaving of the server keeps: addresses, histories, and the
    conservation of every result from decoded frame to write buffer.
 */
module ServerSafety {
  import opened Wire
  import opened Connections
  import opened EventFds
  import opened Dispatching
  import opened ConnectionTables
  import opened EventLoops
  import opened ServerModel
  import TP = ThreadPoolModel
  import TPS = ThreadPoolSafety

  // ---------------------------------------------------------------- the parts

  ghost predicate SomeRan(p: TP.Pool<Task>) {
    exists w :: 0 <= w < |p.workers| && p.workers[w].Ran?
  }

  /** No lost notification: stored results are announced by the counter, about
      to be announced, about to be taken, or a failure has been recorded. */
  ghost predicate NotifyInv(s: Server) {
    && s.counter <= COUNTER_MAX
    && (s.completed != [] ==> s.counter > 0 || SomeRan(s.pool) || s.loop == Consumed || s.error != 0)
  }

  /** The loop's locals name a connection that is there. */
  ghost predicate LoopInv(s: Server) {
    && (s.loop.Submitting? ==> s.loop.fd in s.table.conns && s.table.conns[s.loop.fd].id == s.loop.id)
    && (s.loop.Flushing? ==> s.loop.fd in s.table.conns)
    && (forall fd :: fd in s.table.conns && FirstFrame(s.table.conns[fd].unread) == PayloadTooLarge ==>
          s.loop.Submitting? && s.loop.fd == fd && s.loop.status == ReadProtocolError)
  }

  /** What the buffers of a live connection say about its past. */
  ghost predicate Tracks(c: Client, h: Hist) {
    && Parse(h.received) == Parsed(h.frames, c.unread)
    && h.sent + c.pending == EncodeAll(h.delivered)
  }

  /** What stays true of a connection when it is gone. */
  ghost predicate Past(h: Hist) {
    Parse(h.received).frames == h.frames && h.sent <= EncodeAll(h.delivered)
  }

  ghost predicate HistInv(conns: map<int, Client>, nextId: nat, hist: map<nat, Hist>) {
    && (forall c :: c in hist <==> 0 < c < nextId)
    && (forall c :: c in hist ==> Past(hist[c]))
    && (forall fd :: fd in conns ==>
          && conns[fd].id in hist && hist[conns[fd].id].fd == fd
          && Tracks(conns[fd], hist[conns[fd].id]))
  }

  predicate Owned(hist: map<nat, Hist>, fd: int, id: nat) {
    id in hist && hist[id].fd == fd
  }

  /** Every task and result in flight carries the descriptor its connection had. */
  ghost predicate AddressInv(s: Server) {
    && (forall i :: 0 <= i < |s.pool.accepted| ==> Owned(s.hist, s.pool.accepted[i].fd, s.pool.accepted[i].id))
    && (forall i :: 0 <= i < |s.completed| ==> Owned(s.hist, s.completed[i].fd, s.completed[i].id))
    && (s.loop.Delivering? ==>
          forall i :: 0 <= i < |s.loop.batch| ==> Owned(s.hist, s.loop.batch[i].fd, s.loop.batch[i].id))
  }

  /** Connection `id` has not been closed. */
  predicate IsOpen(s: Server, id: nat) {
    id in s.hist && s.hist[id].fd in s.table.conns && s.table.conns[s.hist[id].fd].id == id
  }

  function Processed(respond: Responder, tasks: seq<Task>): (r: seq<Result>)
    ensures |r| == |tasks|
    ensures forall i :: 0 <= i < |r| ==> r[i] == ProcessFrame(respond, tasks[i])
  {
    seq(|tasks|, i requires 0 <= i < |tasks| => ProcessFrame(respond, tasks[i]))
  }

  /** The results owed for the frames decoded on connection `id`. */
  function Owed(respond: Responder, h: Hist, id: nat): seq<Result> {
    Processed(respond, TasksOf(h.fd, id, h.frames))
  }

  function Enqueued(h: Hist, id: nat): (r: seq<Result>)
    ensures |r| == |h.delivered|
    ensures forall i :: 0 <= i < |r| ==> r[i] == Result(h.fd, id, h.delivered[i])
  {
    seq(|h.delivered|, i requires 0 <= i < |h.delivered| => Result(h.fd, id, h.delivered[i]))
  }

  /** How often `r` is among some results. */
  function Times(r: Result, results: seq<Result>): nat {
    multiset(results)[r]
  }

  /** How often `r` will result from some tasks. */
  function DueTimes(respond: Responder, r: Result, tasks: seq<Task>): nat {
    Times(r, Processed(respond, tasks))
  }

  function HeldBy(respond: Responder, r: Result, w: TP.Worker<Task>): nat {
    if w.Running? && ProcessFrame(respond, w.task) == r then 1 else 0
  }

  /** How often `r` will result from the tasks in the hands of workers. */
  function Held(respond: Responder, r: Result, ws: seq<TP.Worker<Task>>): nat {
    if ws == [] then 0 else HeldBy(respond, r, ws[0]) + Held(respond, r, ws[1..])
  }

  /** Frames decoded but not yet submitted. */
  function Unsubmitted(loop: Loop): seq<Task> {
    if loop.Submitting? then TasksOf(loop.fd, loop.id, loop.frames) else []
  }

  function Batch(loop: Loop): seq<Result> {
    if loop.Delivering? then loop.batch else []
  }

  /** How often `r` is due from the pool: queued, or in the hands of a worker. */
  function InPool(respond: Responder, r: Result, p: TP.Pool<Task>): nat {
    DueTimes(respond, r, p.queue.items) + Held(respond, r, p.workers)
  }

  /** How often `r` is on its way from a decoded frame to a write buffer. */
  function InFlight(respond: Responder, s: Server, r: Result): nat {
    DueTimes(respond, r, Unsubmitted(s.loop)) + InPool(respond, r, s.pool)
    + Times(r, s.completed) + Times(r, Batch(s.loop))
  }

  /** Conservation: on an open connection every frame's result is in flight or
      enqueued, exactly once; on a closed one results may be lost, never made. */
  ghost predicate Conserved(respond: Responder, s: Server, r: Result)
    requires r.id in s.hist
  {
    var owed := Times(r, Owed(respond, s.hist[r.id], r.id));
    var seen := InFlight(respond, s, r) + Times(r, Enqueued(s.hist[r.id], r.id));
    owed >= seen && (IsOpen(s, r.id) ==> owed == seen)
  }

  ghost predicate ConservationInv(respond: Responder, s: Server) {
    forall r: Result :: r.id in s.hist ==> Conserved(respond, s, r)
  }

  ghost predicate ServerInv(respond: Responder, s: Server) {
    && TPS.PoolInv(s.pool) && TableInv(s.table)
    && NotifyInv(s) && LoopInv(s) && HistInv(s.table.conns, s.table.nextId, s.hist) && AddressInv(s)
    && ConservationInv(respond, s)
  }

  // ------------------------------------------------- pool, table and counter

  /** Seen from the pool, a step of the server is a step of the pool or nothing. */
  function PoolActionOf(s: Server, step: Step): (a: TP.Action<Task>)
    requires Enabled(s, step) && (step.Background? || step.PublishPush? || step.PublishNotify? || step == Submit)
    ensures TP.Enabled(s.pool, a)
  {
    match step
    case Background(a) => a
    case PublishPush(w) => TP.Act(w)
    case PublishNotify(w, _) => TP.Return(w)
    case Submit => TP.Push(NextTask(s))
  }

  lemma PoolProjection(respond: Responder, s: Server, step: Step)
    requires Enabled(s, step)
    ensures || Next(respond, s, step).pool == s.pool
            || ((step.Background? || step.PublishPush? || step.PublishNotify? || step == Submit)
                && Next(respond, s, step).pool == TP.Next(s.pool, PoolActionOf(s, step)))
  {
  }

  lemma PoolStepInv(respond: Responder, s: Server, step: Step)
    requires TPS.PoolInv(s.pool) && Enabled(s, step)
    ensures TPS.PoolInv(Next(respond, s, step).pool)
  {
    PoolProjection(respond, s, step);
    if Next(respond, s, step).pool != s.pool {
      TPS.StepInv(s.pool, PoolActionOf(s, step));
    }
  }

  lemma TableStepInv(respond: Responder, s: Server, step: Step)
    requires TableInv(s.table) && Enabled(s, step)
    ensures TableInv(Next(respond, s, step).table)
  {
    match step
    case Accept(fd, addOk) => AcceptedInv(s.table, fd, addOk);
    case Deliver(modifyOk) =>
      if s.loop.batch != [] {
        DispatchedInv(s.table, s.loop.batch[0], modifyOk);
      }
    case Hangup(fd) => ClosedInv(s.table, fd);
    case Read(fd, bytes, _) => ReceivedInv(s.table, fd, Decoded(s, fd, bytes).rest);
    case Admit => ClosedInv(s.table, s.loop.fd);
    case Submit => ClosedInv(s.table, s.loop.fd);
    case ReadDone => ClosedInv(s.table, s.loop.fd);
    case Flush(sent, writeFailed, modifyOk) => FlushedInv(s.table, s.loop.fd, sent, writeFailed, modifyOk);
    case _ =>
  }

  lemma NotifyStepInv(respond: Responder, s: Server, step: Step)
    requires NotifyInv(s) && Enabled(s, step)
    ensures NotifyInv(Next(respond, s, step))
  {
    var s' := Next(respond, s, step);
    if SomeRan(s.pool) && (step.Background? || step == Submit) {
      var w :| 0 <= w < |s.pool.workers| && s.pool.workers[w].Ran?;
      assert s'.pool.workers[w].Ran?;
    }
    if step.PublishPush? {
      assert s'.pool.workers[step.w].Ran?;
    }
  }

  // ------------------------------------------------- histories and addresses

  /** A connection's state and history move together, or the connection goes. */
  lemma HistReplaced(conns: map<int, Client>, nextId: nat, hist: map<nat, Hist>, fd: int, client: Client, h: Hist)
    requires HistInv(conns, nextId, hist) && fd in conns && client.id == conns[fd].id
    requires forall fd' :: fd' in conns && conns[fd'].id == conns[fd].id ==> fd' == fd
    requires h.fd == fd && Tracks(client, h)
    ensures HistInv(conns[fd := client], nextId, hist[client.id := h])
    ensures HistInv(conns - {fd}, nextId, hist[client.id := h])
  {
    ParseSound(h.received);
    assert Past(h);
  }

  lemma HistRemoved(conns: map<int, Client>, nextId: nat, hist: map<nat, Hist>, fd: int)
    requires HistInv(conns, nextId, hist)
    ensures HistInv(conns - {fd}, nextId, hist)
  {
  }

  lemma HistExtended(conns: map<int, Client>, nextId: nat, hist: map<nat, Hist>, fd: int)
    requires HistInv(conns, nextId, hist) && nextId > 0 && fd !in conns
    ensures HistInv(conns[fd := Client(nextId, [], [])], nextId + 1, hist[nextId := Hist(fd, [], [], [], [])])
    ensures HistInv(conns, nextId + 1, hist[nextId := Hist(fd, [], [], [], [])])
  {
    var h := Hist(fd, [], [], [], []);
    assert Past(h) && Tracks(Client(nextId, [], []), h);
    assert nextId !in hist;
  }

  lemma AcceptHist(s: Server, fd: int, addOk: bool)
    requires TableInv(s.table) && HistInv(s.table.conns, s.table.nextId, s.hist)
    requires fd >= 0 && fd !in s.table.open
    ensures var s' := NextAccept(s, fd, addOk);
            HistInv(s'.table.conns, s'.table.nextId, s'.hist)
  {
    AcceptedInv(s.table, fd, addOk);
    HistExtended(s.table.conns, s.table.nextId, s.hist, fd);
  }

  /** A dispatched result is appended to the pending bytes and to the history. */
  lemma DeliverHist(s: Server, modifyOk: bool)
    requires TableInv(s.table) && HistInv(s.table.conns, s.table.nextId, s.hist)
    requires Enabled(s, Deliver(modifyOk))
    ensures var s' := NextDeliver(s, modifyOk);
            HistInv(s'.table.conns, s'.table.nextId, s'.hist)
  {
    if s.loop.batch != [] && Addressed(s.table, s.loop.batch[0]) {
      var r := s.loop.batch[0];
      var c := s.table.conns[r.fd];
      if |r.response| <= MAX_PAYLOAD_SIZE {
        var h := s.hist[r.id].(delivered := s.hist[r.id].delivered + [r.response]);
        var c' := c.(pending := c.pending + Encode(r.response));
        EncodeAllSnoc(s.hist[r.id].delivered, r.response);
        AppendAssociates(h.sent, c.pending, Encode(r.response));
        HistReplaced(s.table.conns, s.table.nextId, s.hist, r.fd, c', h);
        ReplacedThenClosed(s.table, r.fd, c');
      } else {
        HistRemoved(s.table.conns, s.table.nextId, s.hist, r.fd);
      }
    }
  }

  lemma ReadHist(s: Server, fd: int, bytes: Bytes, status: ReadStatus)
    requires TableInv(s.table) && HistInv(s.table.conns, s.table.nextId, s.hist)
    requires Enabled(s, Read(fd, bytes, status))
    ensures var s' := NextRead(s, fd, bytes, status);
            HistInv(s'.table.conns, s'.table.nextId, s'.hist)
  {
    var c := s.table.conns[fd];
    var h, read := s.hist[c.id], Decoded(s, fd, bytes);
    ReceivedParse(h.received, bytes, h.frames, read.frames, c.unread, read.rest);
    HistReplaced(s.table.conns, s.table.nextId, s.hist, fd, c.(unread := read.rest),
                 h.(received := h.received + bytes, frames := h.frames + read.frames));
  }

  lemma FlushTracks(c: Client, h: Hist, sent: nat)
    requires Tracks(c, h) && sent <= |c.pending|
    ensures Tracks(c.(pending := c.pending[sent..]), h.(sent := h.sent + c.pending[..sent]))
  {
    assert c.pending == c.pending[..sent] + c.pending[sent..];
    AppendAssociates(h.sent, c.pending[..sent], c.pending[sent..]);
  }

  lemma FlushHist(s: Server, sent: nat, writeFailed: bool, modifyOk: bool)
    requires TableInv(s.table) && HistInv(s.table.conns, s.table.nextId, s.hist)
    requires Enabled(s, Flush(sent, writeFailed, modifyOk))
    ensures var s' := NextFlush(s, sent, writeFailed, modifyOk);
            HistInv(s'.table.conns, s'.table.nextId, s'.hist)
  {
    var fd := s.loop.fd;
    var c := s.table.conns[fd];
    var h := s.hist[c.id];
    var c' := c.(pending := c.pending[sent..]);
    FlushTracks(c, h, sent);
    HistReplaced(s.table.conns, s.table.nextId, s.hist, fd, c', h.(sent := h.sent + c.pending[..sent]));
    ReplacedThenClosed(s.table, fd, c');
  }

  lemma HistStepInv(respond: Responder, s: Server, step: Step)
    requires TableInv(s.table) && HistInv(s.table.conns, s.table.nextId, s.hist)
    requires Enabled(s, step)
    ensures var s' := Next(respond, s, step);
            HistInv(s'.table.conns, s'.table.nextId, s'.hist)
  {
    match step
    case Accept(fd, addOk) => AcceptHist(s, fd, addOk);
    case Deliver(modifyOk) => DeliverHist(s, modifyOk);
    case Hangup(fd) => HistRemoved(s.table.conns, s.table.nextId, s.hist, fd);
    case Read(fd, bytes, status) => ReadHist(s, fd, bytes, status);
    case Admit => HistRemoved(s.table.conns, s.table.nextId, s.hist, s.loop.fd);
    case Submit => HistRemoved(s.table.conns, s.table.nextId, s.hist, s.loop.fd);
    case ReadDone => HistRemoved(s.table.conns, s.table.nextId, s.hist, s.loop.fd);
    case Flush(sent, writeFailed, modifyOk) => FlushHist(s, sent, writeFailed, modifyOk);
    case _ =>
  }

  /** Reading reports an oversized header exactly when it leaves one behind. */
  lemma ReadLeaves(c: Client, h: Hist, bytes: Bytes)
    requires Tracks(c, h) && FirstFrame(c.unread) != PayloadTooLarge
    ensures bytes == [] ==> Parse(c.unread + bytes) == Parsed([], c.unread)
  {
    ParseSound(h.received);
    AppendEmpty(c.unread);
  }

  lemma ReadLoop(s: Server, fd: int, bytes: Bytes, status: ReadStatus)
    requires HistInv(s.table.conns, s.table.nextId, s.hist) && LoopInv(s)
    requires Enabled(s, Read(fd, bytes, status))
    ensures LoopInv(NextRead(s, fd, bytes, status))
  {
    var c := s.table.conns[fd];
    ReadLeaves(c, s.hist[c.id], bytes);
    var left := Decoded(s, fd, bytes).rest;
    assert FirstFrame(left) == PayloadTooLarge ==> status == ReadProtocolError;
    assert NextRead(s, fd, bytes, status).table.conns == s.table.conns[fd := c.(unread := left)];
  }

  lemma LoopStepInv(respond: Responder, s: Server, step: Step)
    requires TableInv(s.table) && HistInv(s.table.conns, s.table.nextId, s.hist) && LoopInv(s)
    requires Enabled(s, step)
    ensures LoopInv(Next(respond, s, step))
  {
    match step
    case Accept(fd, addOk) => AcceptedInv(s.table, fd, addOk);
    case Read(fd, bytes, status) => ReadLoop(s, fd, bytes, status);
    case Flush(sent, writeFailed, modifyOk) => FlushLoop(s, sent, writeFailed, modifyOk);
    case Deliver(modifyOk) => DeliverLoop(s, modifyOk);
    case Hangup(fd) => CloseLoop(s, fd);
    case Admit => CloseLoop(s, s.loop.fd);
    case Submit => CloseLoop(s, s.loop.fd);
    case ReadDone => CloseLoop(s, s.loop.fd);
    case _ =>
  }

  lemma FlushLoop(s: Server, sent: nat, writeFailed: bool, modifyOk: bool)
    requires LoopInv(s) && TableInv(s.table) && Enabled(s, Flush(sent, writeFailed, modifyOk))
    ensures LoopInv(NextFlush(s, sent, writeFailed, modifyOk))
  {
    var c := s.table.conns[s.loop.fd];
    ReplacedThenClosed(s.table, s.loop.fd, c.(pending := c.pending[sent..]));
  }

  /** The loop's thread leaves a connection that it closes. */
  lemma CloseLoop(s: Server, fd: int)
    requires LoopInv(s) && (s.loop == Polling || (s.loop.Submitting? && s.loop.fd == fd))
    ensures LoopInv(s.(table := Closed(s.table, fd), loop := Polling))
  {
  }

  lemma DeliverLoop(s: Server, modifyOk: bool)
    requires TableInv(s.table) && LoopInv(s) && Enabled(s, Deliver(modifyOk))
    ensures LoopInv(NextDeliver(s, modifyOk))
  {
    if s.loop.batch != [] && Fits(s, s.loop.batch[0]) {
      var r := s.loop.batch[0];
      var c := s.table.conns[r.fd];
      ReplacedThenClosed(s.table, r.fd, c.(pending := c.pending + Encode(r.response)));
    }
  }

  /** Ids and descriptors in the history never change; only reading adds frames
      and only dispatching adds responses. */
  ghost predicate Kept(hist: map<nat, Hist>, hist': map<nat, Hist>, step: Step) {
    forall id :: id in hist ==>
      && id in hist' && hist'[id].fd == hist[id].fd
      && (!step.Read? ==> hist'[id].frames == hist[id].frames)
      && (!step.Deliver? ==> hist'[id].delivered == hist[id].delivered)
  }

  lemma HistoryKept(respond: Responder, s: Server, step: Step)
    requires HistInv(s.table.conns, s.table.nextId, s.hist) && Enabled(s, step)
    ensures Kept(s.hist, Next(respond, s, step).hist, step)
  {
    match step
    case Accept(fd, _) => KeptUpdate(s.hist, s.table.nextId, Hist(fd, [], [], [], []), step);
    case Deliver(_) => KeptDeliver(s, step);
    case Read(_, _, _) => KeptRead(s, step);
    case Flush(_, _, _) => KeptFlush(s, step);
    case _ => assert Next(respond, s, step).hist == s.hist;
  }

  lemma KeptUpdate(hist: map<nat, Hist>, id: nat, h: Hist, step: Step)
    requires id in hist ==>
               && h.fd == hist[id].fd
               && (!step.Read? ==> h.frames == hist[id].frames)
               && (!step.Deliver? ==> h.delivered == hist[id].delivered)
    ensures Kept(hist, hist[id := h], step)
  {
  }

  lemma KeptDeliver(s: Server, step: Step)
    requires Enabled(s, step) && step.Deliver?
    ensures Kept(s.hist, NextDeliver(s, step.modifyOk).hist, step)
  {
  }

  lemma KeptRead(s: Server, step: Step)
    requires Enabled(s, step) && step.Read?
    ensures Kept(s.hist, NextRead(s, step.fd, step.bytes, step.status).hist, step)
  {
  }

  lemma KeptFlush(s: Server, step: Step)
    requires Enabled(s, step) && step.Flush?
    ensures Kept(s.hist, NextFlush(s, step.sent, step.writeFailed, step.modifyOk).hist, step)
  {
  }

  /** Only connections that are there submit tasks. */
  lemma AcceptedOwned(respond: Responder, s: Server, step: Step)
    requires HistInv(s.table.conns, s.table.nextId, s.hist) && LoopInv(s) && AddressInv(s) && Enabled(s, step)
    ensures forall i :: 0 <= i < |Next(respond, s, step).pool.accepted| ==>
              Owned(s.hist, Next(respond, s, step).pool.accepted[i].fd, Next(respond, s, step).pool.accepted[i].id)
  {
  }

  lemma ResultsOwned(respond: Responder, s: Server, step: Step)
    requires TPS.PoolInv(s.pool) && AddressInv(s) && Enabled(s, step)
    ensures var s' := Next(respond, s, step);
            && (forall i :: 0 <= i < |s'.completed| ==> Owned(s.hist, s'.completed[i].fd, s'.completed[i].id))
            && (s'.loop.Delivering? ==>
                  forall i :: 0 <= i < |s'.loop.batch| ==> Owned(s.hist, s'.loop.batch[i].fd, s'.loop.batch[i].id))
  {
    if step.PublishPush? {
      var w := s.pool.workers[step.w];
      assert w.task == s.pool.accepted[w.ticket];
    }
  }

  lemma AddressStepInv(respond: Responder, s: Server, step: Step)
    requires TPS.PoolInv(s.pool) && HistInv(s.table.conns, s.table.nextId, s.hist) && LoopInv(s) && AddressInv(s)
    requires Enabled(s, step)
    ensures AddressInv(Next(respond, s, step))
  {
    HistoryKept(respond, s, step);
    assert forall fd, id :: Owned(s.hist, fd, id) ==> Owned(Next(respond, s, step).hist, fd, id);
    AcceptedOwned(respond, s, step);
    ResultsOwned(respond, s, step);
  }
}
