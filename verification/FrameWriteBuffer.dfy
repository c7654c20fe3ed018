/** The resumable printer of src/protocol/frame_write_buffer.cpp. */
module FrameWriting {
  import opened Wire
  import opened Kernel

  datatype QueueStatus = Queued | QueueTooLarge
  datatype FlushStatus = Drained | FlushWouldBlock | FlushError
  datatype FlushResult = FlushResult(status: FlushStatus, bytesTransferred: nat, errorNumber: int)

  /** How a flush ends when the socket has `room` for less than all of `pending`
      bytes, and when it has enough. */
  function FlushOutcome(pending: nat, room: nat, stop: int): FlushResult {
    if pending <= room then FlushResult(Drained, pending, 0)
    else FlushResult(if stop == EAGAIN then FlushWouldBlock else FlushError, room, stop)
  }

  /** The sizes a buffer has, and the bytes ever accepted, sent and shifted. */
  datatype Cost = Cost(size: nat, offset: nat, accepted: nat, sent: nat, moved: nat)

  const FRESH := Cost(0, 0, 0, 0, 0)

  datatype Use = Enqueues(length: nat) | Sends(count: nat)

  predicate Possible(c: Cost, u: Use) {
    match u
    case Enqueues(n) => n <= MAX_PAYLOAD_SIZE
    case Sends(n) => c.offset + n <= c.size
  }

  /** What enqueueing now would shift: the unsent bytes behind sent ones. */
  function Shifted(c: Cost): nat {
    if 0 < c.offset < c.size then c.size - c.offset else 0
  }

  function AfterUse(c: Cost, u: Use): Cost
    requires c.offset <= c.size && Possible(c, u)
  {
    match u
    case Enqueues(n) =>
      Cost(c.size - c.offset + HEADER_SIZE + n, 0, c.accepted + HEADER_SIZE + n, c.sent, c.moved + Shifted(c))
    case Sends(n) =>
      if c.offset + n == c.size then Cost(0, 0, c.accepted, c.sent + n, c.moved)
      else c.(offset := c.offset + n, sent := c.sent + n)
  }

  class FrameWriteBuffer {
    var buffer: Bytes
    var writeOffset: nat

    ghost var accepted: nat // bytes of all frames enqueued so far
    ghost var sent: nat     // bytes of them sent so far
    ghost var moved: nat    // bytes shifted by all erasures so far: what each leaves in the buffer

    ghost predicate Valid()
      reads this
    {
      writeOffset <= |buffer|
    }

    function Pending(): Bytes
      reads this
      requires Valid()
    {
      buffer[writeOffset..]
    }

    ghost function Costs(): Cost
      reads this
    {
      Cost(|buffer|, writeOffset, accepted, sent, moved)
    }

    constructor ()
      ensures Valid() && Pending() == [] && Costs() == FRESH
    {
      buffer, writeOffset := [], 0;
      accepted, sent, moved := 0, 0, 0;
    }

    method Enqueue(payload: Bytes) returns (status: QueueStatus)
      requires Valid()
      modifies this
      ensures Valid()
      ensures status == Queued <==> |payload| <= MAX_PAYLOAD_SIZE
      ensures Pending() == old(Pending()) + (if status == Queued then Encode(payload) else [])
      ensures sent == old(sent) && accepted == old(accepted) + (if status == Queued then |Encode(payload)| else 0)
      ensures moved == old(moved) +
                       (if status == Queued && 0 < old(writeOffset) < |old(buffer)| then |old(Pending())| else 0)
      ensures Costs() == if status == Queued then AfterUse(old(Costs()), Enqueues(|payload|)) else old(Costs())
    {
      if |payload| > MAX_PAYLOAD_SIZE {
        return QueueTooLarge;
      }
      Compact();
      buffer := buffer + (Header(|payload|) + payload);
      accepted := accepted + HEADER_SIZE + |payload|;
      return Queued;
    }

    /** Sends what the socket takes, `taken`: no byte is lost, repeated or reordered. */
    method Flush(socket: Socket) returns (r: FlushResult, ghost taken: Bytes)
      requires Valid()
      modifies this, socket`outgoing, socket`wire
      ensures Valid()
      ensures r == FlushOutcome(old(|Pending()|), Room(old(socket.outgoing)), SendStop(old(socket.outgoing)))
      ensures r.bytesTransferred == Min(old(|Pending()|), Room(old(socket.outgoing)))
      ensures r.status == Drained <==> old(|Pending()|) <= Room(old(socket.outgoing))
      ensures r.status == FlushWouldBlock <==>
                Room(old(socket.outgoing)) < old(|Pending()|) && SendStop(old(socket.outgoing)) == EAGAIN
      ensures r.status == FlushError <==>
                Room(old(socket.outgoing)) < old(|Pending()|) && SendStop(old(socket.outgoing)) != EAGAIN
      ensures r.errorNumber == if r.status == Drained then 0 else SendStop(old(socket.outgoing))
      ensures old(Pending()) == taken + Pending() && |taken| == r.bytesTransferred
      ensures socket.wire == old(socket.wire) + taken
      ensures r.status == Drained ==> buffer == []
      ensures sent == old(sent) + r.bytesTransferred && accepted == old(accepted) && moved == old(moved)
      ensures Costs() == AfterUse(old(Costs()), Sends(r.bytesTransferred))
    {
      taken := [];
      var totalSent: nat := 0;
      ghost var pending, room, stop := Pending(), Room(socket.outgoing), SendStop(socket.outgoing);
      while writeOffset < |buffer|
        invariant Valid() && buffer == old(buffer) && writeOffset == old(writeOffset) + totalSent
        invariant pending == taken + Pending() && |taken| == totalSent
        invariant socket.wire == old(socket.wire) + taken
        invariant totalSent + Room(socket.outgoing) == room && SendStop(socket.outgoing) == stop
        invariant sent == old(sent) + totalSent && accepted == old(accepted) && moved == old(moved)
        decreases |buffer| - writeOffset, |socket.outgoing|
      {
        var outcome := socket.Send(buffer[writeOffset..]);
        if outcome.Sent? && outcome.count > 0 {
          ghost var bytes := buffer[writeOffset..][..outcome.count];
          SendingMovesBytes(taken, buffer, writeOffset, outcome.count);
          AppendAssociates(old(socket.wire), taken, bytes);
          taken := taken + bytes;
          writeOffset := writeOffset + outcome.count;
          totalSent := totalSent + outcome.count;
          sent := sent + outcome.count;
          continue;
        }
        if outcome.Sent? {
          return FlushResult(FlushError, totalSent, EPIPE), taken;
        }
        if outcome.errno == EINTR {
          continue;
        }
        if outcome.errno == EAGAIN {
          return FlushResult(FlushWouldBlock, totalSent, outcome.errno), taken;
        }
        return FlushResult(FlushError, totalSent, outcome.errno), taken;
      }
      AppendEmpty(taken);
      Clear();
      return FlushResult(Drained, totalSent, 0), taken;
    }

    predicate Empty()
      requires Valid()
      reads this
      ensures Empty() <==> Pending() == []
    {
      PendingBytes() == 0
    }

    function PendingBytes(): (n: nat)
      requires Valid()
      reads this
      ensures n == |Pending()|
    {
      |buffer| - writeOffset
    }

    method Clear()
      modifies `buffer, `writeOffset
      ensures Valid() && Pending() == [] && buffer == [] && writeOffset == 0
    {
      buffer, writeOffset := [], 0;
    }

    method Compact()
      requires Valid()
      modifies `buffer, `writeOffset, `moved
      ensures Valid() && writeOffset == 0 && buffer == old(Pending())
      ensures moved == old(moved) + (if 0 < |buffer| < old(|buffer|) then |buffer| else 0)
    {
      if writeOffset == 0 {
        return;
      }
      if writeOffset == |buffer| {
        Clear();
        return;
      }
      moved := moved + (|buffer| - writeOffset);
      buffer := buffer[writeOffset..];
      writeOffset := 0;
    }
  }

  /** Bytes leave the buffer in the order in which they reach the wire. */
  lemma SendingMovesBytes(taken: Bytes, buffer: Bytes, offset: nat, count: nat)
    requires offset + count <= |buffer|
    ensures taken + buffer[offset..][..count] + buffer[offset + count..] == taken + buffer[offset..]
  {
    assert buffer[offset..][..count] + buffer[offset + count..] == buffer[offset..];
  }

  // ----------------------------------------------------- the cost of compaction

  /** `uses` is a way to use a buffer that enqueues behind sent bytes only while
      at most `limit` bytes are unsent. */
  ghost predicate Guarded(c: Cost, uses: seq<Use>, limit: nat)
    decreases |uses|
  {
    c.offset <= c.size
    && (uses == []
        || (&& Possible(c, uses[0]) && (uses[0].Enqueues? ==> Shifted(c) <= limit)
            && Guarded(AfterUse(c, uses[0]), uses[1..], limit)))
  }

  ghost function AfterUses(c: Cost, uses: seq<Use>, limit: nat): Cost
    requires Guarded(c, uses, limit)
    decreases |uses|
  {
    if uses == [] then c else AfterUses(AfterUse(c, uses[0]), uses[1..], limit)
  }

  lemma UseFirst(c: Cost, u: Use, uses: seq<Use>, limit: nat) returns (all: seq<Use>)
    requires c.offset <= c.size && Possible(c, u) && (u.Enqueues? ==> Shifted(c) <= limit)
    requires Guarded(AfterUse(c, u), uses, limit)
    ensures Guarded(c, all, limit) && AfterUses(c, all, limit) == AfterUses(AfterUse(c, u), uses, limit)
  {
    all := [u] + uses;
    assert all[0] == u && all[1..] == uses;
  }

  /** Every byte shifted is paid for by `k` bytes sent since the last shift; a
      buffer that is not empty holds a whole header. */
  ghost predicate Paid(c: Cost, k: nat) {
    c.offset <= c.sent && c.moved <= k * (c.sent - c.offset) && (c.size == 0 || c.size >= HEADER_SIZE)
  }

  lemma Sum(k: nat, a: nat, b: nat)
    ensures k * (a + b) == k * a + k * b
    ensures a > 0 ==> k * a >= k
  {
  }

  lemma PaidEnqueue(c: Cost, n: nat, limit: nat, k: nat)
    requires Paid(c, k) && 0 < c.offset < c.size && Shifted(c) <= limit && n <= MAX_PAYLOAD_SIZE
    requires limit <= k || (limit == 2 && k == 1)
    ensures Paid(AfterUse(c, Enqueues(n)), k)
  {
    var shifted := c.size - c.offset;
    Affordable(k, c.offset, shifted, limit);
    Sum(k, c.sent - c.offset, c.offset);
    assert c.moved + shifted <= k * c.sent;
  }

  lemma Affordable(k: nat, offset: nat, shifted: nat, limit: nat)
    requires 0 < offset && shifted <= limit && HEADER_SIZE <= offset + shifted
    requires limit <= k || (limit == 2 && k == 1)
    ensures shifted <= k * offset
  {
    Sum(k, offset, 0);
  }

  lemma PaidOther(c: Cost, u: Use, k: nat)
    requires Paid(c, k) && c.offset <= c.size && Possible(c, u) && (u.Enqueues? ==> Shifted(c) == 0)
    ensures Paid(AfterUse(c, u), k)
  {
    var c' := AfterUse(c, u);
    var before, after := c.sent - c.offset, c'.sent - c'.offset;
    assert before <= after;
    Sum(k, before, after - before);
  }

  lemma PaidStep(c: Cost, u: Use, limit: nat, k: nat)
    requires Paid(c, k) && c.offset <= c.size && Possible(c, u) && (u.Enqueues? ==> Shifted(c) <= limit)
    requires limit <= k || (limit == 2 && k == 1)
    ensures Paid(AfterUse(c, u), k)
  {
    if u.Enqueues? && Shifted(c) > 0 {
      PaidEnqueue(c, u.length, limit, k);
    } else {
      PaidOther(c, u, k);
    }
  }

  lemma {:induction false} PaidUses(c: Cost, uses: seq<Use>, limit: nat, k: nat)
    requires Paid(c, k) && Guarded(c, uses, limit)
    requires limit <= k || (limit == 2 && k == 1)
    ensures Paid(AfterUses(c, uses, limit), k)
    decreases |uses|
  {
    if uses != [] {
      PaidStep(c, uses[0], limit, k);
      PaidUses(AfterUse(c, uses[0]), uses[1..], limit, k);
    }
  }

  /** Fills a buffer to `limit` + 1 bytes, sends one and enqueues behind the rest. */
  lemma {:induction false} Costly(c: Cost, limit: nat) returns (uses: seq<Use>)
    requires c.offset == 0 && c.sent == 0 && c.moved == 0 && limit >= 3
    requires c.size == limit + 1 || c.size + HEADER_SIZE <= limit + 1
    ensures Guarded(c, uses, limit)
    ensures AfterUses(c, uses, limit).sent == 1 && AfterUses(c, uses, limit).moved == limit
    decreases limit + 1 - c.size
  {
    if c.size == limit + 1 {
      uses := SendAndEnqueue(c, 1, [], limit);
    } else {
      var room := limit + 1 - c.size;
      var u := Enqueues(if room < 2 * HEADER_SIZE then room - HEADER_SIZE else 0);
      uses := Costly(AfterUse(c, u), limit);
      uses := UseFirst(c, u, uses, limit);
    }
  }

  /** The same for a limit below three, which a single header already exceeds. */
  lemma CostlySmall(c: Cost, limit: nat) returns (uses: seq<Use>)
    requires c.size == 0 && c.offset == 0 && c.sent == 0 && c.moved == 0 && 0 < limit <= 2
    ensures Guarded(c, uses, limit)
    ensures AfterUses(c, uses, limit).sent == HEADER_SIZE - limit && AfterUses(c, uses, limit).moved == limit
  {
    var c1 := AfterUse(c, Enqueues(0));
    uses := SendAndEnqueue(c1, HEADER_SIZE - limit, [], limit);
    uses := UseFirst(c, Enqueues(0), uses, limit);
  }

  /** One compaction of all but `count` bytes. */
  lemma SendAndEnqueue(c: Cost, count: nat, rest: seq<Use>, limit: nat) returns (uses: seq<Use>)
    requires c.offset == 0 && 0 < count < c.size <= limit + count
    requires Guarded(Compacted(c, count), rest, limit)
    ensures Guarded(c, uses, limit) && AfterUses(c, uses, limit) == AfterUses(Compacted(c, count), rest, limit)
  {
    var c1 := AfterUse(c, Sends(count));
    uses := UseFirst(c1, Enqueues(0), rest, limit);
    uses := UseFirst(c, Sends(count), uses, limit);
  }

  function Compacted(c: Cost, count: nat): Cost
    requires count <= c.size
  {
    Cost(c.size - count + HEADER_SIZE, 0, c.accepted + HEADER_SIZE, c.sent + count, c.moved + c.size - count)
  }

  lemma Exceeded(limit: nat, k: nat) returns (uses: seq<Use>)
    requires !(limit <= k || (limit == 2 && k == 1))
    ensures Guarded(FRESH, uses, limit)
    ensures AfterUses(FRESH, uses, limit).moved > k * AfterUses(FRESH, uses, limit).sent
  {
    if limit <= 2 {
      uses := CostlySmall(FRESH, limit);
      assert k == 0;
    } else {
      uses := Costly(FRESH, limit);
      assert k * 1 == k;
    }
  }

  lemma NotExceeded(uses: seq<Use>, limit: nat, k: nat)
    requires limit <= k || (limit == 2 && k == 1)
    requires Guarded(FRESH, uses, limit)
    ensures AfterUses(FRESH, uses, limit).moved <= k * AfterUses(FRESH, uses, limit).sent
  {
    PaidUses(FRESH, uses, limit, k);
    var c := AfterUses(FRESH, uses, limit);
    Sum(k, c.sent - c.offset, c.offset);
  }

  /** When compaction is cheap: it shifts at most `k` bytes for each byte sent, in
      every use, if and only if nothing is enqueued behind more than `k` unsent
      bytes. (At `k` == 1 two are also harmless, since a frame has four.) */
  lemma CompactionCost(limit: nat, k: nat)
    ensures (forall uses: seq<Use> :: Guarded(FRESH, uses, limit) ==>
               AfterUses(FRESH, uses, limit).moved <= k * AfterUses(FRESH, uses, limit).sent)
            <==> limit <= k || (limit == 2 && k == 1)
  {
    if limit <= k || (limit == 2 && k == 1) {
      forall uses: seq<Use> | Guarded(FRESH, uses, limit)
        ensures AfterUses(FRESH, uses, limit).moved <= k * AfterUses(FRESH, uses, limit).sent
      {
        NotExceeded(uses, limit, k);
      }
    } else {
      var uses := Exceeded(limit, k);
    }
  }

  /** Each round sends one byte and enqueues an empty frame behind all the others. */
  lemma {:induction false} Rounds(c: Cost, n: nat, price: nat, limit: nat) returns (uses: seq<Use>)
    requires c.offset == 0 && c.size >= HEADER_SIZE && c.size > price && c.size + 3 * n <= limit
    ensures Guarded(c, uses, limit)
    ensures var c' := AfterUses(c, uses, limit);
            && c'.sent == c.sent + n && c'.accepted == c.accepted + HEADER_SIZE * n
            && c'.moved >= c.moved + price * n
    decreases n
  {
    uses := [];
    if n > 0 {
      uses := Rounds(Compacted(c, 1), n - 1, price, limit);
      uses := SendAndEnqueue(c, 1, uses, limit);
      Sum(price, n - 1, 1);
    }
  }

  lemma {:induction false} Prefilled(c: Cost, frames: nat, uses: seq<Use>, limit: nat) returns (all: seq<Use>)
    requires c.offset == 0
    requires var size := HEADER_SIZE * frames;
             Guarded(c.(size := c.size + size, accepted := c.accepted + size), uses, limit)
    ensures Guarded(c, all, limit)
    ensures var size := HEADER_SIZE * frames;
            AfterUses(c, all, limit) == AfterUses(c.(size := c.size + size, accepted := c.accepted + size), uses, limit)
    decreases frames
  {
    all := uses;
    if frames > 0 {
      var u := Enqueues(0);
      assert HEADER_SIZE * frames == HEADER_SIZE + HEADER_SIZE * (frames - 1);
      all := Prefilled(AfterUse(c, u), frames - 1, uses, limit);
      all := UseFirst(c, u, all, limit);
    }
  }

  /** The bytes ever accepted or sent. */
  function Handled(c: Cost): nat {
    c.accepted + c.sent
  }

  lemma Piled(c: Cost, n: nat, price: nat, limit: nat) returns (uses: seq<Use>, c': Cost)
    requires c.size == 0 && c.offset == 0 && c.accepted == 0 && c.sent == 0 && c.moved == 0
    requires price < HEADER_SIZE * n && limit == 7 * n
    ensures Guarded(c, uses, limit) && c' == AfterUses(c, uses, limit)
    ensures Handled(c') == 9 * n && c'.moved >= price * n
  {
    uses := Rounds(c.(size := HEADER_SIZE * n, accepted := HEADER_SIZE * n), n, price, limit);
    uses := Prefilled(c, n, uses, limit);
    c' := AfterUses(c, uses, limit);
  }

  lemma EnoughRounds(factor: nat) returns (n: nat, handled: nat)
    ensures 0 < n && handled == 9 * n && n * n > factor * handled
  {
    n := 9 * factor + 1;
    handled := 9 * n;
    Sum(n, 9 * factor, 1);
    assert n * (9 * factor) == factor * (9 * n);
  }

  /** Without such a guard nothing bounds the cost: whatever the factor, some use
      shifts more than that many bytes for each byte ever accepted or sent. */
  lemma Unamortised(factor: nat) returns (uses: seq<Use>, limit: nat)
    ensures Guarded(FRESH, uses, limit)
    ensures AfterUses(FRESH, uses, limit).moved > factor * Handled(AfterUses(FRESH, uses, limit))
  {
    var n, handled := EnoughRounds(factor);
    limit := 7 * n;
    var c;
    uses, c := Piled(FRESH, n, n, limit);
    assert Handled(c) == handled;
  }
}
