/** The notification counter of src/network/event_fd.cpp: a non-blocking eventfd. */
module EventFds {
  import opened Kernel

  /** eventfd(2): the largest value the counter holds, 2^64 - 2. */
  const COUNTER_MAX: nat := 0xFFFF_FFFF_FFFF_FFFE

  type Uint64 = x: int | 0 <= x < 0x1_0000_0000_0000_0000
  type HardErrno = e: int | e != 0 && e != EINTR && e != EAGAIN witness EIO

  /** What can keep one system call from doing its work. */
  datatype Hindrance = Interrupted | Partial | Broken(errno: HardErrno)

  datatype NotifyResult = NotifyResult(success: bool, errorNumber: int)
  datatype ConsumeResult = ConsumeResult(success: bool, value: Uint64, errorNumber: int)

  /** All that a caller knows of a notification: it was counted, or it was
      dropped, and EAGAIN means that the counter was too full to take it. */
  predicate NotifySpec(value: Uint64, before: nat, after: nat, r: NotifyResult) {
    if r.success then r.errorNumber == 0 && after == before + value <= COUNTER_MAX
    else after == before && r.errorNumber != 0 && (r.errorNumber == EAGAIN ==> before + value > COUNTER_MAX)
  }

  /** Consuming takes the whole counter, and EAGAIN means that it was zero. */
  predicate ConsumeSpec(before: nat, after: nat, r: ConsumeResult) {
    if r.success then r.errorNumber == 0 && after == 0 && 0 < r.value == before
    else after == before && r.errorNumber != 0 && (r.errorNumber == EAGAIN ==> before == 0)
  }

  /** The first hindrance that is not an interruption, if there is one. */
  function Decisive(script: seq<Hindrance>): (h: Hindrance)
    ensures h == Interrupted <==> forall i :: 0 <= i < |script| ==> script[i] == Interrupted
    ensures h != Interrupted ==>
              exists n :: 0 <= n < |script| && script[n] == h && forall i :: 0 <= i < n ==> script[i] == Interrupted
  {
    if script == [] then Interrupted
    else if script[0] == Interrupted then Decisive(script[1..])
    else script[0]
  }

  /** A script cut at `next` behind interruptions decides what the whole does. */
  lemma DecisiveNext(script: seq<Hindrance>, next: nat)
    requires next < |script|
    ensures Decisive(script[next..]) ==
            if script[next] == Interrupted then Decisive(script[next + 1..]) else script[next]
  {
    assert script[next..][1..] == script[next + 1..];
  }

  /** write(2) of `value` to an eventfd that nothing hinders. */
  function Written(value: Uint64, counter: nat): NotifyResult {
    if value > COUNTER_MAX then NotifyResult(false, EINVAL)
    else if counter + value > COUNTER_MAX then NotifyResult(false, EAGAIN)
    else NotifyResult(true, 0)
  }

  class EventFd {
    const fd: int
    var counter: nat

    predicate Valid()
      reads this
    {
      counter <= COUNTER_MAX
    }

    constructor (fd: int)
      ensures Valid() && this.fd == fd && counter == 0
    {
      this.fd := fd;
      counter := 0;
    }

    method Notify(value: Uint64, script: seq<Hindrance>) returns (r: NotifyResult)
      requires Valid()
      modifies this
      ensures Valid() && NotifySpec(value, old(counter), counter, r)
      ensures fd < 0 ==> r == NotifyResult(false, EBADF)
      ensures fd >= 0 && value == 0 ==> r == NotifyResult(false, EINVAL)
      ensures fd >= 0 && value > 0 ==>
                r == match Decisive(script)
                     case Interrupted => Written(value, old(counter))
                     case Partial => NotifyResult(false, EIO)
                     case Broken(errno) => NotifyResult(false, errno)
      ensures r.success <==>
                fd >= 0 && value > 0 && Decisive(script) == Interrupted && old(counter) + value <= COUNTER_MAX
      ensures counter == old(counter) + (if r.success then value else 0)
      ensures r.errorNumber == 0 <==> r.success
      ensures r.errorNumber == EAGAIN <==>
                fd >= 0 && value > 0 && Decisive(script) == Interrupted && value <= COUNTER_MAX < old(counter) + value
      ensures fd >= 0 && value > 0 && Decisive(script) == Interrupted ==>
                (r.errorNumber == EINVAL <==> value > COUNTER_MAX)
    {
      if fd < 0 {
        return NotifyResult(false, EBADF);
      }
      if value == 0 {
        return NotifyResult(false, EINVAL);
      }
      var next: nat := 0;
      while true
        invariant next <= |script| && counter == old(counter)
        invariant Decisive(script[next..]) == Decisive(script)
        decreases |script| - next
      {
        if next == |script| {
          if value > COUNTER_MAX {
            return NotifyResult(false, EINVAL);
          }
          if counter + value > COUNTER_MAX {
            return NotifyResult(false, EAGAIN);
          }
          counter := counter + value;
          return NotifyResult(true, 0);
        }
        DecisiveNext(script, next);
        match script[next]
        case Interrupted => next := next + 1;
        case Partial => return NotifyResult(false, EIO);
        case Broken(errno) => return NotifyResult(false, errno);
      }
    }

    method Consume(script: seq<Hindrance>) returns (r: ConsumeResult)
      requires Valid()
      modifies this
      ensures Valid() && ConsumeSpec(old(counter), counter, r)
      ensures fd < 0 ==> r == ConsumeResult(false, 0, EBADF)
      ensures fd >= 0 ==>
                r == match Decisive(script)
                     case Interrupted =>
                       if old(counter) > 0 then ConsumeResult(true, old(counter), 0)
                       else ConsumeResult(false, 0, EAGAIN)
                     case Partial => ConsumeResult(false, 0, EIO)
                     case Broken(errno) => ConsumeResult(false, 0, errno)
      ensures r.success <==> fd >= 0 && Decisive(script) == Interrupted && old(counter) > 0
      ensures if r.success then r.value == old(counter) && counter == 0 else r.value == 0 && counter == old(counter)
      ensures r.errorNumber == 0 <==> r.success
      ensures r.errorNumber == EAGAIN <==> fd >= 0 && Decisive(script) == Interrupted && old(counter) == 0
    {
      if fd < 0 {
        return ConsumeResult(false, 0, EBADF);
      }
      var next: nat := 0;
      while true
        invariant next <= |script| && counter == old(counter)
        invariant Decisive(script[next..]) == Decisive(script)
        decreases |script| - next
      {
        if next == |script| {
          if counter == 0 {
            return ConsumeResult(false, 0, EAGAIN);
          }
          r := ConsumeResult(true, counter, 0);
          counter := 0;
          return;
        }
        DecisiveNext(script, next);
        match script[next]
        case Interrupted => next := next + 1;
        case Partial => return ConsumeResult(false, 0, EIO);
        case Broken(errno) => return ConsumeResult(false, 0, errno);
      }
    }
  }
}
