/** What the program sees of the kernel: error numbers, and a stream socket
    whose every system call follows a finite script of outcomes. When a script
    is used up the call answers EAGAIN, as a non-blocking socket does.
 */
module Kernel {
  import opened Wire

  const EINTR: int := 4
  const EIO: int := 5
  const EBADF: int := 9
  const EAGAIN: int := 11 // EWOULDBLOCK is the same number on Linux
  const EINVAL: int := 22
  const EPIPE: int := 32

  type Chunk = b: Bytes | |b| > 0 witness [0]

  /** `Data` is a positive return of recv(2), `End` is 0, `Failed` is -1. */
  datatype RecvOutcome = Data(bytes: Chunk) | End | Failed(errno: int)

  /** The room send(2) finds in the socket, or why it takes nothing. */
  datatype SendReadiness = Takes(count: nat) | Refuses(errno: int)

  /** The return value of send(2), with errno when it is -1. */
  datatype SendOutcome = Sent(count: nat) | SendFailed(errno: int)

  /** Bounds the calls a script can answer before EAGAIN. */
  ghost function Budget(script: seq<RecvOutcome>): nat {
    if script == [] then 0
    else 1 + Budget(script[1..]) + (if script[0].Data? then |script[0].bytes| else 0)
  }

  predicate Passes(o: RecvOutcome) {
    o.Data? || o == Failed(EINTR)
  }

  /** All a script hands over before the outcome that is neither data nor EINTR. */
  ghost function Arriving(script: seq<RecvOutcome>): Bytes {
    if script == [] || !Passes(script[0]) then []
    else (if script[0].Data? then script[0].bytes else []) + Arriving(script[1..])
  }

  /** That outcome. */
  ghost function RecvStop(script: seq<RecvOutcome>): (o: RecvOutcome)
    ensures !Passes(o) && !o.Data? && o != Failed(EINTR)
  {
    if script == [] then Failed(EAGAIN) else if Passes(script[0]) then RecvStop(script[1..]) else script[0]
  }

  /** How much a script takes before it takes nothing for another reason than
      EINTR; a socket that takes zero bytes is broken. */
  ghost function Room(script: seq<SendReadiness>): nat {
    if script == [] then 0
    else match script[0]
         case Takes(n) => if n == 0 then 0 else n + Room(script[1..])
         case Refuses(e) => if e == EINTR then Room(script[1..]) else 0
  }

  /** That reason, as an error number. */
  ghost function SendStop(script: seq<SendReadiness>): (e: int)
    ensures e != EINTR
  {
    if script == [] then EAGAIN
    else match script[0]
         case Takes(n) => if n == 0 then EPIPE else SendStop(script[1..])
         case Refuses(e) => if e == EINTR then SendStop(script[1..]) else e
  }

  /** Data and EINTR are passed over, in any number and order, and whatever comes
      first otherwise is the stop; behind it nothing counts. */
  lemma {:induction false} RecvScript(early: seq<RecvOutcome>, o: RecvOutcome, late: seq<RecvOutcome>)
    requires forall i :: 0 <= i < |early| ==> early[i].Data? || early[i] == Failed(EINTR)
    requires !o.Data? && o != Failed(EINTR)
    ensures RecvStop(early) == Failed(EAGAIN) && RecvStop(early + ([o] + late)) == o
    ensures Arriving(early + ([o] + late)) == Arriving(early)
    ensures early != [] ==>
              Arriving(early) == (if early[0].Data? then early[0].bytes else []) + Arriving(early[1..])
  {
    var script := early + ([o] + late);
    if early == [] {
      assert script == [o] + late;
    } else {
      assert script[0] == early[0] && script[1..] == early[1..] + ([o] + late);
      RecvScript(early[1..], o, late);
    }
  }

  /** Room and EINTR are passed over, in any number and order; whatever comes
      first otherwise is the stop, and behind it there is no room. */
  lemma {:induction false} SendScript(early: seq<SendReadiness>, o: SendReadiness, late: seq<SendReadiness>)
    requires forall i :: 0 <= i < |early| ==> early[i] == Refuses(EINTR) || (early[i].Takes? && early[i].count > 0)
    requires o != Refuses(EINTR) && (o.Takes? ==> o.count == 0)
    ensures SendStop(early) == EAGAIN
    ensures SendStop(early + ([o] + late)) == if o.Refuses? then o.errno else EPIPE
    ensures Room(early + ([o] + late)) == Room(early)
    ensures early != [] ==> Room(early) == (if early[0].Takes? then early[0].count else 0) + Room(early[1..])
  {
    var script := early + ([o] + late);
    if early == [] {
      assert script == [o] + late;
    } else {
      assert script[0] == early[0] && script[1..] == early[1..] + ([o] + late);
      SendScript(early[1..], o, late);
    }
  }

  function Min(a: nat, b: nat): (r: nat)
    ensures r <= a && r <= b && (r == a || r == b)
  {
    if a < b then a else b
  }

  class Socket {
    var incoming: seq<RecvOutcome>
    var outgoing: seq<SendReadiness>
    ghost var received: Bytes // every byte recv has returned
    ghost var wire: Bytes     // every byte send has accepted

    constructor (incoming: seq<RecvOutcome>, outgoing: seq<SendReadiness>)
      ensures this.incoming == incoming && this.outgoing == outgoing
      ensures received == [] && wire == []
    {
      this.incoming, this.outgoing := incoming, outgoing;
      received, wire := [], [];
    }

    /** recv(2) into a buffer of `capacity` bytes: a longer arrival is split. */
    method Recv(capacity: nat) returns (r: RecvOutcome)
      requires capacity > 0
      modifies `incoming, `received
      ensures r.Data? ==> |r.bytes| <= capacity
      ensures received == old(received) + (if r.Data? then r.bytes else [])
      ensures Passes(r) ==> Budget(incoming) < Budget(old(incoming))
      ensures Passes(r) ==> RecvStop(incoming) == RecvStop(old(incoming))
      ensures Arriving(old(incoming)) ==
              if r.Data? then r.bytes + Arriving(incoming) else if Passes(r) then Arriving(incoming) else []
      ensures !Passes(r) ==> r == RecvStop(old(incoming))
    {
      if incoming == [] {
        return Failed(EAGAIN);
      }
      r := incoming[0];
      if r.Data? && |r.bytes| > capacity {
        ghost var rest := Arriving(incoming[1..]);
        AppendAssociates(r.bytes[..capacity], r.bytes[capacity..], rest);
        assert r.bytes == r.bytes[..capacity] + r.bytes[capacity..];
        incoming := [Data(r.bytes[capacity..])] + incoming[1..];
        r := Data(r.bytes[..capacity]);
      } else {
        AppendEmpty(Arriving(incoming[1..]));
        incoming := incoming[1..];
      }
      received := received + (if r.Data? then r.bytes else []);
    }

    /** send(2) of a non-empty `data`: room not used stays for the next call. */
    method Send(data: Bytes) returns (r: SendOutcome)
      requires data != []
      modifies `outgoing, `wire
      ensures r.Sent? ==> r.count <= |data| && wire == old(wire) + data[..r.count]
      ensures r.SendFailed? ==> wire == old(wire) && (r != SendFailed(EAGAIN) ==> |outgoing| < |old(outgoing)|)
      ensures (r.Sent? && r.count > 0) || r == SendFailed(EINTR) ==> SendStop(outgoing) == SendStop(old(outgoing))
      ensures Room(old(outgoing)) ==
              if r.Sent? && r.count > 0 then r.count + Room(outgoing)
              else if r == SendFailed(EINTR) then Room(outgoing) else 0
      ensures r == Sent(0) ==> SendStop(old(outgoing)) == EPIPE
      ensures r.SendFailed? && r.errno != EINTR ==> SendStop(old(outgoing)) == r.errno
    {
      if outgoing == [] {
        return SendFailed(EAGAIN);
      }
      match outgoing[0]
      case Takes(n) =>
        var count := Min(n, |data|);
        wire := wire + data[..count];
        r := Sent(count);
        ghost var rest := outgoing[1..];
        outgoing := if n > count then [Takes(n - count)] + outgoing[1..] else outgoing[1..];
        assert n > count ==> outgoing[1..] == rest;
      case Refuses(e) =>
        r := SendFailed(e);
        outgoing := outgoing[1..];
    }
  }
}
