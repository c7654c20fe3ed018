/** The loops of src/network/io.cpp that turn short transfers into whole ones. */
module Io {
  import opened Wire
  import opened Kernel

  datatype IoStatus = Completed | PeerClosed | WouldBlock | Error

  datatype IoResult = IoResult(status: IoStatus, bytesTransferred: nat, errorNumber: int)

  /** How a transfer that the outcome `stop` cut short ends. */
  function CutShort(bytes: nat, errorNumber: int): IoResult {
    IoResult(if errorNumber == EAGAIN then WouldBlock else Error, bytes, errorNumber)
  }

  function ReceiveCutShort(bytes: nat, stop: RecvOutcome): IoResult
    requires !stop.Data?
  {
    match stop
    case End => IoResult(PeerClosed, bytes, 0)
    case Failed(errno) => CutShort(bytes, errno)
  }

  /** Sends as much of `data` as the socket has room for, and says what stopped it. */
  method SendAll(socket: Socket, data: Bytes) returns (r: IoResult)
    modifies socket`outgoing, socket`wire
    ensures r.bytesTransferred == Min(Room(old(socket.outgoing)), |data|)
    ensures socket.wire == old(socket.wire) + data[..r.bytesTransferred]
    ensures r == if |data| <= Room(old(socket.outgoing)) then IoResult(Completed, |data|, 0)
                 else CutShort(Room(old(socket.outgoing)), SendStop(old(socket.outgoing)))
    ensures r.status == Completed <==> |data| <= Room(old(socket.outgoing))
    ensures r.status == WouldBlock <==>
              Room(old(socket.outgoing)) < |data| && SendStop(old(socket.outgoing)) == EAGAIN
    ensures r.status == Error <==> Room(old(socket.outgoing)) < |data| && SendStop(old(socket.outgoing)) != EAGAIN
    ensures r.errorNumber == if r.status == Completed then 0 else SendStop(old(socket.outgoing))
    ensures r.status == Completed ==>
              && Room(socket.outgoing) == Room(old(socket.outgoing)) - |data|
              && SendStop(socket.outgoing) == SendStop(old(socket.outgoing))
  {
    var totalSent: nat := 0;
    ghost var room, stop := Room(socket.outgoing), SendStop(socket.outgoing);
    while totalSent < |data|
      invariant totalSent <= |data|
      invariant socket.wire == old(socket.wire) + data[..totalSent]
      invariant totalSent + Room(socket.outgoing) == room && SendStop(socket.outgoing) == stop
      decreases |data| - totalSent, |socket.outgoing|
    {
      var sent := socket.Send(data[totalSent..]);
      if sent.Sent? && sent.count > 0 {
        TakeMore(data, totalSent, sent.count);
        AppendAssociates(old(socket.wire), data[..totalSent], data[totalSent..][..sent.count]);
        totalSent := totalSent + sent.count;
        continue;
      }
      if sent.Sent? {
        return IoResult(Error, totalSent, EPIPE);
      }
      if sent.errno == EINTR {
        continue;
      }
      if sent.errno == EAGAIN {
        return IoResult(WouldBlock, totalSent, sent.errno);
      }
      return IoResult(Error, totalSent, sent.errno);
    }
    return IoResult(Completed, totalSent, 0);
  }

  /** Fills `buffer` with what arrives, and says what stopped it short; what it
      does not fill it leaves alone, and what it does not take is still to come. */
  method ReceiveExact(socket: Socket, buffer: array<byte>) returns (r: IoResult)
    modifies socket`incoming, socket`received, buffer
    ensures r == if buffer.Length <= |Arriving(old(socket.incoming))| then IoResult(Completed, buffer.Length, 0)
                 else ReceiveCutShort(|Arriving(old(socket.incoming))|, RecvStop(old(socket.incoming)))
    ensures r.status == Completed <==> buffer.Length <= |Arriving(old(socket.incoming))|
    ensures r.status != Completed ==>
              var stop := RecvStop(old(socket.incoming));
              && (r.status == PeerClosed <==> stop == End)
              && (r.status == WouldBlock <==> stop == Failed(EAGAIN))
              && (r.status == Error <==> stop.Failed? && stop.errno != EAGAIN)
              && r.errorNumber == if stop.Failed? then stop.errno else 0
    ensures r.status == Completed ==> r.errorNumber == 0
    ensures r.bytesTransferred <= buffer.Length
    ensures Arriving(old(socket.incoming)) ==
            buffer[..r.bytesTransferred] + (if r.status == Completed then Arriving(socket.incoming) else [])
    ensures socket.received == old(socket.received) + buffer[..r.bytesTransferred]
    ensures forall i :: r.bytesTransferred <= i < buffer.Length ==> buffer[i] == old(buffer[i])
    ensures r.status == Completed ==> RecvStop(socket.incoming) == RecvStop(old(socket.incoming))
  {
    var totalReceived: nat := 0;
    ghost var got: Bytes, arriving, stop := [], Arriving(socket.incoming), RecvStop(socket.incoming);
    while totalReceived < buffer.Length
      invariant totalReceived <= buffer.Length && got == buffer[..totalReceived]
      invariant socket.received == old(socket.received) + got
      invariant arriving == got + Arriving(socket.incoming) && RecvStop(socket.incoming) == stop
      invariant forall i :: totalReceived <= i < buffer.Length ==> buffer[i] == old(buffer[i])
      decreases Budget(socket.incoming)
    {
      var outcome := socket.Recv(buffer.Length - totalReceived);
      match outcome
      case Data(bytes) =>
        Fill(buffer, totalReceived, bytes);
        AppendAssociates(got, bytes, Arriving(socket.incoming));
        AppendAssociates(old(socket.received), got, bytes);
        got := got + bytes;
        totalReceived := totalReceived + |bytes|;
      case End =>
        return IoResult(PeerClosed, totalReceived, 0);
      case Failed(errno) =>
        if errno == EINTR {
          continue;
        }
        if errno == EAGAIN {
          return IoResult(WouldBlock, totalReceived, errno);
        }
        return IoResult(Error, totalReceived, errno);
    }
    return IoResult(Completed, totalReceived, 0);
  }

  /** The bytes recv stores at `buffer + at`. */
  method Fill(buffer: array<byte>, at: nat, bytes: Bytes)
    requires at + |bytes| <= buffer.Length
    modifies buffer
    ensures buffer[..at + |bytes|] == old(buffer[..at]) + bytes
    ensures forall i :: at + |bytes| <= i < buffer.Length ==> buffer[i] == old(buffer[i])
  {
    forall i | 0 <= i < |bytes| {
      buffer[at + i] := bytes[i];
    }
  }
}
