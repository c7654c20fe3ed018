/** The blocking form of the wire format, src/protocol/frame.cpp. */
module Frame {
  import opened Wire
  import opened Kernel
  import opened Io

  datatype FrameStatus = FrameCompleted | FramePeerClosed | FrameWouldBlock | FrameTooLarge | FrameIoError

  datatype SendFrameResult = SendFrameResult(status: FrameStatus, bytesTransferred: nat, errorNumber: int)

  datatype ReceiveFrameResult =
    ReceiveFrameResult(status: FrameStatus, payload: Bytes, bytesTransferred: nat, errorNumber: int)

  function ToFrameStatus(status: IoStatus): (r: FrameStatus)
    ensures r == FrameCompleted <==> status == Completed
    ensures r == FramePeerClosed <==> status == PeerClosed
    ensures r == FrameWouldBlock <==> status == WouldBlock
    ensures r == FrameIoError <==> status == Error
  {
    match status
    case Completed => FrameCompleted
    case PeerClosed => FramePeerClosed
    case WouldBlock => FrameWouldBlock
    case Error => FrameIoError
  }

  /** Sends as much of the payload's encoding as the socket has room for: two
      transfers end like one. */
  method SendFrame(socket: Socket, payload: Bytes) returns (r: SendFrameResult)
    modifies socket`outgoing, socket`wire
    ensures |payload| > MAX_PAYLOAD_SIZE ==>
              r == SendFrameResult(FrameTooLarge, 0, 0)
              && socket.wire == old(socket.wire) && socket.outgoing == old(socket.outgoing)
    ensures |payload| <= MAX_PAYLOAD_SIZE ==>
              var frame, room := Encode(payload), Room(old(socket.outgoing));
              && r.bytesTransferred == Min(room, |frame|)
              && socket.wire == old(socket.wire) + frame[..r.bytesTransferred]
              && if |frame| <= room then r == SendFrameResult(FrameCompleted, |frame|, 0)
                 else
                   var end := CutShort(room, SendStop(old(socket.outgoing)));
                   r == SendFrameResult(ToFrameStatus(end.status), room, end.errorNumber)
    ensures |payload| <= MAX_PAYLOAD_SIZE ==>
              var room, stop := Room(old(socket.outgoing)), SendStop(old(socket.outgoing));
              var whole := HEADER_SIZE + |payload| <= room;
              && (r.status == FrameCompleted <==> whole)
              && (r.status == FrameWouldBlock <==> !whole && stop == EAGAIN)
              && (r.status == FrameIoError <==> !whole && stop != EAGAIN)
              && r.errorNumber == if whole then 0 else stop
  {
    if |payload| > MAX_PAYLOAD_SIZE {
      return SendFrameResult(FrameTooLarge, 0, 0);
    }
    var header := Header(|payload|);
    var headerResult := SendAll(socket, header);
    if headerResult.status != Completed {
      assert Encode(payload)[..headerResult.bytesTransferred] == header[..headerResult.bytesTransferred];
      return SendFrameResult(ToFrameStatus(headerResult.status), headerResult.bytesTransferred,
                             headerResult.errorNumber);
    }
    var payloadResult := SendAll(socket, payload);
    assert Encode(payload)[..HEADER_SIZE + payloadResult.bytesTransferred] ==
           header[..HEADER_SIZE] + payload[..payloadResult.bytesTransferred];
    return SendFrameResult(ToFrameStatus(payloadResult.status),
                           headerResult.bytesTransferred + payloadResult.bytesTransferred,
                           payloadResult.errorNumber);
  }

  /** What a receive leaves in the payload vector, which starts out zeroed. */
  ghost predicate PartialPayload(payload: Bytes, arrived: Bytes) {
    if |arrived| < HEADER_SIZE then payload == []
    else
      && |payload| == BigEndian(arrived[..HEADER_SIZE]) >= |arrived| - HEADER_SIZE
      && payload[..|arrived| - HEADER_SIZE] == arrived[HEADER_SIZE..]
      && forall i :: |arrived| - HEADER_SIZE <= i < |payload| ==> payload[i] == 0
  }

  /** How a receive ends when `arriving` are all bytes that come before `stop`;
      the decision is the one the incremental decoder makes on them. */
  ghost predicate ReceiveSpec(arriving: Bytes, stop: RecvOutcome, r: ReceiveFrameResult, taken: Bytes)
    requires !stop.Data?
  {
    match FirstFrame(arriving)
    case FrameReady(p) => taken == Encode(p) <= arriving && r == ReceiveFrameResult(FrameCompleted, p, |taken|, 0)
    case PayloadTooLarge =>
      taken == arriving[..HEADER_SIZE] && r == ReceiveFrameResult(FrameTooLarge, [], HEADER_SIZE, 0)
    case NeedMoreData =>
      var end := ReceiveCutShort(|arriving|, stop);
      && taken == arriving
      && r.status == ToFrameStatus(end.status) && r.bytesTransferred == |arriving|
      && r.errorNumber == end.errorNumber && PartialPayload(r.payload, arriving)
  }

  lemma HeaderFirst(h: Bytes, rest: Bytes)
    requires |h| == HEADER_SIZE
    ensures (h + rest)[..HEADER_SIZE] == h && (h + rest)[HEADER_SIZE..] == rest
  {
  }

  lemma PayloadArrived(h: Bytes, payload: Bytes, rest: Bytes)
    requires |h| == HEADER_SIZE && |payload| == BigEndian(h) <= MAX_PAYLOAD_SIZE
    ensures h + payload == Encode(payload) <= h + (payload + rest)
    ensures FirstFrame(h + (payload + rest)) == FrameReady(payload)
  {
    HeaderOfBigEndian(h);
    AppendAssociates(h, payload, rest);
    FirstFrameIffEncoded(h + (payload + rest), payload);
  }

  lemma PayloadPartial(h: Bytes, payload: Bytes, tail: Bytes)
    requires |h| == HEADER_SIZE && |tail| < |payload| == BigEndian(h) <= MAX_PAYLOAD_SIZE
    requires tail == payload[..|tail|] && forall i :: |tail| <= i < |payload| ==> payload[i] == 0
    ensures FirstFrame(h + tail) == NeedMoreData && PartialPayload(payload, h + tail)
  {
    HeaderFirst(h, tail);
  }

  /** Takes at most one frame off the stream. */
  method ReceiveFrame(socket: Socket) returns (r: ReceiveFrameResult, ghost taken: Bytes)
    modifies socket`incoming, socket`received
    ensures socket.received == old(socket.received) + taken
    ensures ReceiveSpec(Arriving(old(socket.incoming)), RecvStop(old(socket.incoming)), r, taken)
    ensures r.status == FrameCompleted ==> Arriving(old(socket.incoming)) == taken + Arriving(socket.incoming)
    ensures FirstFrame(Arriving(old(socket.incoming))) == NeedMoreData ==>
              var stop := RecvStop(old(socket.incoming));
              && (r.status == FramePeerClosed <==> stop == End)
              && (r.status == FrameWouldBlock <==> stop == Failed(EAGAIN))
              && (r.status == FrameIoError <==> stop.Failed? && stop.errno != EAGAIN)
              && r.errorNumber == if stop.Failed? then stop.errno else 0
    ensures FirstFrame(Arriving(old(socket.incoming))) == PayloadTooLarge ==>
              r == ReceiveFrameResult(FrameTooLarge, [], HEADER_SIZE, 0)
              && taken == Arriving(old(socket.incoming))[..HEADER_SIZE]
    ensures FirstFrame(Arriving(old(socket.incoming))).FrameReady? ==>
              r.status == FrameCompleted && r.errorNumber == 0 && |r.payload| <= MAX_PAYLOAD_SIZE
              && r.bytesTransferred == |taken| && taken == Encode(r.payload)
  {
    var header := new byte[HEADER_SIZE];
    var headerResult := ReceiveExact(socket, header);
    taken := header[..headerResult.bytesTransferred];
    if headerResult.status != Completed {
      AppendEmpty(taken);
      r := ReceiveFrameResult(ToFrameStatus(headerResult.status), [], headerResult.bytesTransferred,
                              headerResult.errorNumber);
      return;
    }
    ghost var h := taken;
    assert header[..] == h;
    HeaderFirst(h, Arriving(socket.incoming));
    var payloadSize := BigEndian(header[..]);
    if payloadSize > MAX_PAYLOAD_SIZE {
      r := ReceiveFrameResult(FrameTooLarge, [], HEADER_SIZE, 0);
      return;
    }
    var payload, payloadResult, tail := ReceivePayload(socket, payloadSize);
    AppendAssociates(old(socket.received), h, tail);
    taken := h + tail;
    r := ReceiveFrameResult(ToFrameStatus(payloadResult.status), payload,
                            headerResult.bytesTransferred + payloadResult.bytesTransferred,
                            payloadResult.errorNumber);
    if payloadResult.status == Completed {
      PayloadArrived(h, payload, Arriving(socket.incoming));
      AppendAssociates(h, payload, Arriving(socket.incoming));
    } else {
      PayloadPartial(h, payload, tail);
    }
  }

  /** The second half: `size` bytes into a zeroed vector. */
  method ReceivePayload(socket: Socket, size: nat) returns (payload: Bytes, r: IoResult, ghost tail: Bytes)
    modifies socket`incoming, socket`received
    ensures socket.received == old(socket.received) + tail
    ensures |payload| == size
    ensures var arriving := Arriving(old(socket.incoming));
            if size <= |arriving|
            then r == IoResult(Completed, size, 0) && payload == tail && arriving == tail + Arriving(socket.incoming)
            else r == ReceiveCutShort(|arriving|, RecvStop(old(socket.incoming)))
                 && tail == arriving == payload[..|arriving|]
                 && forall i :: |arriving| <= i < size ==> payload[i] == 0
  {
    var vector := new byte[size](_ => 0);
    r := ReceiveExact(socket, vector);
    payload, tail := vector[..], vector[..r.bytesTransferred];
    AppendEmpty(tail);
  }
}
