/** One client connection, src/server/connection.cpp: a socket with a parser on
    its input and a printer on its output.
 */
module Connections {
  import opened Wire
  import opened Kernel
  import opened FrameDecoding
  import opened FrameWriting

  const READ_BUFFER_SIZE: nat := 4096

  /** The most bytes a decoder ever holds while its input is well formed. */
  const DECODER_LIMIT: nat := 2 * (MAX_PAYLOAD_SIZE + HEADER_SIZE - 1) + READ_BUFFER_SIZE

  datatype ReadStatus = ReadReady | ReadPeerClosed | ReadProtocolError | ReadIoError
  datatype ReadResult = ReadResult(status: ReadStatus, frames: seq<Payload>, errorNumber: int)

  /** What `ReadAvailable` may do to a connection holding `unread` undecoded
      bytes when the kernel hands it `bytes`, in whatever pieces. */
  ghost predicate ReadSpec(unread: Bytes, bytes: Bytes, status: ReadStatus, frames: seq<Payload>, left: Bytes) {
    && Parse(unread + bytes) == Parsed(frames, left)
    && (status == ReadProtocolError <==> bytes != [] && FirstFrame(left) == PayloadTooLarge)
  }

  /** How a read ends on an outcome that is neither data nor EINTR. */
  function ReadEnd(stop: RecvOutcome, frames: seq<Payload>): ReadResult
    requires !Passes(stop)
  {
    match stop
    case End => ReadResult(ReadPeerClosed, frames, 0)
    case Failed(errno) =>
      if errno == EAGAIN then ReadResult(ReadReady, frames, 0) else ReadResult(ReadIoError, frames, errno)
  }

  ghost predicate Broken(unread: Bytes) {
    FirstFrame(Parse(unread).rest) == PayloadTooLarge
  }

  /** The last chunk of `bytes` is the first behind which the stream is broken. */
  ghost predicate Exposed(unread: Bytes, bytes: Bytes) {
    exists before: Bytes :: before < bytes && |bytes| <= |before| + READ_BUFFER_SIZE
                            && Broken(unread + bytes) && (before == [] || !Broken(unread + before))
  }

  /** The whole of a read, when `arriving` is what the kernel holds in front of
      `stop`: it takes all of it, and ends as `stop` says, unless the stream is
      broken; then it takes no chunk beyond the one that shows it. */
  ghost predicate ReadsAll(unread: Bytes, arriving: Bytes, stop: RecvOutcome, r: ReadResult, bytes: Bytes)
    requires !Passes(stop)
  {
    var frames := Parse(unread + arriving).frames;
    if arriving != [] && Broken(unread + arriving)
    then r == ReadResult(ReadProtocolError, frames, 0) && bytes <= arriving && Exposed(unread, bytes)
    else r == ReadEnd(stop, frames) && bytes == arriving
  }

  /** Where a read is that has taken `bytes` and has `coming` in front of it. */
  ghost predicate Reading(unread: Bytes, arriving: Bytes, bytes: Bytes, coming: Bytes, got: seq<Payload>, left: Bytes) {
    && arriving == bytes + coming
    && Parse(unread + bytes) == Parsed(got, left)
    && (bytes == [] ==> left == unread)
    && (FirstFrame(left) != NeedMoreData ==> bytes == [])
  }

  class Connection {
    const socket: Socket
    const decoder: FrameDecoder
    const writeBuffer: FrameWriteBuffer

    ghost var frames: seq<Payload> // every frame returned so far
    ghost var queued: seq<Payload> // every payload accepted so far

    /** The frames returned are the parse of the bytes received. */
    ghost predicate ValidInput()
      reads this`frames, socket`received, decoder
    {
      decoder.Valid() && Parse(socket.received) == Parsed(frames, decoder.Unread())
    }

    /** The bytes sent and still pending are the encoding of the payloads accepted. */
    ghost predicate ValidOutput()
      reads this`queued, socket`wire, writeBuffer
    {
      writeBuffer.Valid() && socket.wire + writeBuffer.Pending() == EncodeAll(queued)
    }

    ghost predicate Valid()
      reads this, socket, decoder, writeBuffer
    {
      ValidInput() && ValidOutput()
    }

    constructor (incoming: seq<RecvOutcome>, outgoing: seq<SendReadiness>)
      ensures Valid() && fresh(socket) && fresh(decoder) && fresh(writeBuffer)
      ensures frames == [] && queued == [] && decoder.peak == 0
    {
      socket := new Socket(incoming, outgoing);
      decoder := new FrameDecoder();
      writeBuffer := new FrameWriteBuffer();
      frames, queued := [], [];
    }

    method ReadAvailable() returns (r: ReadResult, ghost bytes: Bytes)
      requires Valid()
      modifies this`frames, decoder, socket`incoming, socket`received
      ensures Valid() && frames == old(frames) + r.frames
      ensures socket.received == old(socket.received) + bytes
      ensures ReadSpec(old(decoder.Unread()), bytes, r.status, r.frames, decoder.Unread())
      ensures ReadsAll(old(decoder.Unread()), Arriving(old(socket.incoming)), RecvStop(old(socket.incoming)), r, bytes)
      ensures r.status == ReadProtocolError <==>
                var arriving := Arriving(old(socket.incoming));
                arriving != [] && FirstFrame(Parse(old(decoder.Unread()) + arriving).rest) == PayloadTooLarge
      ensures r.frames == Parse(old(decoder.Unread()) + Arriving(old(socket.incoming))).frames
      ensures bytes <= Arriving(old(socket.incoming))
      ensures r.status != ReadProtocolError ==>
                var stop := RecvStop(old(socket.incoming));
                && bytes == Arriving(old(socket.incoming))
                && (r.status == ReadPeerClosed <==> stop == End)
                && (r.status == ReadReady <==> stop == Failed(EAGAIN))
                && (r.status == ReadIoError <==> stop.Failed? && stop.errno != EAGAIN)
      ensures r.errorNumber == if r.status == ReadIoError then RecvStop(old(socket.incoming)).errno else 0
      ensures FirstFrame(old(decoder.Unread())) != PayloadTooLarge && old(decoder.peak) <= DECODER_LIMIT
              ==> decoder.peak <= DECODER_LIMIT
    {
      ghost var start := decoder.Unread();
      ReadNothing(socket.received, frames, start);
      r, bytes := ReadChunks();
      ReceivedParse(old(socket.received), bytes, frames, r.frames, start, decoder.Unread());
      frames := frames + r.frames;
    }

    /** The loop: reads until the socket has no more, decoding as it goes. */
    method ReadChunks() returns (r: ReadResult, ghost bytes: Bytes)
      requires decoder.Valid() && Parse(decoder.Unread() + []) == Parsed([], decoder.Unread())
      modifies decoder, socket`incoming, socket`received
      ensures decoder.Valid()
      ensures socket.received == old(socket.received) + bytes
      ensures ReadSpec(old(decoder.Unread()), bytes, r.status, r.frames, decoder.Unread())
      ensures ReadsAll(old(decoder.Unread()), Arriving(old(socket.incoming)), RecvStop(old(socket.incoming)), r, bytes)
      ensures FirstFrame(old(decoder.Unread())) != PayloadTooLarge && old(decoder.peak) <= DECODER_LIMIT
              ==> decoder.peak <= DECODER_LIMIT
    {
      ghost var start := decoder.Unread();
      ghost var arriving, stop := Arriving(socket.incoming), RecvStop(socket.incoming);
      bytes := [];
      var got: seq<Payload> := [];
      AppendEmpty(socket.received);
      AppendEmpty(arriving);
      while true
        invariant decoder.Valid()
        invariant socket.received == old(socket.received) + bytes
        invariant Reading(start, arriving, bytes, Arriving(socket.incoming), got, decoder.Unread())
        invariant RecvStop(socket.incoming) == stop
        invariant FirstFrame(start) != PayloadTooLarge && old(decoder.peak) <= DECODER_LIMIT
                  ==> decoder.peak <= DECODER_LIMIT
        decreases Budget(socket.incoming)
      {
        ghost var held := decoder.Unread();
        var received := socket.Recv(READ_BUFFER_SIZE);
        match received
        case Data(chunk) =>
          var outcome, more := Decode(chunk);
          ReadingOn(start, arriving, bytes, chunk, Arriving(socket.incoming), got, held, more, decoder.Unread(), stop);
          AppendAssociates(old(socket.received), bytes, chunk);
          got, bytes := got + more, bytes + chunk;
          if outcome == PayloadTooLarge {
            return ReadResult(ReadProtocolError, got, 0), bytes;
          }
        case End =>
          ReadingDone(start, arriving, bytes, got, held, stop);
          return ReadResult(ReadPeerClosed, got, 0), bytes;
        case Failed(errno) =>
          if errno == EINTR {
            continue;
          }
          ReadingDone(start, arriving, bytes, got, held, stop);
          if errno == EAGAIN {
            return ReadResult(ReadReady, got, 0), bytes;
          }
          return ReadResult(ReadIoError, got, errno), bytes;
      }
    }

    /** Appends one received chunk and decodes until no frame is complete. */
    method Decode(chunk: Chunk) returns (outcome: DecodeOutcome, got: seq<Payload>)
      requires decoder.Valid()
      requires |chunk| <= READ_BUFFER_SIZE
      modifies decoder
      ensures decoder.Valid()
      ensures Parse(old(decoder.Unread()) + chunk) == Parsed(got, decoder.Unread())
      ensures outcome == FirstFrame(decoder.Unread()) && !outcome.FrameReady?
      ensures FirstFrame(old(decoder.Unread())) == NeedMoreData && old(decoder.peak) <= DECODER_LIMIT
              ==> decoder.peak <= DECODER_LIMIT
    {
      got := [];
      decoder.Append(chunk);
      ghost var start, peak := decoder.Unread(), decoder.peak;
      AppendEmpty(Parse(start).frames);
      while true
        invariant decoder.Valid() && decoder.peak == peak
        invariant Parse(start).frames == got + Parse(decoder.Unread()).frames
        invariant Parse(start).rest == Parse(decoder.Unread()).rest
        decreases |decoder.Unread()|
      {
        outcome := decoder.DecodeNext();
        if outcome.FrameReady? {
          ParseOfEncodingFirst(outcome.payload, decoder.Unread());
          AppendAssociates(got, [outcome.payload], Parse(decoder.Unread()).frames);
          got := got + [outcome.payload];
          continue;
        }
        AppendEmpty(got);
        return;
      }
    }

    method QueueFrame(payload: Bytes) returns (status: QueueStatus)
      requires Valid()
      modifies this`queued, writeBuffer
      ensures Valid()
      ensures status == Queued <==> |payload| <= MAX_PAYLOAD_SIZE
      ensures queued == old(queued) + (if status == Queued then [payload] else [])
      ensures status != Queued ==> writeBuffer.Pending() == old(writeBuffer.Pending())
    {
      ghost var pending := writeBuffer.Pending();
      status := writeBuffer.Enqueue(payload);
      if status == Queued {
        EncodeAllSnoc(queued, payload);
        AppendAssociates(socket.wire, pending, Encode(payload));
        queued := queued + [payload];
      } else {
        AppendEmpty(pending);
        AppendEmpty(queued);
      }
    }

    method FlushWrites() returns (r: FlushResult, ghost taken: Bytes)
      requires Valid()
      modifies writeBuffer, socket`outgoing, socket`wire
      ensures Valid()
      ensures r == FlushOutcome(old(|writeBuffer.Pending()|), Room(old(socket.outgoing)),
                                SendStop(old(socket.outgoing)))
      ensures r.bytesTransferred == Min(old(|writeBuffer.Pending()|), Room(old(socket.outgoing)))
      ensures r.status == Drained <==> old(|writeBuffer.Pending()|) <= Room(old(socket.outgoing))
      ensures r.status == FlushWouldBlock <==>
                Room(old(socket.outgoing)) < old(|writeBuffer.Pending()|) && SendStop(old(socket.outgoing)) == EAGAIN
      ensures r.status == FlushError <==>
                Room(old(socket.outgoing)) < old(|writeBuffer.Pending()|) && SendStop(old(socket.outgoing)) != EAGAIN
      ensures r.errorNumber == if r.status == Drained then 0 else SendStop(old(socket.outgoing))
      ensures old(writeBuffer.Pending()) == taken + writeBuffer.Pending() && |taken| == r.bytesTransferred
      ensures socket.wire == old(socket.wire) + taken
    {
      r, taken := writeBuffer.Flush(socket);
      AppendAssociates(old(socket.wire), taken, writeBuffer.Pending());
    }

    predicate WantsWrite()
      requires writeBuffer.Valid()
      reads this, writeBuffer
      ensures WantsWrite() <==> writeBuffer.Pending() != []
    {
      !writeBuffer.Empty()
    }
  }

  lemma ReadNothing(received: Bytes, frames: seq<Payload>, unread: Bytes)
    requires Parse(received) == Parsed(frames, unread)
    ensures Parse(unread + []) == Parsed([], unread) && received + [] == received
  {
    ParseSound(received);
    AppendEmpty(unread);
    AppendEmpty(received);
  }

  /** Decoding a longer input is decoding what was left, with the new bytes. */
  lemma AppendedInput(start: Bytes, seen: Bytes, chunk: Bytes, got: seq<Payload>, held: Bytes)
    requires Parse(start + seen) == Parsed(got, held)
    ensures Parse(start + (seen + chunk)) == Parsed(got + Parse(held + chunk).frames, Parse(held + chunk).rest)
  {
    AppendAssociates(start, seen, chunk);
    ParseAppend(start + seen, chunk);
  }

  /** One more chunk: either the read goes on, or it has shown a broken stream,
      and then nothing behind the chunk matters. */
  lemma ReadingOn(unread: Bytes, arriving: Bytes, bytes: Bytes, chunk: Chunk, rest: Bytes,
                  got: seq<Payload>, held: Bytes, more: seq<Payload>, left: Bytes, stop: RecvOutcome)
    requires Reading(unread, arriving, bytes, chunk + rest, got, held) && !Passes(stop)
    requires Parse(held + chunk) == Parsed(more, left) && |chunk| <= READ_BUFFER_SIZE
    ensures Parse(unread + (bytes + chunk)) == Parsed(got + more, left)
    ensures FirstFrame(left) == PayloadTooLarge ==>
              ReadsAll(unread, arriving, stop, ReadResult(ReadProtocolError, got + more, 0), bytes + chunk)
    ensures FirstFrame(left) != PayloadTooLarge ==> Reading(unread, arriving, bytes + chunk, rest, got + more, left)
  {
    AppendedInput(unread, bytes, chunk, got, held);
    AppendAssociates(bytes, chunk, rest);
    ParseSound(held + chunk);
    if FirstFrame(left) == PayloadTooLarge {
      AppendAssociates(unread, bytes + chunk, rest);
      TooLargeIsFinal(unread + (bytes + chunk), rest);
      assert bytes < bytes + chunk && Exposed(unread, bytes + chunk);
    }
  }

  lemma ReadingDone(unread: Bytes, arriving: Bytes, bytes: Bytes, got: seq<Payload>, left: Bytes, stop: RecvOutcome)
    requires Reading(unread, arriving, bytes, [], got, left) && !Passes(stop)
    ensures ReadsAll(unread, arriving, stop, ReadEnd(stop, got), bytes)
  {
    AppendEmpty(bytes);
  }

  /** The parse of all bytes received, from the parse of those of one call. */
  lemma ReceivedParse(before: Bytes, bytes: Bytes, frames: seq<Payload>, got: seq<Payload>, start: Bytes, left: Bytes)
    requires Parse(before) == Parsed(frames, start)
    requires Parse(start + bytes) == Parsed(got, left)
    ensures Parse(before + bytes) == Parsed(frames + got, left)
  {
    ParseAppend(before, bytes);
  }

  /** Any re-chunking of what one connection sent, however far it got, gives the
      other end a prefix of the payloads queued, and all of them once everything
      queued has been sent and read. The reader never sees a protocol error. */
  lemma PeersAgree(writer: Connection, reader: Connection)
    requires writer.Valid() && reader.Valid()
    requires reader.socket.received <= writer.socket.wire
    ensures reader.frames <= writer.queued
    ensures FirstFrame(reader.decoder.Unread()) == NeedMoreData
    ensures reader.socket.received == writer.socket.wire && writer.writeBuffer.Pending() == []
            <==> reader.frames == writer.queued && reader.decoder.Unread() == []
  {
    var all := EncodeAll(writer.queued);
    assert writer.socket.wire <= all;
    PrefixDecodesToPrefix(reader.socket.received, writer.queued);
    if writer.writeBuffer.Pending() == [] {
      assert writer.socket.wire == all;
    }
    if reader.frames == writer.queued && reader.decoder.Unread() == [] {
      assert |all| == |writer.socket.wire| + |writer.writeBuffer.Pending()|;
    }
  }

  /** After an oversized header no call ever returns a frame again, and a call
      reports the protocol error exactly when it receives something. */
  lemma ProtocolErrorIsFinal(unread: Bytes, bytes: Bytes, status: ReadStatus, frames: seq<Payload>, left: Bytes)
    requires FirstFrame(unread) == PayloadTooLarge
    requires ReadSpec(unread, bytes, status, frames, left)
    ensures frames == [] && FirstFrame(left) == PayloadTooLarge
    ensures status == ReadProtocolError <==> bytes != []
    ensures left == unread + bytes
  {
    TooLargeIsFinal(unread, bytes);
  }

  /** Cutting the same bytes at another place, or reading them in one call or
      in two, returns the same frames and leaves the same bytes. */
  lemma ChunkingIndependent(unread: Bytes, a: Bytes, b: Bytes,
                            s1: ReadStatus, f1: seq<Payload>, l1: Bytes,
                            s2: ReadStatus, f2: seq<Payload>, l2: Bytes,
                            s: ReadStatus, f: seq<Payload>, l: Bytes)
    requires ReadSpec(unread, a, s1, f1, l1)
    requires ReadSpec(l1, b, s2, f2, l2)
    requires ReadSpec(unread, a + b, s, f, l)
    ensures f == f1 + f2 && l == l2
    ensures b != [] ==> (s == ReadProtocolError <==> s2 == ReadProtocolError)
  {
    AppendAssociates(unread, a, b);
    ParseAppend(unread + a, b);
  }

  // ------------------------------------------- how much a decoder comes to hold

  /** The most undecoded bytes a call leaves behind while the stream is well formed. */
  const UNREAD_LIMIT: nat := MAX_PAYLOAD_SIZE + HEADER_SIZE - 1 + READ_BUFFER_SIZE

  function Left(unread: Bytes, bytes: Bytes): Bytes {
    Parse(unread + bytes).rest
  }

  /** A read that the kernel can bring about by handing over `bytes`. */
  ghost predicate IsCall(unread: Bytes, bytes: Bytes) {
    bytes != [] && Broken(unread + bytes) ==> Exposed(unread, bytes)
  }

  /** Several reads, each but the first made on a stream that is broken if and
      only if it was before the first: a caller that stops at the protocol error,
      or one that does not. */
  ghost predicate AreCalls(unread: Bytes, calls: seq<Bytes>)
    decreases |calls|
  {
    calls == []
    || (&& IsCall(unread, calls[0])
        && (|calls| > 1 ==> FirstFrame(Left(unread, calls[0])) == FirstFrame(unread))
        && AreCalls(Left(unread, calls[0]), calls[1..]))
  }

  ghost function AfterCalls(unread: Bytes, calls: seq<Bytes>): Bytes
    decreases |calls|
  {
    if calls == [] then unread else AfterCalls(Left(unread, calls[0]), calls[1..])
  }

  /** Every read of a `Connection` is such a call. */
  lemma ReadIsCall(unread: Bytes, arriving: Bytes, stop: RecvOutcome, r: ReadResult, bytes: Bytes, left: Bytes)
    requires !Passes(stop)
    requires ReadSpec(unread, bytes, r.status, r.frames, left) && ReadsAll(unread, arriving, stop, r, bytes)
    ensures IsCall(unread, bytes) && left == Left(unread, bytes)
  {
  }

  lemma RestIsShorter(b: Bytes)
    ensures |Parse(b).rest| <= |b|
    ensures FirstFrame(Parse(b).rest) == NeedMoreData || FirstFrame(Parse(b).rest) == PayloadTooLarge
    ensures FirstFrame(b) == NeedMoreData ==> |b| < MAX_PAYLOAD_SIZE + HEADER_SIZE
  {
    ParseSound(b);
  }

  lemma ChunkLeft(unread: Bytes, before: Bytes, chunk: Bytes)
    requires FirstFrame(Left(unread, before)) == NeedMoreData && |chunk| <= READ_BUFFER_SIZE
    ensures |Left(unread, before + chunk)| <= UNREAD_LIMIT
  {
    AppendAssociates(unread, before, chunk);
    ParseAppend(unread + before, chunk);
    RestIsShorter(Left(unread, before));
    RestIsShorter(Left(unread, before) + chunk);
  }

  lemma LeftBounded(unread: Bytes, bytes: Bytes)
    requires FirstFrame(unread) == NeedMoreData && IsCall(unread, bytes)
    ensures |Left(unread, bytes)| <= UNREAD_LIMIT
    ensures FirstFrame(Left(unread, bytes)) == NeedMoreData || FirstFrame(Left(unread, bytes)) == PayloadTooLarge
  {
    RestIsShorter(unread + bytes);
    if Broken(unread + bytes) {
      AppendEmpty(unread);
      var before: Bytes :| before < bytes && |bytes| <= |before| + READ_BUFFER_SIZE
                           && (before == [] || !Broken(unread + before));
      RestIsShorter(unread + before);
      ChunkLeft(unread, before, bytes[|before|..]);
      assert bytes == before + bytes[|before|..];
    } else {
      RestIsShorter(Left(unread, bytes));
    }
  }

  lemma {:induction false} CallsBounded(unread: Bytes, calls: seq<Bytes>)
    requires FirstFrame(unread) == NeedMoreData && AreCalls(unread, calls)
    ensures |AfterCalls(unread, calls)| <= UNREAD_LIMIT
    decreases |calls|
  {
    if calls != [] {
      LeftBounded(unread, calls[0]);
      if |calls| > 1 {
        CallsBounded(Left(unread, calls[0]), calls[1..]);
      }
    }
  }

  /** One byte for each call is enough: none of them is ever given up. */
  lemma {:induction false} CallsUnbounded(unread: Bytes, limit: nat) returns (calls: seq<Bytes>)
    requires FirstFrame(unread) == PayloadTooLarge
    ensures AreCalls(unread, calls) && |AfterCalls(unread, calls)| > limit
    decreases if limit < |unread| then 0 else limit + 1 - |unread|
  {
    calls := [];
    if |unread| <= limit {
      TooLargeIsFinal(unread, [0]);
      assert [] < [0 as byte] && Exposed(unread, [0]);
      var rest := CallsUnbounded(unread + [0], limit);
      calls := [[0]] + rest;
      assert calls[1..] == rest;
    }
  }

  /** Between two reads no frame is complete. The undecoded bytes are bounded over
      all further reads exactly if the stream is well formed: the limit holds for
      every caller that stops at the protocol error, and no limit holds for one
      that reads on behind an oversized header. */
  lemma BoundedIffWellFormed(unread: Bytes, limit: nat)
    requires !FirstFrame(unread).FrameReady? && limit >= UNREAD_LIMIT
    ensures (forall calls: seq<Bytes> :: AreCalls(unread, calls) ==> |AfterCalls(unread, calls)| <= limit)
            <==> FirstFrame(unread) != PayloadTooLarge
  {
    if FirstFrame(unread) == PayloadTooLarge {
      var calls := CallsUnbounded(unread, limit);
    } else {
      forall calls: seq<Bytes> | AreCalls(unread, calls)
        ensures |AfterCalls(unread, calls)| <= limit
      {
        CallsBounded(unread, calls);
      }
    }
  }
}
