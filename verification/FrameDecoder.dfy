/** The incremental parser of src/protocol/frame_decoder.cpp. */
module FrameDecoding {
  import opened Wire

  const COMPACTION_THRESHOLD: nat := 4096

  class FrameDecoder {
    var buffer: Bytes
    var readOffset: nat

    ghost var consumed: nat // bytes of all frames decoded so far
    ghost var moved: nat    // bytes shifted by all erasures so far: what each leaves in the buffer
    ghost var peak: nat     // the largest size the buffer ever had

    /** The space bound and the amortised cost of compaction: every byte shifted
        is paid for by a consumed byte that is no longer in the buffer. */
    ghost predicate Valid()
      reads this
      ensures Valid() ==> |buffer| <= |buffer| - readOffset + (COMPACTION_THRESHOLD - 1)
                          || |buffer| < 2 * (|buffer| - readOffset)
      ensures Valid() ==> COMPACTION_THRESHOLD * moved <= (COMPACTION_THRESHOLD + 1) * consumed
    {
      && readOffset <= |buffer| <= peak
      && (readOffset < COMPACTION_THRESHOLD || readOffset < |buffer| / 2)
      && readOffset <= consumed
      && COMPACTION_THRESHOLD * moved <= (COMPACTION_THRESHOLD + 1) * (consumed - readOffset)
    }

    function Unread(): Bytes
      reads this
      requires readOffset <= |buffer|
    {
      buffer[readOffset..]
    }

    constructor ()
      ensures Valid() && Unread() == [] && peak == 0 && consumed == 0 && moved == 0
    {
      buffer, readOffset := [], 0;
      consumed, moved, peak := 0, 0, 0;
    }

    method Append(data: Bytes)
      requires Valid()
      modifies this
      ensures Valid() && Unread() == old(Unread()) + data
      ensures consumed == old(consumed) && moved == old(moved)
      ensures peak == if |buffer| > old(peak) then |buffer| else old(peak)
      ensures |buffer| == old(|buffer|) + |data|
    {
      buffer := buffer + data;
      if |buffer| > peak {
        peak := |buffer|;
      }
    }

    method DecodeNext() returns (r: DecodeOutcome)
      requires Valid()
      modifies this
      ensures Valid() && peak == old(peak)
      ensures r == FirstFrame(old(Unread()))
      ensures r.FrameReady? ==> old(Unread()) == Encode(r.payload) + Unread()
      ensures r.FrameReady? ==> consumed == old(consumed) + |Encode(r.payload)|
      ensures !r.FrameReady? ==> unchanged(this)
      ensures moved == old(moved) + (if |buffer| < old(|buffer|) then |buffer| else 0)
    {
      FirstFrameIsEncoded(Unread());
      if BufferedBytes() < HEADER_SIZE {
        return NeedMoreData;
      }
      assert Unread()[..HEADER_SIZE] == buffer[readOffset..readOffset + HEADER_SIZE];
      var payloadSize := BigEndian(buffer[readOffset..readOffset + HEADER_SIZE]);
      if payloadSize > MAX_PAYLOAD_SIZE {
        return PayloadTooLarge;
      }
      var completeFrameSize := HEADER_SIZE + payloadSize;
      if BufferedBytes() < completeFrameSize {
        return NeedMoreData;
      }
      var payload := buffer[readOffset + HEADER_SIZE..readOffset + completeFrameSize];
      assert payload == Unread()[HEADER_SIZE..completeFrameSize];
      ghost var before := Unread();
      readOffset := readOffset + completeFrameSize;
      consumed := consumed + completeFrameSize;
      assert Unread() == before[completeFrameSize..];
      Compact();
      return FrameReady(payload);
    }

    function BufferedBytes(): (n: nat)
      requires readOffset <= |buffer|
      reads this
      ensures n == |Unread()|
    {
      |buffer| - readOffset
    }

    method Clear()
      requires Valid()
      modifies this
      ensures Valid() && Unread() == []
      ensures consumed == old(consumed) && moved == old(moved) && peak == old(peak)
    {
      buffer, readOffset := [], 0;
    }

    /** Gives up the bytes before the read offset once they are at least a
        threshold and at least half of the buffer. */
    method Compact()
      requires readOffset <= |buffer| <= peak && readOffset <= consumed
      requires COMPACTION_THRESHOLD * moved <= (COMPACTION_THRESHOLD + 1) * (consumed - readOffset)
      modifies `buffer, `readOffset, `moved
      ensures Valid() && Unread() == old(Unread())
      ensures moved == old(moved) + (if |buffer| < old(|buffer|) then |buffer| else 0)
    {
      if readOffset == 0 {
        return;
      }
      if readOffset == |buffer| {
        buffer, readOffset := [], 0;
        return;
      }
      if readOffset >= COMPACTION_THRESHOLD && readOffset >= |buffer| / 2 {
        moved := moved + (|buffer| - readOffset);
        buffer := buffer[readOffset..];
        readOffset := 0;
      }
    }
  }
}
