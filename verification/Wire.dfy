/** The wire format: a 4-byte payload length in network byte order, then the
    payload, at most 2^20 bytes long.

    `Encode` and `Parse` are the specification every framing class is proved
    against; the lemmas say that they undo each other and that `Parse` does not
    depend on how a stream was cut into pieces.
 */
module Wire {
  newtype byte = x: int | 0 <= x < 256
  type Bytes = seq<byte>

  const HEADER_SIZE: nat := 4
  const MAX_PAYLOAD_SIZE: nat := 1024 * 1024

  type Payload = p: Bytes | |p| <= MAX_PAYLOAD_SIZE witness []

  /** What one attempt to decode a frame at the front of a buffer finds. */
  datatype DecodeOutcome = NeedMoreData | FrameReady(payload: Payload) | PayloadTooLarge

  /** A fully parsed stream: its frames in order, and the bytes behind them. */
  datatype Parsed = Parsed(frames: seq<Payload>, rest: Bytes)

  /** The number a sequence of bytes stands for when the first one weighs most. */
  function Value(h: Bytes): nat {
    if h == [] then 0 else 0x100 * Value(h[..|h| - 1]) + h[|h| - 1] as nat
  }

  /** The 32-bit length `n`, most significant byte first. */
  function Header(n: nat): (h: Bytes)
    requires n < 0x1_0000_0000
    ensures |h| == HEADER_SIZE
    ensures BigEndian(h) == n
    ensures h[0] as nat == n / 0x100_0000 && h[1] as nat == n / 0x1_0000 % 0x100
    ensures h[2] as nat == n / 0x100 % 0x100 && h[3] as nat == n % 0x100
  {
    var high, middle, low := n / 0x100 / 0x100 / 0x100, n / 0x100 / 0x100, n / 0x100;
    [high as byte, (middle % 0x100) as byte, (low % 0x100) as byte, (n % 0x100) as byte]
  }

  function BigEndian(h: Bytes): (n: nat)
    requires |h| == HEADER_SIZE
    ensures n < 0x1_0000_0000 && n == Value(h)
  {
    ValueOfFour(h);
    ((h[0] as nat * 0x100 + h[1] as nat) * 0x100 + h[2] as nat) * 0x100 + h[3] as nat
  }

  lemma ValueOfFour(h: Bytes)
    requires |h| == HEADER_SIZE
    ensures Value(h) == ((h[0] as nat * 0x100 + h[1] as nat) * 0x100 + h[2] as nat) * 0x100 + h[3] as nat
  {
    assert h[..3][..2] == h[..2] && h[..2][..1] == h[..1] && h[..1][..0] == [];
    assert Value(h[..1]) == h[0] as nat;
    assert Value(h[..2]) == 0x100 * Value(h[..1]) + h[1] as nat;
    assert Value(h[..3]) == 0x100 * Value(h[..2]) + h[2] as nat;
  }

  /** Every four bytes are the header of the number they stand for. */
  lemma HeaderOfBigEndian(h: Bytes)
    requires |h| == HEADER_SIZE
    ensures Value(h) < 0x1_0000_0000 && BigEndian(h) == Value(h)
    ensures Header(Value(h)) == h
  {
    var n := BigEndian(h);
    assert n / 0x100 == (h[0] as nat * 0x100 + h[1] as nat) * 0x100 + h[2] as nat;
    assert n / 0x100 / 0x100 == h[0] as nat * 0x100 + h[1] as nat;
  }

  function Encode(p: Payload): (b: Bytes)
    ensures |b| == HEADER_SIZE + |p|
    ensures Value(b[..HEADER_SIZE]) == |p| && b[HEADER_SIZE..] == p
  {
    Header(|p|) + p
  }

  function EncodeAll(ps: seq<Payload>): Bytes {
    if ps == [] then [] else Encode(ps[0]) + EncodeAll(ps[1..])
  }

  /** The decision made on the bytes at the front of a buffer. */
  function FirstFrame(b: Bytes): (r: DecodeOutcome)
    ensures r == PayloadTooLarge <==> |b| >= HEADER_SIZE && Value(b[..HEADER_SIZE]) > MAX_PAYLOAD_SIZE
    ensures r.FrameReady? ==> HEADER_SIZE + |r.payload| <= |b|
  {
    if |b| < HEADER_SIZE then NeedMoreData
    else
      var n := BigEndian(b[..HEADER_SIZE]);
      if n > MAX_PAYLOAD_SIZE then PayloadTooLarge
      else if |b| < HEADER_SIZE + n then NeedMoreData
      else FrameReady(b[HEADER_SIZE..HEADER_SIZE + n])
  }

  function Parse(b: Bytes): (r: Parsed)
    decreases |b|
  {
    match FirstFrame(b)
    case FrameReady(p) =>
      var tail := Parse(b[HEADER_SIZE + |p|..]);
      Parsed([p] + tail.frames, tail.rest)
    case _ => Parsed([], b)
  }

  /** Exactly the encodings decode to a frame, whatever follows them. */
  lemma FirstFrameIffEncoded(b: Bytes, p: Payload)
    ensures FirstFrame(b) == FrameReady(p) <==> Encode(p) <= b
  {
    if FirstFrame(b) == FrameReady(p) {
      HeaderOfBigEndian(b[..HEADER_SIZE]);
      assert b[..HEADER_SIZE + |p|] == b[..HEADER_SIZE] + b[HEADER_SIZE..HEADER_SIZE + |p|];
    }
    if Encode(p) <= b {
      assert b[..HEADER_SIZE] == Encode(p)[..HEADER_SIZE] == Header(|p|);
      assert b[HEADER_SIZE..HEADER_SIZE + |p|] == Encode(p)[HEADER_SIZE..] == p;
    }
  }

  lemma FirstFrameIsEncoded(b: Bytes)
    ensures FirstFrame(b).FrameReady? ==> Encode(FirstFrame(b).payload) == b[..HEADER_SIZE + |FirstFrame(b).payload|]
  {
    if FirstFrame(b).FrameReady? {
      FirstFrameIffEncoded(b, FirstFrame(b).payload);
    }
  }

  lemma ParseOfEncodingFirst(p: Payload, tail: Bytes)
    ensures Parse(Encode(p) + tail) == Parsed([p] + Parse(tail).frames, Parse(tail).rest)
  {
    FirstFrameIffEncoded(Encode(p) + tail, p);
    assert (Encode(p) + tail)[HEADER_SIZE + |p|..] == tail;
  }

  /** A decision to decode or to reject looks only at bytes already there. */
  lemma FirstFrameStable(a: Bytes, b: Bytes)
    requires FirstFrame(a) != NeedMoreData
    ensures FirstFrame(a + b) == FirstFrame(a)
  {
    assert (a + b)[..HEADER_SIZE] == a[..HEADER_SIZE];
    if FirstFrame(a).FrameReady? {
      var n := HEADER_SIZE + |FirstFrame(a).payload|;
      assert (a + b)[HEADER_SIZE..n] == a[HEADER_SIZE..n];
    }
  }

  /** Parsing resumes: what is already decided about a prefix stays decided. */
  lemma {:induction false} ParseAppend(a: Bytes, b: Bytes)
    ensures Parse(a + b) ==
            Parsed(Parse(a).frames + Parse(Parse(a).rest + b).frames, Parse(Parse(a).rest + b).rest)
    decreases |a|
  {
    if FirstFrame(a).FrameReady? {
      FirstFrameStable(a, b);
      var p := FirstFrame(a).payload;
      var t := a[HEADER_SIZE + |p|..];
      assert (a + b)[HEADER_SIZE + |p|..] == t + b;
      ParseAppend(t, b);
      AppendAssociates([p], Parse(t).frames, Parse(Parse(t).rest + b).frames);
    } else {
      AppendEmpty(Parse(a + b).frames);
    }
  }

  lemma AppendAssociates<T>(a: seq<T>, b: seq<T>, c: seq<T>)
    ensures a + (b + c) == a + b + c
  {
  }

  lemma AppendEmpty<T>(a: seq<T>)
    ensures [] + a == a == a + []
  {
  }

  /** Any input is the encodings of its frames followed by an undecodable rest. */
  lemma {:induction false} ParseSound(b: Bytes)
    ensures b == EncodeAll(Parse(b).frames) + Parse(b).rest
    ensures !FirstFrame(Parse(b).rest).FrameReady?
    decreases |b|
  {
    if FirstFrame(b).FrameReady? {
      var p := FirstFrame(b).payload;
      FirstFrameIffEncoded(b, p);
      var t := b[HEADER_SIZE + |p|..];
      ParseSound(t);
      assert b == Encode(p) + t;
      EncodeAllCons(p, Parse(t).frames);
      AppendAssociates(Encode(p), EncodeAll(Parse(t).frames), Parse(t).rest);
    } else {
      AppendEmpty(b);
    }
  }

  lemma EncodeAllCons(p: Payload, ps: seq<Payload>)
    ensures EncodeAll([p] + ps) == Encode(p) + EncodeAll(ps)
  {
    assert ([p] + ps)[1..] == ps;
  }

  lemma {:induction false} ParseOfEncodings(ps: seq<Payload>, tail: Bytes)
    ensures Parse(EncodeAll(ps) + tail) == Parsed(ps + Parse(tail).frames, Parse(tail).rest)
  {
    if ps == [] {
      AppendEmpty(tail);
      AppendEmpty(Parse(tail).frames);
    } else {
      AppendAssociates(Encode(ps[0]), EncodeAll(ps[1..]), tail);
      ParseOfEncodingFirst(ps[0], EncodeAll(ps[1..]) + tail);
      ParseOfEncodings(ps[1..], tail);
      AppendAssociates([ps[0]], ps[1..], Parse(tail).frames);
      assert ps == [ps[0]] + ps[1..];
    }
  }

  /** `Parse` is the only way to split a stream into encodings and an
      undecodable remainder. */
  lemma ParseUnique(b: Bytes, ps: seq<Payload>, tail: Bytes)
    ensures b == EncodeAll(ps) + tail && !FirstFrame(tail).FrameReady? <==> Parse(b) == Parsed(ps, tail)
  {
    ParseSound(b);
    if b == EncodeAll(ps) + tail && !FirstFrame(tail).FrameReady? {
      ParseOfEncodings(ps, tail);
    }
  }

  lemma {:induction false} EncodeAllAppend(ps: seq<Payload>, qs: seq<Payload>)
    ensures EncodeAll(ps + qs) == EncodeAll(ps) + EncodeAll(qs)
  {
    if ps == [] {
      assert ps + qs == qs;
    } else {
      assert (ps + qs)[1..] == ps[1..] + qs;
      EncodeAllAppend(ps[1..], qs);
    }
  }

  lemma EncodeAllSnoc(ps: seq<Payload>, p: Payload)
    ensures EncodeAll(ps + [p]) == EncodeAll(ps) + Encode(p)
  {
    EncodeAllAppend(ps, [p]);
    assert EncodeAll([p]) == Encode(p);
  }

  /** Once a header announces too large a payload, no later byte changes anything. */
  lemma TooLargeIsFinal(a: Bytes, b: Bytes)
    requires FirstFrame(Parse(a).rest) == PayloadTooLarge
    ensures Parse(a + b) == Parsed(Parse(a).frames, Parse(a).rest + b)
    ensures FirstFrame(Parse(a + b).rest) == PayloadTooLarge
  {
    ParseAppend(a, b);
    assert (Parse(a).rest + b)[..HEADER_SIZE] == Parse(a).rest[..HEADER_SIZE];
  }

  lemma ParseEncodeAll(ps: seq<Payload>)
    ensures Parse(EncodeAll(ps)) == Parsed(ps, [])
  {
    ParseOfEncodings(ps, []);
    AppendEmpty(EncodeAll(ps));
    AppendEmpty(ps);
  }

  lemma PrefixIsNotTooLarge(w: Bytes, x: Bytes)
    requires Parse(w + x).rest == []
    ensures FirstFrame(Parse(w).rest) == NeedMoreData
  {
    ParseSound(w);
    if FirstFrame(Parse(w).rest) == PayloadTooLarge {
      TooLargeIsFinal(w, x);
    }
  }

  /** A reader that has seen any prefix of what a printer wrote holds a prefix of
      the printed frames, and all of them once it has seen everything. */
  lemma PrefixDecodesToPrefix(w: Bytes, ps: seq<Payload>)
    requires w <= EncodeAll(ps)
    ensures Parse(w).frames <= ps
    ensures FirstFrame(Parse(w).rest) == NeedMoreData
    ensures w == EncodeAll(ps) <==> Parse(w) == Parsed(ps, [])
  {
    var x := EncodeAll(ps)[|w|..];
    assert w + x == EncodeAll(ps);
    ParseEncodeAll(ps);
    ParseAppend(w, x);
    PrefixIsNotTooLarge(w, x);
    if Parse(w) == Parsed(ps, []) {
      ParseSound(w);
      AppendEmpty(EncodeAll(ps));
    }
  }

  lemma TakeMore(b: Bytes, i: nat, k: nat)
    requires i + k <= |b|
    ensures b[..i] + b[i..][..k] == b[..i + k]
    ensures b[i..][k..] == b[i + k..]
  {
  }
}
