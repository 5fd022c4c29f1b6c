/** What the codec means for a byte stream: encode and tryDecode are inverse on exactly the
    acceptable frames, errors are exact, and a stream can be cut anywhere. */
module FrameStream {
  import opened Bytes
  import opened FrameCodec
  import opened Draining

  // ---------------------------------------------------------------- one frame

  lemma {:induction false} FieldRead(b: seq<byte>, at: nat, v: nat, k: nat)
    requires at + k <= |b| && v < Pow256(k)
    requires b[at..at + k] == ToBigEndian(v, k)
    ensures Field(b, at, k) == v
  {
    ReadWritten(v, k);
  }

  /** Two buffers with the same first 32 bytes have the same header fields. */
  lemma SameHeader(b: seq<byte>, c: seq<byte>)
    requires |b| >= FIXED_HEADER_BYTES && |c| >= FIXED_HEADER_BYTES
    requires b[..FIXED_HEADER_BYTES] == c[..FIXED_HEADER_BYTES]
    ensures b[..4] == c[..4]
    ensures Field(b, 4, 2) == Field(c, 4, 2) && Field(b, 6, 2) == Field(c, 6, 2)
    ensures Field(b, 8, 4) == Field(c, 8, 4) && Field(b, 12, 4) == Field(c, 12, 4)
    ensures Field(b, 16, 8) == Field(c, 16, 8) && Field(b, 24, 8) == Field(c, 24, 8)
  {
    var h := b[..FIXED_HEADER_BYTES];
    assert b[..4] == h[..4] == c[..4];
    assert b[4..4 + 2] == h[4..6] == c[4..4 + 2];
    assert b[6..6 + 2] == h[6..8] == c[6..6 + 2];
    assert b[8..8 + 4] == h[8..12] == c[8..8 + 4];
    assert b[12..12 + 4] == h[12..16] == c[12..12 + 4];
    assert b[16..16 + 8] == h[16..24] == c[16..16 + 8];
    assert b[24..24 + 8] == h[24..32] == c[24..24 + 8];
  }

  lemma HeaderFields(f: Frame)
    requires |f.metadata| < U32_LIMIT
    ensures var h := HeaderOf(f);
      && h[..4] == MAGIC
      && Field(h, 4, 2) == f.version && Field(h, 6, 2) == f.messageType
      && Field(h, 8, 4) == f.flags && Field(h, 12, 4) == |f.metadata|
      && Field(h, 16, 8) == |f.payload| && Field(h, 24, 8) == f.streamId
  {
    WidthLimits();
    var h := HeaderOf(f);
    assert h[..4] == MAGIC;
    FieldRead(h, 4, f.version, 2);
    FieldRead(h, 6, f.messageType, 2);
    FieldRead(h, 8, f.flags, 4);
    FieldRead(h, 12, |f.metadata|, 4);
    FieldRead(h, 16, |f.payload|, 8);
    FieldRead(h, 24, f.streamId, 8);
  }

  /** Round trip with any following bytes. */
  lemma DecodeWire(f: Frame, limits: ProtocolLimits, tail: seq<byte>)
    requires Encodable(f, limits)
    ensures Decode(WireOf(f) + tail, limits) == FrameReady(f, |WireOf(f)|)
  {
    var h, b := HeaderOf(f), WireOf(f) + tail;
    HeaderFields(f);
    assert b[..FIXED_HEADER_BYTES] == h == h[..FIXED_HEADER_BYTES];
    SameHeader(b, h);
    var metadataEnd := FIXED_HEADER_BYTES + |f.metadata|;
    assert b[FIXED_HEADER_BYTES..metadataEnd] == f.metadata;
    assert b[metadataEnd..metadataEnd + |f.payload|] == f.payload;
  }

  /** A header with the right magic is the header of the frame read from it. */
  lemma HeaderRebuilt(b: seq<byte>, f: Frame)
    requires |b| >= FIXED_HEADER_BYTES && |f.metadata| < U32_LIMIT
    requires b[..4] == MAGIC
    requires Field(b, 4, 2) == f.version && Field(b, 6, 2) == f.messageType
    requires Field(b, 8, 4) == f.flags && Field(b, 12, 4) == |f.metadata|
    requires Field(b, 16, 8) == |f.payload| && Field(b, 24, 8) == f.streamId
    ensures b[..FIXED_HEADER_BYTES] == HeaderOf(f)
  {
    WidthLimits();
    WriteRead(b[4..6]);
    WriteRead(b[6..8]);
    WriteRead(b[8..12]);
    WriteRead(b[12..16]);
    WriteRead(b[16..24]);
    WriteRead(b[24..32]);
    assert b[..32] == b[..4] + b[4..6] + b[6..8] + b[8..12] + b[12..16] + b[16..24] + b[24..32];
  }

  /** Canonical: the bytes removed for a frame are exactly its encoding. */
  lemma DecodeCanonical(b: seq<byte>, limits: ProtocolLimits)
    requires Decode(b, limits).FrameReady?
    ensures var r := Decode(b, limits);
      Encodable(r.frame, limits) && r.consumed <= |b| && b[..r.consumed] == WireOf(r.frame)
  {
    WidthLimits();
    var r := Decode(b, limits);
    var f := r.frame;
    HeaderRebuilt(b, f);
    var metadataEnd := FIXED_HEADER_BYTES + |f.metadata|;
    assert b[..r.consumed]
        == b[..FIXED_HEADER_BYTES] + b[FIXED_HEADER_BYTES..metadataEnd] + b[metadataEnd..r.consumed];
  }

  /** tryDecode yields a frame exactly when the buffer starts with an acceptable encoding. */
  lemma FrameReadyIff(b: seq<byte>, limits: ProtocolLimits)
    ensures Decode(b, limits).FrameReady? <==>
      exists f: Frame :: Encodable(f, limits) && WireOf(f) <= b
  {
    if Decode(b, limits).FrameReady? {
      DecodeCanonical(b, limits);
    }
    if f: Frame :| Encodable(f, limits) && WireOf(f) <= b {
      DecodeWire(f, limits, b[|WireOf(f)|..]);
      assert b == WireOf(f) + b[|WireOf(f)|..];
    }
  }

  /** encode is injective and no encoding is a proper prefix of another. */
  lemma PrefixFree(f: Frame, g: Frame, limits: ProtocolLimits)
    requires Encodable(f, limits) && Encodable(g, limits)
    requires WireOf(f) <= WireOf(g)
    ensures f == g
  {
    var tail := WireOf(g)[|WireOf(f)|..];
    DecodeWire(f, limits, tail);
    DecodeWire(g, limits, []);
    assert WireOf(f) + tail == WireOf(g) == WireOf(g) + [];
  }

  // ---------------------------------------------------------------- appended bytes

  lemma ReadyStable(b: seq<byte>, more: seq<byte>, limits: ProtocolLimits)
    requires Decode(b, limits).FrameReady?
    ensures Decode(b + more, limits) == Decode(b, limits)
  {
    DecodeCanonical(b, limits);
    var r := Decode(b, limits);
    SplitAt(b, r.consumed, more);
    DecodeWire(r.frame, limits, b[r.consumed..] + more);
    DecodeWire(r.frame, limits, b[r.consumed..]);
  }

  lemma SplitAt(b: seq<byte>, n: nat, more: seq<byte>)
    requires n <= |b|
    ensures b == b[..n] + b[n..] && b + more == b[..n] + (b[n..] + more)
  {
  }

  lemma ErrorStable(b: seq<byte>, more: seq<byte>, limits: ProtocolLimits)
    requires Decode(b, limits).ProtocolError?
    ensures Decode(b + more, limits) == Decode(b, limits)
  {
    assert (b + more)[..FIXED_HEADER_BYTES] == b[..FIXED_HEADER_BYTES];
    SameHeader(b, b + more);
  }

  /** FrameReady and ProtocolError do not change when bytes arrive. */
  lemma DecodeStable(b: seq<byte>, more: seq<byte>, limits: ProtocolLimits)
    requires !Decode(b, limits).NeedMoreData?
    ensures Decode(b + more, limits) == Decode(b, limits)
  {
    if Decode(b, limits).FrameReady? {
      ReadyStable(b, more, limits);
    } else {
      ErrorStable(b, more, limits);
    }
  }

  function Zeros(n: nat): (z: seq<byte>)
    ensures |z| == n
  {
    seq(n, i => 0)
  }

  /** Once the header is in, waiting is never in vain: some continuation completes a frame. */
  lemma NeedMoreCompletes(b: seq<byte>, limits: ProtocolLimits) returns (more: seq<byte>)
    requires |b| >= FIXED_HEADER_BYTES && Decode(b, limits).NeedMoreData?
    ensures more != [] && Decode(b + more, limits).FrameReady?
    ensures |b + more| == Decode(b + more, limits).consumed
  {
    WidthLimits();
    var total := FrameBytes(Field(b, 12, 4), Field(b, 16, 8));
    more := Zeros(total - |b|);
    assert (b + more)[..FIXED_HEADER_BYTES] == b[..FIXED_HEADER_BYTES];
    SameHeader(b, b + more);
  }

  lemma CompletedBy(b: seq<byte>, more: seq<byte>, limits: ProtocolLimits) returns (f: Frame)
    requires Decode(b + more, limits).FrameReady?
    ensures Encodable(f, limits) && (b <= WireOf(f) || WireOf(f) <= b)
  {
    DecodeCanonical(b + more, limits);
    f := Decode(b + more, limits).frame;
    PrefixesCompare(WireOf(f), b, more);
  }

  lemma Completion(b: seq<byte>, f: Frame, limits: ProtocolLimits) returns (more: seq<byte>)
    requires Encodable(f, limits) && (b <= WireOf(f) || WireOf(f) <= b)
    ensures Decode(b + more, limits).FrameReady?
  {
    var w := WireOf(f);
    more := if b <= w then w[|b|..] else [];
    var tail := (b + more)[|w|..];
    DecodeWire(f, limits, tail);
    assert b + more == w + tail;
  }

  /** For every buffer, some continuation yields a frame exactly when the buffer starts with an
      acceptable encoding or is the start of one. */
  lemma CompletesIff(b: seq<byte>, limits: ProtocolLimits)
    ensures (exists more: seq<byte> :: Decode(b + more, limits).FrameReady?) <==>
      exists f: Frame :: Encodable(f, limits) && (b <= WireOf(f) || WireOf(f) <= b)
  {
    if more: seq<byte> :| Decode(b + more, limits).FrameReady? {
      var f := CompletedBy(b, more, limits);
    }
    if f: Frame :| Encodable(f, limits) && (b <= WireOf(f) || WireOf(f) <= b) {
      var more := Completion(b, f, limits);
    }
  }

  lemma PrefixesCompare(w: seq<byte>, b: seq<byte>, more: seq<byte>)
    requires w <= b + more
    ensures b <= w || w <= b
  {
    if |w| <= |b| {
      assert w == (b + more)[..|w|] == b[..|w|];
    } else {
      assert b == (b + more)[..|b|] == w[..|b|];
    }
  }

  /** With the header in, an error is reported exactly when no continuation can ever yield a
      frame: the parser neither fails early nor waits on a hopeless stream. */
  lemma ErrorIffHopeless(b: seq<byte>, limits: ProtocolLimits)
    requires |b| >= FIXED_HEADER_BYTES
    ensures Decode(b, limits).ProtocolError? <==>
      forall more: seq<byte> :: !Decode(b + more, limits).FrameReady?
  {
    if Decode(b, limits).ProtocolError? {
      forall more: seq<byte>
        ensures !Decode(b + more, limits).FrameReady?
      {
        DecodeStable(b, more, limits);
      }
    } else if Decode(b, limits).NeedMoreData? {
      var more := NeedMoreCompletes(b, limits);
      assert Decode(b + more, limits).FrameReady?;
    } else {
      assert b + [] == b;
      assert Decode(b + [], limits).FrameReady?;
    }
  }

  /** A proper prefix of an acceptable encoding is always waited on. */
  lemma ProperPrefixWaits(p: seq<byte>, f: Frame, limits: ProtocolLimits)
    requires Encodable(f, limits) && p < WireOf(f)
    ensures Decode(p, limits) == NeedMoreData
  {
    if !Decode(p, limits).NeedMoreData? {
      var rest := WireOf(f)[|p|..];
      assert p + rest == WireOf(f) == WireOf(f) + [];
      DecodeStable(p, rest, limits);
      DecodeWire(f, limits, []);
      assert Decode(p, limits) == FrameReady(f, |WireOf(f)|);
      DecodeCanonical(p, limits);
      assert false;
    }
  }

  // ---------------------------------------------------------------- streams

  function DecoderOf(limits: ProtocolLimits): seq<byte> -> DecodeResult {
    b => Decode(b, limits)
  }

  ghost function WireFor(limits: ProtocolLimits): Frame -> seq<byte> {
    f => if Encodable(f, limits) then WireOf(f) else []
  }

  ghost function AcceptedBy(limits: ProtocolLimits): Frame -> bool {
    f => Encodable(f, limits)
  }

  lemma ConsumesAHeader(b: seq<byte>, limits: ProtocolLimits)
    requires Decode(b, limits).FrameReady?
    ensures FIXED_HEADER_BYTES <= Decode(b, limits).consumed <= |b|
  {
    WidthLimits();
  }

  lemma DecoderIsStable(limits: ProtocolLimits)
    ensures Progress(DecoderOf(limits)) && Stable(DecoderOf(limits))
  {
    var dec := DecoderOf(limits);
    forall b | dec(b).FrameReady?
      ensures 0 < dec(b).consumed <= |b|
    {
      ConsumesAHeader(b, limits);
    }
    forall b, more | !dec(b).NeedMoreData?
      ensures dec(Appended(b, more)) == dec(b)
    {
      DecodeStable(b, more, limits);
    }
  }

  lemma CodecIsExact(limits: ProtocolLimits)
    ensures Exact(DecoderOf(limits), WireFor(limits), AcceptedBy(limits))
  {
    var dec, wire, ok := DecoderOf(limits), WireFor(limits), AcceptedBy(limits);
    forall f, tail | ok(f)
      ensures dec(wire(f) + tail) == FrameReady(f, |wire(f)|)
    {
      DecodeWire(f, limits, tail);
    }
    forall b | dec(b).FrameReady?
      ensures ok(dec(b).frame) && dec(b).consumed <= |b| && b[..dec(b).consumed] == wire(dec(b).frame)
    {
      DecodeCanonical(b, limits);
    }
  }

  /** Chunk independence: however a stream is cut, appending and draining chunk by chunk gives
      the frames, the bytes left over and the final status of draining the whole stream. */
  lemma ChunkIndependence(chunks: seq<seq<byte>>, other: seq<seq<byte>>, limits: ProtocolLimits)
    requires Concat(chunks) == Concat(other)
    ensures Progress(DecoderOf(limits))
    ensures Receive(DecoderOf(limits), chunks) == Receive(DecoderOf(limits), other)
    ensures Receive(DecoderOf(limits), chunks) == Drain(DecoderOf(limits), Concat(chunks))
  {
    DecoderIsStable(limits);
    ReceiveIsDrain(DecoderOf(limits), chunks);
    ReceiveIsDrain(DecoderOf(limits), other);
  }

  /** Stream round trip: the encodings of any acceptable frames, followed by a proper prefix of
      one more and cut into any chunks, are received as exactly those frames, with that prefix
      left waiting for more. */
  lemma StreamRoundTrip(
    frames: seq<Frame>, next: Frame, prefix: seq<byte>, chunks: seq<seq<byte>>, limits: ProtocolLimits)
    requires AllIn(AcceptedBy(limits), frames)
    requires Encodable(next, limits) && prefix < WireOf(next)
    requires Concat(chunks) == Wires(WireFor(limits), frames) + prefix
    ensures Progress(DecoderOf(limits))
    ensures Receive(DecoderOf(limits), chunks) == Drained(frames, prefix, NeedMoreData)
  {
    ChunkIndependence(chunks, chunks, limits);
    CodecIsExact(limits);
    ProperPrefixWaits(prefix, next, limits);
    DrainWires(DecoderOf(limits), WireFor(limits), AcceptedBy(limits), frames, prefix);
  }

  /** The converse: whatever is received, the stream was the encodings of those frames followed
      by what is left, so no byte is lost, invented or read twice. */
  lemma StreamCanonical(chunks: seq<seq<byte>>, limits: ProtocolLimits)
    ensures Progress(DecoderOf(limits))
    ensures var d := Receive(DecoderOf(limits), chunks);
      && AllIn(AcceptedBy(limits), d.frames)
      && Concat(chunks) == Wires(WireFor(limits), d.frames) + d.left
      && d.status == Decode(d.left, limits) && !d.status.FrameReady?
  {
    ChunkIndependence(chunks, chunks, limits);
    CodecIsExact(limits);
    DrainIsWires(DecoderOf(limits), WireFor(limits), AcceptedBy(limits), Concat(chunks));
  }
}
