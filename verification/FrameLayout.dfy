/** The frame format byte by byte, as other implementations see it: which byte of a frame holds what,
    and which buffers tryDecode refuses for which reason. */
module FrameLayout {
  import opened Bytes
  import opened FrameCodec

  // ---------------------------------------------------------------- big-endian integers

  function At(b: seq<byte>, i: nat): nat
    requires i < |b|
  {
    b[i]
  }

  function Be16(b: seq<byte>, at: nat): nat
    requires at + 2 <= |b|
  {
    At(b, at) * 0x100 + At(b, at + 1)
  }

  function Be32(b: seq<byte>, at: nat): nat
    requires at + 4 <= |b|
  {
    At(b, at) * 0x100_0000 + At(b, at + 1) * 0x1_0000 + At(b, at + 2) * 0x100 + At(b, at + 3)
  }

  function Be64(b: seq<byte>, at: nat): nat
    requires at + 8 <= |b|
  {
    Be32(b, at) * 0x1_0000_0000 + Be32(b, at + 4)
  }

  /** The most significant byte comes first: byte i holds the digit of weight 256^(k - 1 - i). */
  lemma {:induction false} DigitAt(v: nat, k: nat, i: nat)
    requires v < Pow256(k) && i < k
    ensures ToBigEndian(v, k)[i] == v / Pow256(k - 1 - i) % 256
  {
    if i < k - 1 {
      DigitAt(v / 256, k - 1, i);
      DivTwice(v, Pow256(k - 2 - i));
    } else {
      assert Pow256(0) == 1;
    }
  }

  lemma DivTwice(v: nat, p: nat)
    requires p > 0
    ensures v / 256 / p == v / (256 * p)
  {
    var q, r := v / 256, v % 256;
    var s, t := q / p, q % p;
    assert v == 256 * (p * s + t) + r;
    assert 256 * (p * s + t) == (256 * p) * s + 256 * t;
    QuotientIs(v, 256 * p, s, 256 * t + r);
  }

  lemma QuotientIs(v: nat, d: nat, q: nat, r: nat)
    requires d > 0 && v == d * q + r && r < d
    ensures v / d == q
  {
    var x := v / d;
    assert v == d * x + v % d;
    if x < q {
      Distribute(d, q - x);
    } else if q < x {
      Distribute(d, x - q);
    }
    assert d * (x - q) == d * x - d * q;
  }

  lemma Distribute(d: nat, n: nat)
    requires n >= 1
    ensures d * n >= d
  {
  }

  lemma FieldIsBe16(b: seq<byte>, at: nat)
    requires at + 2 <= |b|
    ensures Field(b, at, 2) == Be16(b, at)
  {
    Value2(b[at..at + 2]);
  }

  lemma FieldIsBe32(b: seq<byte>, at: nat)
    requires at + 4 <= |b|
    ensures Field(b, at, 4) == Be32(b, at)
  {
    Value4(b[at..at + 4]);
  }

  lemma FieldIsBe64(b: seq<byte>, at: nat)
    requires at + 8 <= |b|
    ensures Field(b, at, 8) == Be64(b, at)
  {
    Value8(b[at..at + 8]);
  }

  lemma ValueLast(b: seq<byte>)
    requires b != []
    ensures FromBigEndian(b) == 256 * FromBigEndian(b[..|b| - 1]) + b[|b| - 1]
  {
  }

  lemma Value2(b: seq<byte>)
    requires |b| == 2
    ensures FromBigEndian(b) == Be16(b, 0)
  {
    ValueLast(b);
    ValueLast(b[..1]);
    assert b[..1][..0] == [];
  }

  lemma Value4(b: seq<byte>)
    requires |b| == 4
    ensures FromBigEndian(b) == Be32(b, 0)
  {
    ValueLast(b);
    ValueLast(b[..3]);
    assert b[..3][..2] == b[..2];
    Value2(b[..2]);
  }

  lemma Value8(b: seq<byte>)
    requires |b| == 8
    ensures FromBigEndian(b) == Be64(b, 0)
  {
    ValueLast(b);
    ValueLast(b[..7]);
    ValueLast(b[..6]);
    ValueLast(b[..5]);
    assert b[..7][..6] == b[..6] && b[..6][..5] == b[..5] && b[..5][..4] == b[..4];
    Value4(b[..4]);
  }

  // ---------------------------------------------------------------- what encode writes

  lemma WrittenIsBe16(b: seq<byte>, at: nat, v: u16)
    requires at + 2 <= |b| && v < Pow256(2) && b[at..at + 2] == ToBigEndian(v, 2)
    ensures Be16(b, at) == v
  {
    ReadWritten(v, 2);
    FieldIsBe16(b, at);
  }

  lemma WrittenIsBe32(b: seq<byte>, at: nat, v: u32)
    requires at + 4 <= |b| && v < Pow256(4) && b[at..at + 4] == ToBigEndian(v, 4)
    ensures Be32(b, at) == v
  {
    ReadWritten(v, 4);
    FieldIsBe32(b, at);
  }

  lemma WrittenIsBe64(b: seq<byte>, at: nat, v: u64)
    requires at + 8 <= |b| && v < Pow256(8) && b[at..at + 8] == ToBigEndian(v, 8)
    ensures Be64(b, at) == v
  {
    ReadWritten(v, 8);
    FieldIsBe64(b, at);
  }

  /** A frame on the wire: "RDFT", then big-endian version, type, flags, the two lengths and the
      stream id, then metadata and payload. */
  ghost predicate LaidOut(f: Frame, w: seq<byte>) {
    && |w| == 32 + |f.metadata| + |f.payload|
    && w[0] == 0x52 && w[1] == 0x44 && w[2] == 0x46 && w[3] == 0x54
    && Be16(w, 4) == f.version && Be16(w, 6) == f.messageType && Be32(w, 8) == f.flags
    && Be32(w, 12) == |f.metadata| && Be64(w, 16) == |f.payload| && Be64(w, 24) == f.streamId
    && w[32..32 + |f.metadata|] == f.metadata && w[32 + |f.metadata|..] == f.payload
  }

  lemma HeaderSlices(f: Frame)
    requires |f.metadata| < U32_LIMIT
    ensures var h := HeaderOf(f);
      && f.version < Pow256(2) && f.messageType < Pow256(2) && f.flags < Pow256(4)
      && |f.metadata| < Pow256(4) && |f.payload| < Pow256(8) && f.streamId < Pow256(8)
      && h[..4] == MAGIC
      && h[4..4 + 2] == ToBigEndian(f.version, 2) && h[6..6 + 2] == ToBigEndian(f.messageType, 2)
      && h[8..8 + 4] == ToBigEndian(f.flags, 4) && h[12..12 + 4] == ToBigEndian(|f.metadata|, 4)
      && h[16..16 + 8] == ToBigEndian(|f.payload|, 8) && h[24..24 + 8] == ToBigEndian(f.streamId, 8)
  {
    WidthLimits();
  }

  lemma SameBytes(h: seq<byte>, w: seq<byte>)
    requires |h| == 32 <= |w| && w[..32] == h
    ensures w[..4] == h[..4]
    ensures Be16(w, 4) == Be16(h, 4) && Be16(w, 6) == Be16(h, 6) && Be32(w, 8) == Be32(h, 8)
    ensures Be32(w, 12) == Be32(h, 12) && Be64(w, 16) == Be64(h, 16) && Be64(w, 24) == Be64(h, 24)
  {
    assert forall i :: 0 <= i < 32 ==> w[i] == w[..32][i] == h[i];
    assert w[..4] == w[..32][..4];
  }

  lemma HeaderLaidOut(f: Frame)
    requires |f.metadata| < U32_LIMIT
    ensures var h := HeaderOf(f);
      && h[..4] == MAGIC
      && Be16(h, 4) == f.version && Be16(h, 6) == f.messageType && Be32(h, 8) == f.flags
      && Be32(h, 12) == |f.metadata| && Be64(h, 16) == |f.payload| && Be64(h, 24) == f.streamId
  {
    var h := HeaderOf(f);
    HeaderSlices(f);
    WrittenIsBe16(h, 4, f.version);
    WrittenIsBe16(h, 6, f.messageType);
    WrittenIsBe32(h, 8, f.flags);
    WrittenIsBe32(h, 12, |f.metadata|);
    WrittenIsBe64(h, 16, |f.payload|);
    WrittenIsBe64(h, 24, f.streamId);
  }

  /** What encode returns for an acceptable frame is that frame laid out, and nothing else is. */
  lemma WireIsLaidOut(f: Frame, w: seq<byte>)
    requires |f.metadata| < U32_LIMIT
    ensures w == WireOf(f) <==> LaidOut(f, w)
  {
    var wire := WireOf(f);
    HeaderLaidOut(f);
    assert wire[..32] == HeaderOf(f);
    SameBytes(HeaderOf(f), wire);
    assert wire[0] == wire[..4][0] && wire[1] == wire[..4][1] && wire[2] == wire[..4][2] && wire[3] == wire[..4][3];
    assert wire[32..32 + |f.metadata|] == f.metadata && wire[32 + |f.metadata|..] == f.payload;
    assert LaidOut(f, wire);
    if LaidOut(f, w) {
      LaidOutOnce(f, w, wire);
    }
  }

  lemma SameDigits(a: nat, b: nat, c: nat, d: nat)
    requires b < 256 && d < 256 && a * 256 + b == c * 256 + d
    ensures a == c && b == d
  {
  }

  lemma SameBe16(v: seq<byte>, w: seq<byte>, at: nat)
    requires at + 2 <= |v| && at + 2 <= |w| && Be16(v, at) == Be16(w, at)
    ensures v[at] == w[at] && v[at + 1] == w[at + 1]
  {
  }

  lemma SameBe32(v: seq<byte>, w: seq<byte>, at: nat)
    requires at + 4 <= |v| && at + 4 <= |w| && Be32(v, at) == Be32(w, at)
    ensures forall i :: at <= i < at + 4 ==> v[i] == w[i]
  {
    var a, b, c, d := At(v, at), At(v, at + 1), At(v, at + 2), At(v, at + 3);
    var x, y, z, t := At(w, at), At(w, at + 1), At(w, at + 2), At(w, at + 3);
    SameDigits(a * 0x1_0000 + b * 0x100 + c, d, x * 0x1_0000 + y * 0x100 + z, t);
    SameDigits(a * 0x100 + b, c, x * 0x100 + y, z);
    SameDigits(a, b, x, y);
  }

  lemma Be32Bound(v: seq<byte>, at: nat)
    requires at + 4 <= |v|
    ensures Be32(v, at) < 0x1_0000_0000
  {
  }

  lemma SameBe64(v: seq<byte>, w: seq<byte>, at: nat)
    requires at + 8 <= |v| && at + 8 <= |w| && Be64(v, at) == Be64(w, at)
    ensures forall i :: at <= i < at + 8 ==> v[i] == w[i]
  {
    Be32Bound(v, at + 4);
    Be32Bound(w, at + 4);
    SameBe32(v, w, at);
    SameBe32(v, w, at + 4);
  }

  lemma LaidOutOnce(f: Frame, v: seq<byte>, w: seq<byte>)
    requires LaidOut(f, v) && LaidOut(f, w)
    ensures v == w
  {
    SameBe16(v, w, 4);
    SameBe16(v, w, 6);
    SameBe32(v, w, 8);
    SameBe32(v, w, 12);
    SameBe64(v, w, 16);
    SameBe64(v, w, 24);
    var m := 32 + |f.metadata|;
    assert v[..32] == w[..32];
    assert v == v[..32] + v[32..m] + v[m..];
    assert w == w[..32] + w[32..m] + w[m..];
  }

  /** The registered message types. */
  lemma KnownTypes(t: u16)
    ensures IsKnownMessageType(t) <==>
      || 0x0001 <= t <= 0x0005 || 0x0100 <= t <= 0x0104 || 0x0200 <= t <= 0x0204
      || 0x0300 <= t <= 0x0304 || 0x0400 <= t <= 0x0401 || 0x7FFE <= t <= 0x7FFF
  {
  }

  /** Why encode refuses a frame: the first of these that holds. */
  lemma EncodeRefusals(f: Frame, limits: ProtocolLimits)
    ensures var total := 32 + |f.metadata| + |f.payload|;
      var version, known := f.version == 1, IsKnownMessageType(f.messageType);
      var metadata, payload := |f.metadata| <= limits.maxMetadataBytes, |f.payload| <= limits.maxPayloadBytes;
      var fits := total <= limits.maxBufferedFrameBytes && total <= 0x7FFF_FFFF_FFFF_FFFF;
      && (Encodable(f, limits) <==> version && known && metadata && payload && fits)
      && (!Encodable(f, limits) ==>
            var why := EncodeFailure(f, limits);
            && (why.UnsupportedProtocolVersion? <==> !version)
            && (why.UnknownType? <==> version && !known)
            && (why.MetadataExceedsLimit? <==> version && known && !metadata)
            && (why.PayloadExceedsLimit? <==> version && known && metadata && !payload)
            && (why.SizeOverflowsOrExceedsLimit? <==> version && known && metadata && payload && !fits))
  {
  }

  // ---------------------------------------------------------------- what tryDecode answers

  /** How far a buffer passes tryDecode's checks, in their order. */
  ghost predicate HeaderIn(b: seq<byte>) {
    |b| >= 32
  }

  ghost predicate MagicIn(b: seq<byte>) {
    HeaderIn(b) && b[0] == 0x52 && b[1] == 0x44 && b[2] == 0x46 && b[3] == 0x54
  }

  ghost predicate VersionIn(b: seq<byte>) {
    MagicIn(b) && Be16(b, 4) == 1
  }

  ghost predicate TypeIn(b: seq<byte>) {
    VersionIn(b) && IsKnownMessageType(Type(b))
  }

  function Type(b: seq<byte>): u16
    requires |b| >= 32
  {
    Be16(b, 6)
  }

  ghost predicate MetadataIn(b: seq<byte>, limits: ProtocolLimits) {
    TypeIn(b) && Be32(b, 12) <= limits.maxMetadataBytes
  }

  ghost predicate PayloadIn(b: seq<byte>, limits: ProtocolLimits) {
    MetadataIn(b, limits) && Be64(b, 16) <= limits.maxPayloadBytes
  }

  /** The whole frame's size, as the header announces it. */
  function Announced(b: seq<byte>): nat
    requires |b| >= 32
  {
    32 + Be32(b, 12) + Be64(b, 16)
  }

  lemma HeaderRead(b: seq<byte>)
    requires |b| >= 32
    ensures (b[..4] == MAGIC <==> MagicIn(b))
    ensures Field(b, 4, 2) == Be16(b, 4) && Field(b, 6, 2) == Be16(b, 6) && Field(b, 8, 4) == Be32(b, 8)
    ensures Field(b, 12, 4) == Be32(b, 12) && Field(b, 16, 8) == Be64(b, 16) && Field(b, 24, 8) == Be64(b, 24)
  {
    FieldIsBe16(b, 4);
    FieldIsBe16(b, 6);
    FieldIsBe32(b, 8);
    FieldIsBe32(b, 12);
    FieldIsBe64(b, 16);
    FieldIsBe64(b, 24);
    assert b[..4] == [b[0], b[1], b[2], b[3]];
  }

  /** Which answer tryDecode gives to which buffer, for every buffer: each answer exactly when all
      earlier checks pass and its own does not. */
  lemma DecodeAnswers(b: seq<byte>, limits: ProtocolLimits)
    ensures Decode(b, limits) == ProtocolError(InvalidMagic) <==> HeaderIn(b) && !MagicIn(b)
    ensures Decode(b, limits) == ProtocolError(UnsupportedVersion) <==> MagicIn(b) && !VersionIn(b)
    ensures Decode(b, limits) == ProtocolError(UnknownMessageType) <==> VersionIn(b) && !TypeIn(b)
    ensures Decode(b, limits) == ProtocolError(MetadataTooLarge) <==> TypeIn(b) && !MetadataIn(b, limits)
    ensures Decode(b, limits) == ProtocolError(PayloadTooLarge) <==> MetadataIn(b, limits) && !PayloadIn(b, limits)
    ensures Decode(b, limits) == ProtocolError(LengthOverflow) <==>
      && PayloadIn(b, limits)
      && (Announced(b) >= 0x1_0000_0000_0000_0000
          || 0x7FFF_FFFF_FFFF_FFFF < Announced(b) <= limits.maxBufferedFrameBytes)
    ensures Decode(b, limits) == ProtocolError(FrameTooLarge) <==>
      && PayloadIn(b, limits)
      && limits.maxBufferedFrameBytes < Announced(b) < 0x1_0000_0000_0000_0000
    ensures Decode(b, limits) == NeedMoreData <==>
      || !HeaderIn(b)
      || (&& PayloadIn(b, limits) && |b| < Announced(b)
          && Announced(b) <= limits.maxBufferedFrameBytes && Announced(b) <= 0x7FFF_FFFF_FFFF_FFFF)
  {
    if |b| >= 32 {
      HeaderRead(b);
    }
  }

  /** A frame is yielded exactly when all checks pass and it is there, and it is the frame that the
      bytes lay out. */
  lemma DecodeYields(b: seq<byte>, limits: ProtocolLimits)
    ensures Decode(b, limits).FrameReady? <==>
      && PayloadIn(b, limits) && Announced(b) <= |b|
      && Announced(b) <= limits.maxBufferedFrameBytes && Announced(b) <= 0x7FFF_FFFF_FFFF_FFFF
    ensures Decode(b, limits).FrameReady? ==>
      var r := Decode(b, limits);
      r.consumed == Announced(b) && LaidOut(r.frame, b[..Announced(b)])
  {
    DecodeAnswers(b, limits);
    if Decode(b, limits).FrameReady? {
      HeaderRead(b);
      var r := Decode(b, limits);
      var w, m := b[..r.consumed], 32 + |r.frame.metadata|;
      assert w[..32] == b[..32];
      SameBytes(b[..32], b);
      SameBytes(b[..32], w);
      assert w[32..m] == b[32..m] && w[m..] == b[m..r.consumed];
    }
  }
}
