/** The RDFT frame codec: a printer into a preallocated buffer and an incremental parser
    that consumes one frame from the front of the caller's buffer. */
module FrameCodec {
  import opened Bytes

  const MAGIC: seq<byte> := [0x52, 0x44, 0x46, 0x54] // "RDFT"
  const PROTOCOL_VERSION: u16 := 1
  const FIXED_HEADER_BYTES: nat := 32

  const KNOWN_MESSAGE_TYPES: set<u16> := {
    0x0001, 0x0002, 0x0003, 0x0004, 0x0005,
    0x0100, 0x0101, 0x0102, 0x0103, 0x0104,
    0x0200, 0x0201, 0x0202, 0x0203, 0x0204,
    0x0300, 0x0301, 0x0302, 0x0303, 0x0304,
    0x0400, 0x0401,
    0x7FFE, 0x7FFF
  }

  predicate IsKnownMessageType(t: u16) {
    t in KNOWN_MESSAGE_TYPES
  }

  datatype ProtocolLimits = ProtocolLimits(
    maxMetadataBytes: u32, maxPayloadBytes: u64, maxBufferedFrameBytes: u64)

  datatype Frame = Frame(
    version: u16, messageType: u16, flags: u32, streamId: u64,
    metadata: QByteArray, payload: QByteArray)

  datatype EncodeError =
    | UnsupportedProtocolVersion | UnknownType | MetadataExceedsLimit
    | PayloadExceedsLimit | SizeOverflowsOrExceedsLimit

  datatype DecodeError =
    | InvalidMagic | UnsupportedVersion | UnknownMessageType | MetadataTooLarge
    | PayloadTooLarge | FrameTooLarge | LengthOverflow

  datatype EncodeResult = Encoded(bytes: seq<byte>) | Rejected(why: EncodeError)

  // The three statuses of tryDecode; only FrameReady carries a frame and a byte count.
  datatype DecodeResult =
    | NeedMoreData
    | ProtocolError(error: DecodeError)
    | FrameReady(frame: Frame, consumed: nat)

  // ---------------------------------------------------------------- specification

  function HeaderOf(f: Frame): (h: seq<byte>)
    requires |f.metadata| < U32_LIMIT
    ensures |h| == FIXED_HEADER_BYTES
  {
    WidthLimits();
    MAGIC
    + ToBigEndian(f.version, 2) + ToBigEndian(f.messageType, 2) + ToBigEndian(f.flags, 4)
    + ToBigEndian(|f.metadata|, 4) + ToBigEndian(|f.payload|, 8) + ToBigEndian(f.streamId, 8)
  }

  /** The wire layout: fixed header, then metadata, then payload. */
  function WireOf(f: Frame): seq<byte>
    requires |f.metadata| < U32_LIMIT
  {
    HeaderOf(f) + f.metadata + f.payload
  }

  /** The size of a frame with the given part sizes. */
  function FrameBytes(metadataBytes: nat, payloadBytes: nat): nat {
    FIXED_HEADER_BYTES + payloadBytes + metadataBytes
  }

  predicate Encodable(f: Frame, limits: ProtocolLimits) {
    && f.version == PROTOCOL_VERSION
    && IsKnownMessageType(f.messageType)
    && |f.metadata| <= limits.maxMetadataBytes
    && |f.payload| <= limits.maxPayloadBytes
    && FrameBytes(|f.metadata|, |f.payload|) <= limits.maxBufferedFrameBytes
    && FrameBytes(|f.metadata|, |f.payload|) <= QSIZE_MAX
  }

  function EncodeFailure(f: Frame, limits: ProtocolLimits): EncodeError
    requires !Encodable(f, limits)
  {
    if f.version != PROTOCOL_VERSION then UnsupportedProtocolVersion
    else if !IsKnownMessageType(f.messageType) then UnknownType
    else if |f.metadata| > limits.maxMetadataBytes then MetadataExceedsLimit
    else if |f.payload| > limits.maxPayloadBytes then PayloadExceedsLimit
    else SizeOverflowsOrExceedsLimit
  }

  function Field(b: seq<byte>, from: nat, k: nat): (v: nat)
    requires from + k <= |b|
    ensures v < Pow256(k)
  {
    FromBigEndian(b[from..from + k])
  }

  /** What tryDecode reports for a buffer, in the order of its checks. */
  function Decode(b: seq<byte>, limits: ProtocolLimits): DecodeResult {
    if |b| < FIXED_HEADER_BYTES then NeedMoreData
    else if b[..4] != MAGIC then ProtocolError(InvalidMagic)
    else
      WidthLimits();
      var version: u16 := Field(b, 4, 2);
      var messageType: u16 := Field(b, 6, 2);
      var metadataBytes, payloadBytes := Field(b, 12, 4), Field(b, 16, 8);
      var total := FrameBytes(metadataBytes, payloadBytes);
      if version != PROTOCOL_VERSION then ProtocolError(UnsupportedVersion)
      else if !IsKnownMessageType(messageType) then ProtocolError(UnknownMessageType)
      else if metadataBytes > limits.maxMetadataBytes then ProtocolError(MetadataTooLarge)
      else if payloadBytes > limits.maxPayloadBytes then ProtocolError(PayloadTooLarge)
      else if total >= U64_LIMIT then ProtocolError(LengthOverflow)
      else if total > limits.maxBufferedFrameBytes then ProtocolError(FrameTooLarge)
      else if total > QSIZE_MAX then ProtocolError(LengthOverflow)
      else if |b| < total then NeedMoreData
      else
        var metadataEnd := FIXED_HEADER_BYTES + metadataBytes;
        FrameReady(
          Frame(version, messageType, Field(b, 8, 4), Field(b, 24, 8),
                b[FIXED_HEADER_BYTES..metadataEnd], b[metadataEnd..total]),
          total)
  }

  // ---------------------------------------------------------------- the code

  /** checkedFrameBytes: 64-bit sums guarded by subtractions from the maximum. */
  method CheckedFrameBytes(metadataBytes: u32, payloadBytes: u64) returns (ok: bool, totalBytes: u64)
    ensures ok <==> FrameBytes(metadataBytes, payloadBytes) < U64_LIMIT
    ensures ok ==> totalBytes == FrameBytes(metadataBytes, payloadBytes)
  {
    totalBytes := 0;
    if payloadBytes > U64_LIMIT - 1 - FIXED_HEADER_BYTES {
      return false, totalBytes;
    }
    var withPayload := (FIXED_HEADER_BYTES + payloadBytes) % U64_LIMIT;
    if metadataBytes > U64_LIMIT - 1 - withPayload {
      return false, totalBytes;
    }
    totalBytes := (withPayload + metadataBytes) % U64_LIMIT;
    ok := true;
  }

  /** memcpy(destination + at, source, |source|) */
  method CopyBytes(destination: array<byte>, at: nat, source: seq<byte>)
    requires at + |source| <= destination.Length
    modifies destination
    ensures destination[..at + |source|] == old(destination[..at]) + source
    ensures destination[at + |source|..] == old(destination[at + |source|..])
  {
    for i := 0 to |source|
      invariant destination[..at] == old(destination[..at])
      invariant destination[at..at + i] == source[..i]
      invariant destination[at + i..] == old(destination[at + i..])
    {
      destination[at + i] := source[i];
    }
  }

  /** qToBigEndian for a k-byte unsigned integer, least significant byte first. */
  method WriteBigEndian(destination: array<byte>, at: nat, value: nat, k: nat)
    requires value < Pow256(k)
    requires at + k <= destination.Length
    modifies destination
    ensures destination[..at + k] == old(destination[..at]) + ToBigEndian(value, k)
    ensures destination[at + k..] == old(destination[at + k..])
  {
    var rest: nat, i := value, k;
    while i > 0
      invariant 0 <= i <= k
      invariant rest < Pow256(i)
      invariant destination[..at + i] == old(destination[..at + i])
      invariant ToBigEndian(rest, i) + destination[at + i..at + k] == ToBigEndian(value, k)
      invariant destination[at + k..] == old(destination[at + k..])
    {
      i := i - 1;
      ghost var done := destination[at + i + 1..at + k];
      destination[at + i] := rest % 256;
      assert destination[at + i..at + k] == [destination[at + i]] + done;
      rest := rest / 256;
    }
  }

  /** FrameCodec::encode */
  method Encode(frame: Frame, limits: ProtocolLimits) returns (r: EncodeResult)
    ensures Encodable(frame, limits) ==> r == Encoded(WireOf(frame))
    ensures !Encodable(frame, limits) ==> r == Rejected(EncodeFailure(frame, limits))
  {
    if frame.version != PROTOCOL_VERSION {
      return Rejected(UnsupportedProtocolVersion);
    }
    if !IsKnownMessageType(frame.messageType) {
      return Rejected(UnknownType);
    }
    if |frame.metadata| > limits.maxMetadataBytes {
      return Rejected(MetadataExceedsLimit);
    }
    if |frame.payload| > limits.maxPayloadBytes {
      return Rejected(PayloadExceedsLimit);
    }
    var ok, total := CheckedFrameBytes(|frame.metadata|, |frame.payload|);
    if !ok || total > limits.maxBufferedFrameBytes || total > QSIZE_MAX {
      return Rejected(SizeOverflowsOrExceedsLimit);
    }
    var encoded := FillFrame(frame, total);
    r := Encoded(encoded[..]);
  }

  /** The cursor writes of encode, into a buffer of the checked size. */
  method FillFrame(frame: Frame, total: nat) returns (encoded: array<byte>)
    requires |frame.metadata| < U32_LIMIT
    requires total == FrameBytes(|frame.metadata|, |frame.payload|)
    ensures fresh(encoded)
    ensures encoded[..] == WireOf(frame)
  {
    encoded := new byte[total];
    FillHeader(encoded, frame);
    CopyBytes(encoded, FIXED_HEADER_BYTES, frame.metadata);
    CopyBytes(encoded, FIXED_HEADER_BYTES + |frame.metadata|, frame.payload);
    assert encoded[..] == encoded[..total];
  }

  method FillHeader(encoded: array<byte>, frame: Frame)
    requires |frame.metadata| < U32_LIMIT
    requires encoded.Length >= FIXED_HEADER_BYTES
    modifies encoded
    ensures encoded[..FIXED_HEADER_BYTES] == HeaderOf(frame)
  {
    WidthLimits();
    CopyBytes(encoded, 0, MAGIC);
    ghost var h := MAGIC;
    assert encoded[..4] == h;
    WriteBigEndian(encoded, 4, frame.version, 2);
    h := h + ToBigEndian(frame.version, 2);
    assert encoded[..6] == h;
    WriteBigEndian(encoded, 6, frame.messageType, 2);
    h := h + ToBigEndian(frame.messageType, 2);
    assert encoded[..8] == h;
    WriteBigEndian(encoded, 8, frame.flags, 4);
    h := h + ToBigEndian(frame.flags, 4);
    assert encoded[..12] == h;
    WriteBigEndian(encoded, 12, |frame.metadata|, 4);
    h := h + ToBigEndian(|frame.metadata|, 4);
    assert encoded[..16] == h;
    WriteBigEndian(encoded, 16, |frame.payload|, 8);
    h := h + ToBigEndian(|frame.payload|, 8);
    assert encoded[..24] == h;
    WriteBigEndian(encoded, 24, frame.streamId, 8);
  }

  /** The caller's receive buffer and output frame, both passed by reference. */
  class Receiver {
    var buffer: seq<byte>
    var output: Frame

    constructor (initial: Frame)
      ensures buffer == [] && output == initial
    {
      buffer, output := [], initial;
    }

    /** FrameCodec::tryDecode. The result is Decode of the buffer; a frame is moved to the
        output and its bytes removed, any other outcome leaves both untouched. */
    method TryDecode(limits: ProtocolLimits) returns (r: DecodeResult)
      modifies this
      ensures r == Decode(old(buffer), limits)
      ensures r.FrameReady? ==> r.consumed <= |old(buffer)| && output == r.frame
      ensures r.FrameReady? ==> old(buffer) == old(buffer[..r.consumed]) + buffer
      ensures !r.FrameReady? ==> buffer == old(buffer) && output == old(output)
    {
      if |buffer| < FIXED_HEADER_BYTES {
        return NeedMoreData;
      }
      if buffer[..4] != MAGIC {
        return ProtocolError(InvalidMagic);
      }
      WidthLimits();
      var version: u16 := Field(buffer, 4, 2);
      if version != PROTOCOL_VERSION {
        return ProtocolError(UnsupportedVersion);
      }
      var messageType: u16 := Field(buffer, 6, 2);
      if !IsKnownMessageType(messageType) {
        return ProtocolError(UnknownMessageType);
      }
      var flags: u32 := Field(buffer, 8, 4);
      var metadataBytes: u32 := Field(buffer, 12, 4);
      var payloadBytes: u64 := Field(buffer, 16, 8);
      var streamId: u64 := Field(buffer, 24, 8);
      if metadataBytes > limits.maxMetadataBytes {
        return ProtocolError(MetadataTooLarge);
      }
      if payloadBytes > limits.maxPayloadBytes {
        return ProtocolError(PayloadTooLarge);
      }
      var ok, total := CheckedFrameBytes(metadataBytes, payloadBytes);
      if !ok {
        return ProtocolError(LengthOverflow);
      }
      if total > limits.maxBufferedFrameBytes {
        return ProtocolError(FrameTooLarge);
      }
      if total > QSIZE_MAX {
        return ProtocolError(LengthOverflow);
      }
      if |buffer| < total {
        return NeedMoreData;
      }
      ghost var all := buffer;
      assert all == all[..total] + all[total..];
      var metadataEnd := FIXED_HEADER_BYTES + metadataBytes;
      output := Frame(version, messageType, flags, streamId,
                      buffer[FIXED_HEADER_BYTES..metadataEnd], buffer[metadataEnd..total]);
      buffer := buffer[total..];
      r := FrameReady(output, total);
    }
  }
}
