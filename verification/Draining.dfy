/** Draining a growing buffer with any incremental decoder. */
module Draining {
  import opened Bytes
  import opened FrameCodec
  import opened Sequences

  type Decoder = seq<byte> -> DecodeResult

  // The frames so far, the bytes still buffered and the outcome of the last call.
  datatype Drained = Drained(frames: seq<Frame>, left: seq<byte>, status: DecodeResult)

  /** A frame uses up bytes. */
  ghost predicate Progress(dec: Decoder) {
    forall b :: dec(b).FrameReady? ==> 0 < dec(b).consumed <= |b|
  }

  function Appended(b: seq<byte>, more: seq<byte>): seq<byte> {
    b + more
  }

  /** A frame or an error does not change when bytes arrive. */
  ghost predicate Stable(dec: Decoder) {
    forall b, more {:trigger Appended(b, more)} ::
      !dec(b).NeedMoreData? ==> dec(Appended(b, more)) == dec(b)
  }

  /** The decoder reads exactly what the writer writes. */
  ghost predicate Exact(dec: Decoder, wire: Frame -> seq<byte>, ok: Frame -> bool) {
    && (forall f, tail {:trigger dec(wire(f) + tail)} :: ok(f) ==> dec(wire(f) + tail) == FrameReady(f, |wire(f)|))
    && (forall b {:trigger wire(dec(b).frame)} :: dec(b).FrameReady? ==>
          && ok(dec(b).frame) && dec(b).consumed <= |b|
          && b[..dec(b).consumed] == wire(dec(b).frame))
  }

  /** Calls the decoder until it no longer yields a frame. */
  ghost function Drain(dec: Decoder, b: seq<byte>): Drained
    requires Progress(dec)
    decreases |b|
  {
    if dec(b).FrameReady? then
      var d := Drain(dec, b[dec(b).consumed..]);
      Drained([dec(b).frame] + d.frames, d.left, d.status)
    else
      Drained([], b, dec(b))
  }

  /** Appends each chunk as it arrives and drains after each. */
  ghost function Feed(dec: Decoder, d: Drained, chunks: seq<seq<byte>>): Drained
    requires Progress(dec)
    decreases |chunks|
  {
    if chunks == [] then d
    else
      var next := Drain(dec, d.left + chunks[0]);
      Feed(dec, Drained(d.frames + next.frames, next.left, next.status), chunks[1..])
  }

  ghost function Receive(dec: Decoder, chunks: seq<seq<byte>>): Drained
    requires Progress(dec)
  {
    Feed(dec, Drain(dec, []), chunks)
  }

  function Concat(chunks: seq<seq<byte>>): seq<byte> {
    if chunks == [] then [] else chunks[0] + Concat(chunks[1..])
  }

  lemma DropOfAppended(b: seq<byte>, more: seq<byte>, n: nat)
    requires n <= |b|
    ensures (b + more)[n..] == b[n..] + more
  {
  }

  /** Draining early and again after more bytes arrive is the same as draining once. */
  lemma {:induction false} DrainResumes(dec: Decoder, b: seq<byte>, more: seq<byte>)
    requires Progress(dec) && Stable(dec)
    ensures var d := Drain(dec, b);
      var e := Drain(dec, d.left + more);
      Drain(dec, b + more) == Drained(d.frames + e.frames, e.left, e.status)
    decreases |b|
  {
    if dec(b).FrameReady? {
      var f, rest := dec(b).frame, b[dec(b).consumed..];
      DrainResumes(dec, rest, more);
      assert dec(Appended(b, more)) == dec(b);
      DropOfAppended(b, more, dec(b).consumed);
      var d := Drain(dec, rest);
      Assoc([f], d.frames, Drain(dec, d.left + more).frames);
    } else {
      var e := Drain(dec, b + more);
      assert [] + e.frames == e.frames;
    }
  }

  lemma {:induction false} FeedIsDrain(dec: Decoder, b: seq<byte>, chunks: seq<seq<byte>>)
    requires Progress(dec) && Stable(dec)
    ensures Feed(dec, Drain(dec, b), chunks) == Drain(dec, b + Concat(chunks))
    decreases |chunks|
  {
    if chunks == [] {
      assert b + [] == b;
    } else {
      DrainResumes(dec, b, chunks[0]);
      FeedIsDrain(dec, b + chunks[0], chunks[1..]);
      Assoc(b, chunks[0], Concat(chunks[1..]));
    }
  }

  lemma ReceiveIsDrain(dec: Decoder, chunks: seq<seq<byte>>)
    requires Progress(dec) && Stable(dec)
    ensures Receive(dec, chunks) == Drain(dec, Concat(chunks))
  {
    FeedIsDrain(dec, [], chunks);
    assert [] + Concat(chunks) == Concat(chunks);
  }

  ghost predicate AllIn(ok: Frame -> bool, frames: seq<Frame>) {
    forall i :: 0 <= i < |frames| ==> ok(frames[i])
  }

  function Wires(wire: Frame -> seq<byte>, frames: seq<Frame>): seq<byte> {
    if frames == [] then [] else wire(frames[0]) + Wires(wire, frames[1..])
  }

  lemma DrainFirst(dec: Decoder, wire: Frame -> seq<byte>, ok: Frame -> bool, f: Frame, rest: seq<byte>)
    requires Progress(dec) && Exact(dec, wire, ok) && ok(f)
    ensures var d := Drain(dec, rest); Drain(dec, wire(f) + rest) == Drained([f] + d.frames, d.left, d.status)
  {
    var b := wire(f) + rest;
    assert dec(b) == FrameReady(f, |wire(f)|);
    assert b[|wire(f)|..] == rest;
  }

  lemma {:induction false} DrainWires(
    dec: Decoder, wire: Frame -> seq<byte>, ok: Frame -> bool, frames: seq<Frame>, left: seq<byte>)
    requires Progress(dec) && Exact(dec, wire, ok) && AllIn(ok, frames)
    requires !dec(left).FrameReady?
    ensures Drain(dec, Wires(wire, frames) + left) == Drained(frames, left, dec(left))
  {
    if frames == [] {
      assert [] + left == left;
    } else {
      var f, more := frames[0], Wires(wire, frames[1..]);
      DrainWires(dec, wire, ok, frames[1..], left);
      DrainFirst(dec, wire, ok, f, more + left);
      Assoc(wire(f), more, left);
      assert frames == [f] + frames[1..];
    }
  }

  lemma WiresFirst(wire: Frame -> seq<byte>, ok: Frame -> bool, f: Frame, frames: seq<Frame>)
    requires ok(f) && AllIn(ok, frames)
    ensures AllIn(ok, [f] + frames)
    ensures Wires(wire, [f] + frames) == wire(f) + Wires(wire, frames)
  {
    assert ([f] + frames)[1..] == frames;
  }

  lemma FirstIsWire(dec: Decoder, wire: Frame -> seq<byte>, ok: Frame -> bool, b: seq<byte>)
    requires Exact(dec, wire, ok) && dec(b).FrameReady?
    ensures ok(dec(b).frame) && dec(b).consumed <= |b|
    ensures b == wire(dec(b).frame) + b[dec(b).consumed..]
  {
    assert b[..dec(b).consumed] == wire(dec(b).frame);
  }

  /** Whatever a drain yields, the buffer was those frames' encodings followed by what is left. */
  lemma {:induction false} DrainIsWires(
    dec: Decoder, wire: Frame -> seq<byte>, ok: Frame -> bool, b: seq<byte>)
    requires Progress(dec) && Exact(dec, wire, ok)
    ensures var d := Drain(dec, b);
      && AllIn(ok, d.frames)
      && b == Wires(wire, d.frames) + d.left
      && d.status == dec(d.left) && !d.status.FrameReady?
    decreases |b|
  {
    if dec(b).FrameReady? {
      var f, rest := dec(b).frame, b[dec(b).consumed..];
      var d := Drain(dec, rest);
      DrainIsWires(dec, wire, ok, rest);
      FirstIsWire(dec, wire, ok, b);
      WiresFirst(wire, ok, f, d.frames);
      Assoc(wire(f), Wires(wire, d.frames), d.left);
    }
  }
}
