/** Fixed-width unsigned integers and their big-endian byte form. */
module Bytes {

  const U16_LIMIT: nat := 0x1_0000
  const U32_LIMIT: nat := 0x1_0000_0000
  const U64_LIMIT: nat := 0x1_0000_0000_0000_0000
  // std::numeric_limits<qsizetype>::max() on a 64-bit target
  const QSIZE_MAX: nat := 0x7FFF_FFFF_FFFF_FFFF

  type byte = x: int | 0 <= x < 256
  type u16 = x: int | 0 <= x < U16_LIMIT
  type u32 = x: int | 0 <= x < U32_LIMIT
  type u64 = x: int | 0 <= x < U64_LIMIT

  // A QByteArray: its size is a qsizetype.
  type QByteArray = s: seq<byte> | |s| <= QSIZE_MAX

  function Pow256(k: nat): (p: nat)
    ensures p > 0
  {
    if k == 0 then 1 else 256 * Pow256(k - 1)
  }

  function ToBigEndian(v: nat, k: nat): (b: seq<byte>)
    requires v < Pow256(k)
    ensures |b| == k
  {
    if k == 0 then [] else ToBigEndian(v / 256, k - 1) + [v % 256]
  }

  function FromBigEndian(b: seq<byte>): (v: nat)
    ensures v < Pow256(|b|)
  {
    if b == [] then 0 else 256 * FromBigEndian(b[..|b| - 1]) + b[|b| - 1]
  }

  lemma {:induction false} ReadWritten(v: nat, k: nat)
    requires v < Pow256(k)
    ensures FromBigEndian(ToBigEndian(v, k)) == v
  {
    if k > 0 {
      ReadWritten(v / 256, k - 1);
      var b := ToBigEndian(v, k);
      assert b[..k - 1] == ToBigEndian(v / 256, k - 1);
    }
  }

  lemma {:induction false} WriteRead(b: seq<byte>)
    ensures ToBigEndian(FromBigEndian(b), |b|) == b
  {
    if b != [] {
      var front, last := b[..|b| - 1], b[|b| - 1];
      var v := FromBigEndian(front);
      WriteRead(front);
      calc {
        ToBigEndian(FromBigEndian(b), |b|);
        ToBigEndian(256 * v + last, |front| + 1);
        { assert (256 * v + last) / 256 == v && (256 * v + last) % 256 == last; }
        ToBigEndian(v, |front|) + [last];
        front + [last];
        b;
      }
    }
  }

  lemma WidthLimits()
    ensures Pow256(2) == U16_LIMIT && Pow256(4) == U32_LIMIT && Pow256(8) == U64_LIMIT
  {
    assert Pow256(1) == 256;
    assert Pow256(2) == U16_LIMIT;
    assert Pow256(3) == 0x100_0000;
    assert Pow256(4) == U32_LIMIT;
    assert Pow256(5) == 0x100_0000_0000;
    assert Pow256(6) == 0x1_0000_0000_0000;
    assert Pow256(7) == 0x100_0000_0000_0000;
  }
}
