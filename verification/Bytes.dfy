/** Big-endian byte encodings of fixed-width integers. */
module Bytes {
  import opened Basics

  const MAX_INT64: int := 0x7FFF_FFFF_FFFF_FFFF
  const MIN_INT64: int := -0x8000_0000_0000_0000

  type int64 = x: int | MIN_INT64 <= x <= MAX_INT64

  function Pow256(k: nat): (p: nat)
    ensures p > 0
  {
    if k == 0 then 1 else 256 * Pow256(k - 1)
  }

  /** The k bytes of n, most significant first. */
  function BigEndian(n: nat, k: nat): (b: bytes)
    ensures |b| == k
  {
    if k == 0 then [] else BigEndian(n / 256, k - 1) + [n % 256]
  }

  function FromBigEndian(b: bytes): (n: nat)
    ensures n < Pow256(|b|)
  {
    if b == [] then 0 else FromBigEndian(b[..|b| - 1]) * 256 + b[|b| - 1]
  }

  lemma DivBelow(n: nat, p: nat)
    requires n < 256 * p
    ensures n / 256 < p
  {
  }

  lemma LastByte(b: bytes, front: bytes, last: byte)
    requires b == front + [last]
    ensures FromBigEndian(b) == FromBigEndian(front) * 256 + last
  {
    assert b[..|b| - 1] == front;
  }

  lemma {:induction false} DecodeEncoded(n: nat, k: nat)
    requires n < Pow256(k)
    ensures FromBigEndian(BigEndian(n, k)) == n
  {
    if k == 0 {
    } else {
      hide FromBigEndian;
      var b, front := BigEndian(n, k), BigEndian(n / 256, k - 1);
      DivBelow(n, Pow256(k - 1));
      DecodeEncoded(n / 256, k - 1);
      LastByte(b, front, n % 256);
    }
  }

  lemma {:induction false} EncodeDecoded(b: bytes)
    ensures BigEndian(FromBigEndian(b), |b|) == b
  {
    if b != [] {
      var n := FromBigEndian(b);
      assert n / 256 == FromBigEndian(b[..|b| - 1]) && n % 256 == b[|b| - 1];
      EncodeDecoded(b[..|b| - 1]);
    }
  }

  function BE16(n: uint16): (b: bytes)
    ensures |b| == 2
  {
    [n / 256, n % 256]
  }

  function ReadBE16(b: bytes): uint16
    requires |b| >= 2
  {
    (b[0] as int) * 256 + b[1]
  }

  lemma Pow256Of8()
    ensures Pow256(8) == 0x1_0000_0000_0000_0000
  {
    assert Pow256(4) == 0x1_0000_0000;
    assert Pow256(8) == 256 * 256 * 256 * 256 * Pow256(4);
  }

  function BE64(n: uint64): (b: bytes)
    ensures |b| == 8 && ReadBE64(b) == n
  {
    Pow256Of8();
    DecodeEncoded(n, 8);
    BigEndian(n, 8)
  }

  function ReadBE64(b: bytes): uint64
    requires |b| == 8
  {
    Pow256Of8();
    FromBigEndian(b)
  }

  /** The most significant byte comes first. */
  lemma ReadsBigEndian(b: bytes)
    requires |b| == 8
    ensures ReadBE64(b) == (b[0] as int) * 0x100_0000_0000_0000 + (b[1] as int) * 0x1_0000_0000_0000
      + (b[2] as int) * 0x100_0000_0000 + (b[3] as int) * 0x1_0000_0000
      + (b[4] as int) * 0x100_0000 + (b[5] as int) * 0x1_0000 + (b[6] as int) * 0x100 + b[7]
  {
    FourBytes([], b[..4]);
    FourBytes(b[..4], b[4..]);
    assert b[..4] + b[4..] == b && [] + b[..4] == b[..4];
  }

  lemma FourBytes(front: bytes, b: bytes)
    requires |b| == 4
    ensures FromBigEndian(front + b) == FromBigEndian(front) * 0x1_0000_0000
      + (b[0] as int) * 0x100_0000 + (b[1] as int) * 0x1_0000 + (b[2] as int) * 0x100 + b[3]
  {
    hide FromBigEndian;
    LastByte(front + b[..1], front, b[0]);
    LastByte(front + b[..2], front + b[..1], b[1]);
    LastByte(front + b[..3], front + b[..2], b[2]);
    LastByte(front + b, front + b[..3], b[3]);
  }

  /** Go's uint64(t) and int64(u): the bits of a two's complement number, kept. */
  function ToUint64(t: int64): uint64 {
    if t < 0 then t + 0x1_0000_0000_0000_0000 else t
  }

  function ToInt64(u: uint64): int64 {
    if u > MAX_INT64 then u - 0x1_0000_0000_0000_0000 else u
  }

  /** Writes `src` into the buffer from position `at` on, as Go's copy and the Put functions do. */
  method CopyInto(buf: array<byte>, at: nat, src: bytes)
    requires at + |src| <= buf.Length
    modifies buf
    ensures buf[..] == old(buf[..at]) + src + old(buf[at + |src|..])
  {
    for i := 0 to |src|
      invariant buf[..at] == old(buf[..at])
      invariant buf[at..at + i] == src[..i]
      invariant buf[at + i..] == old(buf[at + i..])
    {
      buf[at + i] := src[i];
    }
  }
}
