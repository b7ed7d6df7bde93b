/**
 * Frame geometry and the page-major 1-bit layout of the ST7567 controller.
 * A raw frame is 64 rows of 128 grayscale bytes, row-major (pixel (y, x) at
 * index y * 128 + x). A packed frame is 8 pages of 128 bytes: byte p * 128 + x
 * holds the 8 pixels of column x in rows 8p .. 8p + 7, row 8p in bit 0.
 */
module Packing {
  import opened Bytes

  const Width: nat := 128
  const Height: nat := 64
  const Pages: nat := 8  // Height / 8
  const RawFrameBytes: nat := 8192  // Width * Height
  const PackedFrameBytes: nat := 1024  // Width * Pages

  /** A boolean mask over the whole frame, row-major; `true` is a set (dark) pixel. */
  type Mask = m: seq<bool> | |m| == RawFrameBytes witness seq(RawFrameBytes, _ => false)

  /** The eight pixels of column `x` in page `p`, top row first. */
  function Column(on: Mask, p: nat, x: nat): (c: seq<bool>)
    requires p < Pages && x < Width
    ensures |c| == 8
  {
    seq(8, i requires 0 <= i < 8 => on[(8 * p + i) * Width + x])
  }

  /** `np.packbits(on, axis=0, bitorder="little")` flattened page by page. */
  function Pack(on: Mask): (packed: seq<Byte>)
    ensures |packed| == PackedFrameBytes
  {
    seq(PackedFrameBytes, k requires 0 <= k < PackedFrameBytes =>
      FromBits(Column(on, k / Width, k % Width)))
  }

  /** The inverse layout: pixel (y, x) is bit y % 8 of byte (y / 8) * 128 + x. */
  function Unpack(packed: seq<Byte>): (on: Mask)
    requires |packed| == PackedFrameBytes
  {
    seq(RawFrameBytes, n requires 0 <= n < RawFrameBytes =>
      Bit(packed[(n / Width / 8) * Width + n % Width], (n / Width) % 8))
  }

  /** `~on`: every pixel flipped. */
  function Invert(on: Mask): (r: Mask)
    ensures forall n | 0 <= n < RawFrameBytes :: r[n] == !on[n]
  {
    seq(RawFrameBytes, n requires 0 <= n < RawFrameBytes => !on[n])
  }

  /** Bit i of packed byte p * 128 + x is pixel (8p + i, x). */
  lemma PackLayout(on: Mask, p: nat, x: nat, i: nat)
    requires p < Pages && x < Width && i < 8
    ensures Bit(Pack(on)[p * Width + x], i) == on[(8 * p + i) * Width + x]
  {
    var k := p * Width + x;
    assert k / Width == p && k % Width == x;
    BitOfFromBits(Column(on, p, x), i);
  }

  /** Unpacking a packed mask gives back the mask exactly. */
  lemma UnpackPack(on: Mask)
    ensures Unpack(Pack(on)) == on
  {
    forall n | 0 <= n < RawFrameBytes
      ensures Unpack(Pack(on))[n] == on[n]
    {
      var y, x := n / Width, n % Width;
      PackLayout(on, y / 8, x, y % 8);
      assert (8 * (y / 8) + y % 8) * Width + x == n;
    }
  }

  /** Packing an unpacked buffer gives back the buffer exactly. */
  lemma PackUnpack(packed: seq<Byte>)
    requires |packed| == PackedFrameBytes
    ensures Pack(Unpack(packed)) == packed
  {
    forall k | 0 <= k < PackedFrameBytes
      ensures Pack(Unpack(packed))[k] == packed[k]
    {
      PackUnpackByte(packed, k);
    }
  }

  lemma PackUnpackByte(packed: seq<Byte>, k: nat)
    requires |packed| == PackedFrameBytes && k < PackedFrameBytes
    ensures Pack(Unpack(packed))[k] == packed[k]
  {
    var p, x := k / Width, k % Width;
    ColumnOfUnpack(packed, p, x);
    FromToBits(packed[k], 8);
  }

  /** A column of an unpacked buffer is the bits of the byte it came from. */
  lemma ColumnOfUnpack(packed: seq<Byte>, p: nat, x: nat)
    requires |packed| == PackedFrameBytes && p < Pages && x < Width
    ensures p * Width + x < PackedFrameBytes
    ensures Column(Unpack(packed), p, x) == ToBits(packed[p * Width + x], 8)
  {
    var on := Unpack(packed);
    forall i | 0 <= i < 8
      ensures Column(on, p, x)[i] == ToBits(packed[p * Width + x], 8)[i]
    {
      var y := 8 * p + i;
      var n := y * Width + x;
      RowIndex(y, x);
      assert y / 8 == p && y % 8 == i;
      assert Unpack(packed)[n] == Bit(packed[p * Width + x], i);
    }
  }

  /** Pixel (y, x) sits at index y * 128 + x, and that index gives back its row and column. */
  lemma RowIndex(y: nat, x: nat)
    requires y < Height && x < Width
    ensures (y * Width + x) / Width == y && (y * Width + x) % Width == x
    ensures y * Width + x < RawFrameBytes
  {
  }

  /** With the mask inverted, every packed byte is the bitwise complement of the plain one. */
  lemma PackInvert(on: Mask)
    ensures forall k | 0 <= k < PackedFrameBytes :: Pack(Invert(on))[k] == 255 - Pack(on)[k]
  {
    forall k | 0 <= k < PackedFrameBytes
      ensures Pack(Invert(on))[k] == 255 - Pack(on)[k]
    {
      var p, x := k / Width, k % Width;
      assert Column(Invert(on), p, x) == Negate(Column(on, p, x));
      FromBitsNegate(Column(on, p, x));
    }
  }

  /** An all-clear mask packs to all 0x00 bytes and an all-set mask to all 0xFF bytes. */
  lemma PackUniform(value: bool)
    ensures Pack(seq(RawFrameBytes, _ => value)) == seq(PackedFrameBytes, _ => if value then 255 else 0)
  {
    var on: Mask := seq(RawFrameBytes, _ => value);
    forall k | 0 <= k < PackedFrameBytes
      ensures Pack(on)[k] == if value then 255 else 0
    {
      assert Column(on, k / Width, k % Width) == seq(8, _ => value);
      if value { FromBitsAllSet(8); } else { FromBitsAllClear(8); }
    }
  }
}
