/**
 * Bytes as unbounded integers in 0..255 and the little-endian bit order that
 * `np.packbits(..., bitorder="little")` uses: the first boolean of a group of
 * eight is bit 0, the least significant one. The integer helpers `Min`, `Max`
 * and `Clamp` live here too, shared by the host and the device.
 */
module Bytes {

  type Byte = x: int | 0 <= x < 256

  function Min(a: int, b: int): int {
    if a <= b then a else b
  }

  function Max(a: int, b: int): int {
    if a >= b then a else b
  }

  /** `max(lo, min(hi, v))`: the nearest value to `v` in `lo..hi`. */
  function Clamp(v: int, lo: int, hi: int): (r: int)
    requires lo <= hi
    ensures lo <= r <= hi
    ensures lo <= v <= hi ==> r == v
  {
    if v < lo then lo else if v > hi then hi else v
  }

  function Pow2(n: nat): (r: nat)
    ensures r >= 1
  {
    if n == 0 then 1 else 2 * Pow2(n - 1)
  }

  /** The number whose bit `i` is `bits[i]` (bit 0 first). */
  function FromBits(bits: seq<bool>): (r: nat)
    ensures r < Pow2(|bits|)
  {
    if bits == [] then 0
    else (if bits[0] then 1 else 0) + 2 * FromBits(bits[1..])
  }

  /** Bit `i` of `b`, counting from the least significant bit. */
  function Bit(b: nat, i: nat): bool {
    if i == 0 then b % 2 == 1 else Bit(b / 2, i - 1)
  }

  /** The low `n` bits of `b`, least significant first. */
  function ToBits(b: nat, n: nat): (bits: seq<bool>)
    ensures |bits| == n
  {
    seq(n, i requires 0 <= i < n => Bit(b, i))
  }

  function Negate(bits: seq<bool>): (r: seq<bool>)
    ensures |r| == |bits|
  {
    seq(|bits|, i requires 0 <= i < |bits| => !bits[i])
  }

  /** Reading bit `i` back from `FromBits(bits)` gives `bits[i]`. */
  lemma {:induction false} BitOfFromBits(bits: seq<bool>, i: nat)
    requires i < |bits|
    ensures Bit(FromBits(bits), i) == bits[i]
  {
    if i > 0 {
      BitOfFromBits(bits[1..], i - 1);
    }
  }

  /** Every number below 2^n is the value of its own low `n` bits. */
  lemma {:induction false} FromToBits(b: nat, n: nat)
    requires b < Pow2(n)
    ensures FromBits(ToBits(b, n)) == b
  {
    if n > 0 {
      var bits := ToBits(b, n);
      assert bits[1..] == ToBits(b / 2, n - 1);
      FromToBits(b / 2, n - 1);
    }
  }

  /** Complementing every bit of an n-bit number gives 2^n - 1 minus the number. */
  lemma {:induction false} FromBitsNegate(bits: seq<bool>)
    ensures FromBits(Negate(bits)) == Pow2(|bits|) - 1 - FromBits(bits)
  {
    if bits != [] {
      assert Negate(bits)[1..] == Negate(bits[1..]);
      FromBitsNegate(bits[1..]);
    }
  }

  /** All bits clear is zero. */
  lemma {:induction false} FromBitsAllClear(n: nat)
    ensures FromBits(seq(n, _ => false)) == 0
  {
    if n > 0 {
      assert seq(n, _ => false)[1..] == seq(n - 1, _ => false);
      FromBitsAllClear(n - 1);
    }
  }

  /** All bits set is 2^n - 1. */
  lemma FromBitsAllSet(n: nat)
    ensures FromBits(seq(n, _ => true)) == Pow2(n) - 1
  {
    FromBitsAllClear(n);
    FromBitsNegate(seq(n, _ => false));
    assert Negate(seq(n, _ => false)) == seq(n, _ => true);
  }
}
