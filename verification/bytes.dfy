/** Bytes and the bit counting the Hamming distance is built on. */
module Bytes {

  type byte = bv8

  /** `n` copies of `b`, as `bytes.Repeat([]byte{b}, n)` builds them. */
  function Repeat(b: byte, n: nat): (r: seq<byte>)
    ensures |r| == n
    ensures forall i :: 0 <= i < n ==> r[i] == b
  {
    seq(n, _ => b)
  }

  /** Converting a number below 256 to a byte and back loses nothing. */
  lemma ByteOfInt(i: nat)
    requires i < 256
    ensures (i as byte) as int == i
  {
    if i < 16 {} else if i < 32 {} else if i < 64 {} else if i < 128 {} else {}
  }

  /** The number of set bits among the lowest `width` bits of `x`, taken one
      bit at a time from the bottom, the way the source shifts `xor` right. */
  function CountBits(x: byte, width: nat): (n: nat)
    requires width <= 8
    ensures n <= width
  {
    if width == 0 then 0 else (x & 1) as nat + CountBits(x >> 1, width - 1)
  }

  /** The byte whose lowest `width` bits are set. */
  function Mask(width: nat): byte
    requires width <= 8
  {
    if width == 0 then 0 else (Mask(width - 1) << 1) | 1
  }

  /** No bit is counted exactly when the lowest `width` bits of `x` are all clear. */
  lemma {:induction false} CountBitsZero(x: byte, width: nat)
    requires width <= 8
    ensures CountBits(x, width) == 0 <==> x & Mask(width) == 0
  {
    if width > 0 {
      CountBitsZero(x >> 1, width - 1);
      MaskStep(x, Mask(width - 1));
    }
  }

  /** The bits of `x` under a mask widened by one bit are clear exactly when
      bit 0 is clear and the remaining bits are clear under the old mask. */
  lemma MaskStep(x: byte, m: byte)
    ensures x & ((m << 1) | 1) == 0 <==> x & 1 == 0 && (x >> 1) & m == 0
  {
  }

  /** Population count of a byte. */
  function PopCount(x: byte): (n: nat)
    ensures n <= 8
    ensures n == 0 <==> x == 0
  {
    CountBitsZero(x, 8);
    assert Mask(8) == 0xFF;
    CountBits(x, 8)
  }

  /** The population count as the sum of the eight bits, one term per bit. */
  lemma PopCountBits(x: byte)
    ensures PopCount(x) == (x & 1) as nat + ((x >> 1) & 1) as nat + ((x >> 2) & 1) as nat
      + ((x >> 3) & 1) as nat + ((x >> 4) & 1) as nat + ((x >> 5) & 1) as nat
      + ((x >> 6) & 1) as nat + ((x >> 7) & 1) as nat
  {
    assert CountBits(x >> 7, 1) == ((x >> 7) & 1) as nat + CountBits(x >> 8, 0);
    assert CountBits(x >> 6, 2) == ((x >> 6) & 1) as nat + CountBits(x >> 7, 1);
    assert CountBits(x >> 5, 3) == ((x >> 5) & 1) as nat + CountBits(x >> 6, 2);
    assert CountBits(x >> 4, 4) == ((x >> 4) & 1) as nat + CountBits(x >> 5, 3);
    assert CountBits(x >> 3, 5) == ((x >> 3) & 1) as nat + CountBits(x >> 4, 4);
    assert CountBits(x >> 2, 6) == ((x >> 2) & 1) as nat + CountBits(x >> 3, 5);
    assert CountBits(x >> 1, 7) == ((x >> 1) & 1) as nat + CountBits(x >> 2, 6);
  }
}
