/** Bit-level distance between byte buffers (main.go: HammingDistance). */
module Hamming {
  import opened Bytes
  import opened Wrappers

  const LenMismatch := "len mismatch"

  /** Reference definition: the population counts of the bytewise XOR,
      summed over all positions. */
  function BitDistance(a: seq<byte>, b: seq<byte>): (d: nat)
    requires |a| == |b|
    ensures d <= 8 * |a|
    decreases |a|
  {
    if |a| == 0 then 0
    else BitDistance(a[..|a| - 1], b[..|b| - 1]) + PopCount(a[|a| - 1] ^ b[|b| - 1])
  }

  /** The number of differing bits; buffers of different lengths are an error. */
  function HammingDistance(a: seq<byte>, b: seq<byte>): (r: Result<nat>)
    ensures r.Err? <==> |a| != |b|
    ensures r.Err? ==> r.message == LenMismatch
    ensures r.Ok? ==> r.value <= 8 * |a|
  {
    if |a| != |b| then Err(LenMismatch) else Ok(BitDistance(a, b))
  }

  lemma {:induction false} BitDistanceSymmetric(a: seq<byte>, b: seq<byte>)
    requires |a| == |b|
    ensures BitDistance(a, b) == BitDistance(b, a)
    decreases |a|
  {
    if |a| > 0 {
      BitDistanceSymmetric(a[..|a| - 1], b[..|b| - 1]);
      assert a[|a| - 1] ^ b[|b| - 1] == b[|b| - 1] ^ a[|a| - 1];
    }
  }

  lemma {:induction false} BitDistanceZero(a: seq<byte>, b: seq<byte>)
    requires |a| == |b|
    ensures BitDistance(a, b) == 0 <==> a == b
    decreases |a|
  {
    if |a| > 0 {
      var n := |a| - 1;
      BitDistanceZero(a[..n], b[..n]);
      assert a == a[..n] + [a[n]] && b == b[..n] + [b[n]];
      assert a[n] ^ b[n] == 0 <==> a[n] == b[n];
    }
  }

  /** Distance is symmetric, and zero exactly between equal buffers. */
  lemma HammingDistanceMetric(a: seq<byte>, b: seq<byte>)
    ensures HammingDistance(a, b) == HammingDistance(b, a)
    ensures HammingDistance(a, b) == Ok(0) <==> a == b
  {
    if |a| == |b| {
      BitDistanceSymmetric(a, b);
      BitDistanceZero(a, b);
    }
  }

  /** Shifting right by one keeps a value within one bit fewer. */
  lemma ShiftKeepsMask(x: byte, width: nat)
    requires 0 < width <= 8
    requires x & Mask(width) == x
    ensures (x >> 1) & Mask(width - 1) == x >> 1
  {
    var m := Mask(width - 1);
    assert Mask(width) == (m << 1) | 1;
    assert (x >> 1) & m == x >> 1;
  }

  /** The source's inner loop: shift the XOR of two bytes right until it
      is zero, adding its low bit each time. */
  method CountSetBits(x: byte) returns (n: nat)
    ensures n == PopCount(x)
  {
    var xor := x;
    n := 0;
    ghost var width: nat := 8;
    assert Mask(8) == 0xFF;
    while xor != 0
      invariant width <= 8
      invariant xor & Mask(width) == xor
      invariant n + CountBits(xor, width) == PopCount(x)
      decreases width
    {
      ShiftKeepsMask(xor, width);
      n := n + (xor & 1) as nat;
      xor := xor >> 1;
      width := width - 1;
    }
    CountBitsZero(xor, width);
  }

  /** The source's outer loop over positions, adding each position's count
      of set bits in the XOR. */
  method HammingDistanceLoop(a: seq<byte>, b: seq<byte>) returns (r: Result<nat>)
    ensures r == HammingDistance(a, b)
  {
    if |a| != |b| {
      return Err(LenMismatch);
    }
    var distance := 0;
    for i := 0 to |a|
      invariant distance == BitDistance(a[..i], b[..i])
    {
      var bits := CountSetBits(a[i] ^ b[i]);
      distance := distance + bits;
      assert a[..i + 1][..i] == a[..i] && b[..i + 1][..i] == b[..i];
    }
    assert a[..|a|] == a && b[..|b|] == b;
    return Ok(distance);
  }

  /** The ASCII bytes of "this is a test", the first text of the worked example. */
  const ThisIsATest: seq<byte> := [0x74, 0x68, 0x69, 0x73, 0x20, 0x69, 0x73, 0x20, 0x61, 0x20, 0x74, 0x65, 0x73, 0x74]

  /** The ASCII bytes of "wokka wokka!!!", the second text of the worked example. */
  const WokkaWokka: seq<byte> := [0x77, 0x6F, 0x6B, 0x6B, 0x61, 0x20, 0x77, 0x6F, 0x6B, 0x6B, 0x61, 0x21, 0x21, 0x21]

  /** Extending both buffers by one byte adds that position's bit count. */
  lemma BitDistanceSnoc(a: seq<byte>, b: seq<byte>, k: nat)
    requires |a| == |b| && k < |a|
    ensures BitDistance(a[..k + 1], b[..k + 1]) == BitDistance(a[..k], b[..k]) + PopCount(a[k] ^ b[k])
  {
    assert a[..k + 1][..k] == a[..k] && b[..k + 1][..k] == b[..k];
  }

  /** Bit counts of the XORs at positions 0 to 6 of the worked example below. */
  lemma ExamplePopCountsLow()
    ensures PopCount(0x03) == 2
    ensures PopCount(0x07) == 3
    ensures PopCount(0x02) == 1
    ensures PopCount(0x18) == 2
    ensures PopCount(0x41) == 2
    ensures PopCount(0x49) == 3
    ensures PopCount(0x04) == 1
  {
    PopCountBits(0x03);
    PopCountBits(0x07);
    PopCountBits(0x02);
    PopCountBits(0x18);
    PopCountBits(0x41);
    PopCountBits(0x49);
    PopCountBits(0x04);
  }

  /** Bit counts of the XORs at positions 7 to 13 of the worked example below. */
  lemma ExamplePopCountsHigh()
    ensures PopCount(0x4F) == 5
    ensures PopCount(0x0A) == 2
    ensures PopCount(0x4B) == 4
    ensures PopCount(0x15) == 3
    ensures PopCount(0x44) == 2
    ensures PopCount(0x52) == 3
    ensures PopCount(0x55) == 4
  {
    PopCountBits(0x4F);
    PopCountBits(0x0A);
    PopCountBits(0x4B);
    PopCountBits(0x15);
    PopCountBits(0x44);
    PopCountBits(0x52);
    PopCountBits(0x55);
  }

  /** The distance over the first seven positions of the example buffers. */
  lemma ExampleDistancePrefix()
    ensures BitDistance(ThisIsATest[..7], WokkaWokka[..7]) == 14
  {
    var a, b := ThisIsATest, WokkaWokka;
    ExamplePopCountsLow();
    assert BitDistance(a[..0], b[..0]) == 0;
    assert a[0] ^ b[0] == 0x03;
    BitDistanceSnoc(a, b, 0);
    assert BitDistance(a[..1], b[..1]) == 2;
    assert a[1] ^ b[1] == 0x07;
    BitDistanceSnoc(a, b, 1);
    assert BitDistance(a[..2], b[..2]) == 5;
    assert a[2] ^ b[2] == 0x02;
    BitDistanceSnoc(a, b, 2);
    assert BitDistance(a[..3], b[..3]) == 6;
    assert a[3] ^ b[3] == 0x18;
    BitDistanceSnoc(a, b, 3);
    assert BitDistance(a[..4], b[..4]) == 8;
    assert a[4] ^ b[4] == 0x41;
    BitDistanceSnoc(a, b, 4);
    assert BitDistance(a[..5], b[..5]) == 10;
    assert a[5] ^ b[5] == 0x49;
    BitDistanceSnoc(a, b, 5);
    assert BitDistance(a[..6], b[..6]) == 13;
    assert a[6] ^ b[6] == 0x04;
    BitDistanceSnoc(a, b, 6);
    assert BitDistance(a[..7], b[..7]) == 14;
  }

  /** The distance between the example buffers, taken one position at a time. */
  lemma ExampleDistance()
    ensures BitDistance(ThisIsATest, WokkaWokka) == 37
  {
    var a, b := ThisIsATest, WokkaWokka;
    ExamplePopCountsHigh();
    ExampleDistancePrefix();
    assert a[7] ^ b[7] == 0x4F;
    BitDistanceSnoc(a, b, 7);
    assert BitDistance(a[..8], b[..8]) == 19;
    assert a[8] ^ b[8] == 0x0A;
    BitDistanceSnoc(a, b, 8);
    assert BitDistance(a[..9], b[..9]) == 21;
    assert a[9] ^ b[9] == 0x4B;
    BitDistanceSnoc(a, b, 9);
    assert BitDistance(a[..10], b[..10]) == 25;
    assert a[10] ^ b[10] == 0x15;
    BitDistanceSnoc(a, b, 10);
    assert BitDistance(a[..11], b[..11]) == 28;
    assert a[11] ^ b[11] == 0x44;
    BitDistanceSnoc(a, b, 11);
    assert BitDistance(a[..12], b[..12]) == 30;
    assert a[12] ^ b[12] == 0x52;
    BitDistanceSnoc(a, b, 12);
    assert BitDistance(a[..13], b[..13]) == 33;
    assert a[13] ^ b[13] == 0x55;
    BitDistanceSnoc(a, b, 13);
    assert BitDistance(a[..14], b[..14]) == 37;
    assert a[..14] == a && b[..14] == b;
  }

  /** The worked example the cryptanalysis exercise gives for the distance. */
  lemma WokkaExample()
    ensures HammingDistance(ThisIsATest, WokkaWokka) == Ok(37)
  {
    ExampleDistance();
  }
}
