/** Brute force of a single-byte XOR key (main.go: DecryptSingleByteXor). */
module SingleByte {
  import opened Bytes
  import opened Xor
  import opened English

  /** A decrypted buffer together with the key byte that produced it. */
  datatype Decryption = Decryption(plaintext: seq<byte>, key: byte)

  /** `input` XOR-ed with `n` copies of `k`, the pad FixedXor is given.
      FixedXor cannot fail here: the pad has the length of the input. */
  function XorWithByte(input: seq<byte>, k: byte): (r: seq<byte>)
    ensures |r| == |input|
    ensures forall i :: 0 <= i < |input| ==> r[i] == input[i] ^ k
  {
    FixedXor(input, Repeat(k, |input|)).value
  }

  /** XOR-ing with one byte and then another is XOR-ing with their XOR. */
  lemma XorWithByteCompose(input: seq<byte>, k1: byte, k2: byte)
    ensures XorWithByte(XorWithByte(input, k1), k2) == XorWithByte(input, k1 ^ k2)
  {
    var l := XorWithByte(XorWithByte(input, k1), k2);
    var r := XorWithByte(input, k1 ^ k2);
    assert forall i :: 0 <= i < |input| ==> l[i] == (input[i] ^ k1) ^ k2 == r[i];
    assert l == r;
  }

  /** The array of 256 candidate slots: the loop fills slots 0 to 254 with
      the input decrypted under that key, and slot 255 stays empty. */
  function Candidates(input: seq<byte>): (c: seq<seq<byte>>)
    ensures |c| == 256
    ensures c[255] == []
  {
    seq(256, i requires 0 <= i < 256 => if i < 255 then XorWithByte(input, i as byte) else [])
  }

  /** Slot `k` below 255 holds the input decrypted under key `k`. */
  lemma CandidateSlot(input: seq<byte>, k: nat)
    requires k < 255
    ensures Candidates(input)[k] == XorWithByte(input, k as byte)
  {
  }

  /** The decryption under the key TopEnglishIndex picks among the candidate
      slots. Key 255 is never returned: its empty slot scores 0, which cannot
      beat the argmax's initial 0.0. */
  function DecryptSingleByteXor(input: seq<byte>): (r: Decryption)
    ensures r.key as int < 255
    ensures |r.plaintext| == |input|
    ensures r.plaintext == XorWithByte(input, r.key)
    ensures r.plaintext == Candidates(input)[r.key as int]
  {
    var candidates := Candidates(input);
    var idx := TopEnglishIndex(candidates);
    assert Score(candidates[255]) == 0.0;
    assert idx < 255;
    ByteOfInt(idx);
    CandidateSlot(input, idx);
    Decryption(candidates[idx], idx as byte)
  }

  /** The key found is the first of keys 0 to 254 whose decryption scores
      highest; when no key gives a positive score it is key 0, and the
      plaintext is the input itself. */
  lemma DecryptSingleByteXorBest(input: seq<byte>)
    ensures var r := DecryptSingleByteXor(input);
      (forall k :: 0 <= k < 255 ==> Score(Candidates(input)[k]) <= 0.0) ==> r.key == 0
    ensures var r := DecryptSingleByteXor(input);
      (exists k :: 0 <= k < 255 && Score(Candidates(input)[k]) > 0.0) ==>
      && Score(r.plaintext) > 0.0
      && (forall k :: 0 <= k < 255 ==> Score(Candidates(input)[k]) <= Score(r.plaintext))
      && (forall k :: 0 <= k < r.key as int ==> Score(Candidates(input)[k]) < Score(r.plaintext))
  {
    var c := Candidates(input);
    var idx := TopEnglishIndex(c);
    assert Score(c[255]) == 0.0;
    assert idx < 255;
    ByteOfInt(idx);
  }

  /** When the key found is the one the plaintext was encrypted with, the
      decryption is that plaintext. */
  lemma RecoversPlaintext(p: seq<byte>, k: byte)
    requires DecryptSingleByteXor(XorWithByte(p, k)).key == k
    ensures DecryptSingleByteXor(XorWithByte(p, k)).plaintext == p
  {
    XorWithByteCompose(p, k, k);
    assert XorWithByte(p, 0) == p;
  }
}
