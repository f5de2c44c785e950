/** The whole repeating-key XOR attack: key-size estimate, transposition,
    one single-byte break per column, key assembly and final decryption
    (main.go: BreakRepeatingKeyXor). */
module BreakRepeating {
  import opened Bytes
  import opened Wrappers
  import opened Xor
  import opened SingleByte
  import opened KeyLength
  import opened Transposition

  /** The decrypted buffer and the key recovered for it. */
  datatype Broken = Broken(plaintext: seq<byte>, key: seq<byte>)

  /** Key byte `j` is the single-byte key found for column `j`. */
  function AssembleKey(cols: seq<seq<byte>>): (key: seq<byte>)
    ensures |key| == |cols|
    ensures forall j :: 0 <= j < |cols| ==> key[j] == DecryptSingleByteXor(cols[j]).key
    ensures forall j :: 0 <= j < |cols| ==> key[j] as int < 255
  {
    seq(|cols|, j requires 0 <= j < |cols| => DecryptSingleByteXor(cols[j]).key)
  }

  /** Lines 189-207 of the attack for a chosen key size: transpose, break
      each column as single-byte XOR, assemble the key and decrypt. */
  function BreakWithKeySize(input: seq<byte>, ks: nat): (b: Broken)
    requires 0 < ks
    ensures |b.key| == ks
    ensures forall j :: 0 <= j < ks ==> b.key[j] == DecryptSingleByteXor(Column(input, ks, j)).key
    ensures |b.plaintext| == |input|
    ensures forall i :: 0 <= i < |input| ==> b.plaintext[i] == input[i] ^ b.key[i % ks]
  {
    var transposed := Transpose(input, ks);
    var key := AssembleKey(transposed);
    var decrypted := RepeatingKeyXor(input, key);
    Broken(decrypted.value, key)
  }

  /** The attack end to end. The input must hold the four blocks of the
      largest key size tried, 160 bytes; below that the source's slices run
      past the input's length. The error the key-size loop could return
      never arises. */
  method BreakRepeatingKeyXor(input: seq<byte>) returns (r: Result<Broken>)
    requires |input| >= MinInputLength
    ensures r.Ok?
    ensures IsBestKeySize(input, |r.value.key|)
    ensures r.value == BreakWithKeySize(input, |r.value.key|)
  {
    var estimate := EstimateKeySize(input);
    match estimate
    case Err(e) =>
      return Err(e);
    case Ok(ks) =>
      return Ok(BreakWithKeySize(input, ks));
  }

  /** Every column the attack breaks is non-empty: the input is longer
      than any key size tried. */
  lemma ColumnsNonEmpty(input: seq<byte>, ks: nat, j: nat)
    requires |input| >= MinInputLength
    requires IsBestKeySize(input, ks)
    requires j < ks
    ensures |Column(input, ks, j)| > 0
  {
    ColumnNonEmpty(input, ks, j);
  }

  /** Byte `m` of column `j` of a repeating-key decryption is byte `m` of
      column `j` of the input XOR-ed with key byte `j`. */
  lemma ColumnByteOfRepeatingKeyXor(input: seq<byte>, key: seq<byte>, out: seq<byte>, j: nat, m: nat)
    requires j < |key| && RepeatingKeyXor(input, key) == Ok(out)
    requires m < |Column(input, |key|, j)|
    ensures m < |Column(out, |key|, j)|
    ensures Column(out, |key|, j)[m] == Column(input, |key|, j)[m] ^ key[j]
  {
    var k := |key|;
    ColumnLengthOnly(out, input, k, j);
    assert m < |Column(out, k, j)|;
    ColumnValue(out, k, j, m);
    ColumnValue(input, k, j, m);
    StrideOffset(j, m, k);
    var i := j + Stride(m, k);
    assert i < |input|;
    assert i % k == j;
    RepeatingKeyXorAt(input, key, i, j);
    assert out[i] == input[i] ^ key[j];
  }

  /** A byte whose offset lies in column `j` is XOR-ed with key byte `j`. */
  lemma RepeatingKeyXorAt(input: seq<byte>, key: seq<byte>, i: nat, j: nat)
    requires i < |input|
    requires j < |key|
    requires i % |key| == j
    ensures i < |RepeatingKeyXor(input, key).value|
    ensures RepeatingKeyXor(input, key).value[i] == input[i] ^ key[j]
  {
  }

  /** Column `j` of a repeating-key decryption is column `j` of the input
      XOR-ed with key byte `j` alone. */
  lemma ColumnOfRepeatingKeyXor(input: seq<byte>, key: seq<byte>, j: nat)
    requires j < |key|
    ensures Column(RepeatingKeyXor(input, key).value, |key|, j)
         == XorWithByte(Column(input, |key|, j), key[j])
  {
    var left := Column(RepeatingKeyXor(input, key).value, |key|, j);
    var right := XorWithByte(Column(input, |key|, j), key[j]);
    ColumnLengthOnly(RepeatingKeyXor(input, key).value, input, |key|, j);
    forall m | 0 <= m < |left|
      ensures left[m] == right[m]
    {
      ColumnByteOfRepeatingKeyXor(input, key, RepeatingKeyXor(input, key).value, j, m);
    }
  }

  /** Reading the final plaintext column by column gives exactly the
      single-byte decryption of each ciphertext column. */
  lemma ColumnsDecrypt(input: seq<byte>, ks: nat, j: nat)
    requires j < ks
    ensures var b := BreakWithKeySize(input, ks);
      Column(b.plaintext, ks, j) == DecryptSingleByteXor(Column(input, ks, j)).plaintext
  {
    var b := BreakWithKeySize(input, ks);
    ColumnOfRepeatingKeyXor(input, b.key, j);
    assert b.plaintext == RepeatingKeyXor(input, b.key).value;
  }

  /** When the key recovered at the right key size is the key the plaintext
      was encrypted with, the recovered plaintext is the original one. */
  lemma RecoversPlaintext(p: seq<byte>, key: seq<byte>)
    requires |key| > 0
    requires BreakWithKeySize(RepeatingKeyXor(p, key).value, |key|).key == key
    ensures BreakWithKeySize(RepeatingKeyXor(p, key).value, |key|).plaintext == p
  {
    var c := RepeatingKeyXor(p, key).value;
    var b := BreakWithKeySize(c, |key|);
    RepeatingKeyXorInvolution(p, key);
    assert b.plaintext == RepeatingKeyXor(c, key).value;
  }
}
