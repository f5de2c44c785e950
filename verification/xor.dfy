/** Fixed and repeating-key XOR (main.go: FixedXor, RepeatingKeyXor). */
module Xor {
  import opened Bytes
  import opened Wrappers

  const SizeMismatch := "fixed xor size mismatch"

  /** Bytewise XOR of two buffers; buffers of different lengths are an error,
      never truncated or padded. */
  function FixedXor(a: seq<byte>, b: seq<byte>): (r: Result<seq<byte>>)
    ensures r.Err? <==> |a| != |b|
    ensures r.Err? ==> r.message == SizeMismatch
    ensures r.Ok? ==> |r.value| == |a|
    ensures r.Ok? ==> forall i :: 0 <= i < |a| ==> r.value[i] == a[i] ^ b[i]
  {
    if |a| != |b| then Err(SizeMismatch)
    else Ok(seq(|a|, i requires 0 <= i < |a| => a[i] ^ b[i]))
  }

  /** XOR-ing twice with the same pad gives the original buffer back. */
  lemma FixedXorInvolution(a: seq<byte>, b: seq<byte>)
    requires |a| == |b|
    ensures FixedXor(a, b).Ok?
    ensures FixedXor(FixedXor(a, b).value, b) == Ok(a)
  {
    var c := FixedXor(a, b).value;
    var d := FixedXor(c, b).value;
    assert forall i :: 0 <= i < |a| ==> d[i] == (a[i] ^ b[i]) ^ b[i] == a[i];
    assert d == a;
  }

  /** Single-byte XOR round trip: a pad of `n` copies of `k` undoes itself. */
  lemma SingleByteRoundTrip(p: seq<byte>, k: byte)
    ensures FixedXor(FixedXor(p, Repeat(k, |p|)).value, Repeat(k, |p|)) == Ok(p)
  {
    FixedXorInvolution(p, Repeat(k, |p|));
  }

  /** The `cypher` buffer of RepeatingKeyXor: `key` repeated cyclically to
      length `n`. An empty key is only harmless when nothing is to be
      filled. */
  function KeyStream(key: seq<byte>, n: nat): (r: seq<byte>)
    requires n > 0 ==> |key| > 0
    ensures |r| == n
    ensures forall i :: 0 <= i < n ==> r[i] == key[i % |key|]
  {
    seq(n, i requires 0 <= i < n => key[i % |key|])
  }

  /** XOR of `input` with `key` applied cyclically. The error FixedXor could
      report is never produced, because the key stream has the length of
      `input`. An empty key makes `i % len(key)` divide by zero in the
      source, unless the input is empty too and the loop never runs. */
  function RepeatingKeyXor(input: seq<byte>, key: seq<byte>): (r: Result<seq<byte>>)
    requires |input| > 0 ==> |key| > 0
    ensures r.Ok?
    ensures |r.value| == |input|
    ensures forall i :: 0 <= i < |input| ==> r.value[i] == input[i] ^ key[i % |key|]
  {
    FixedXor(input, KeyStream(key, |input|))
  }

  /** Encrypting twice with the same key restores the input. */
  lemma RepeatingKeyXorInvolution(input: seq<byte>, key: seq<byte>)
    requires |input| > 0 ==> |key| > 0
    ensures RepeatingKeyXor(RepeatingKeyXor(input, key).value, key) == Ok(input)
  {
    var c := RepeatingKeyXor(input, key).value;
    var d := RepeatingKeyXor(c, key).value;
    assert forall i :: 0 <= i < |input| ==> d[i] == (input[i] ^ key[i % |key|]) ^ key[i % |key|] == input[i];
    assert d == input;
  }

  /** A one-byte repeating key is the single-byte pad of DecryptSingleByteXor. */
  lemma OneByteKey(input: seq<byte>, k: byte)
    ensures RepeatingKeyXor(input, [k]) == FixedXor(input, Repeat(k, |input|))
  {
    assert KeyStream([k], |input|) == Repeat(k, |input|);
  }
}
