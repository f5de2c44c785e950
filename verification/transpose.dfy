/** Transposition of a buffer into `ks` columns, one per key byte
    (main.go: BreakRepeatingKeyXor, lines 189-194). */
module Transposition {
  import opened Bytes

  /** Reference definition: every `ks`-th byte of `input` starting at offset
      `j`, that is input[j], input[j + ks], input[j + 2 * ks], ... */
  function Column(input: seq<byte>, ks: nat, j: nat): seq<byte>
    requires j < ks
    decreases |input|
  {
    if |input| <= j then []
    else [input[j]] + Column(input[if |input| < ks then |input| else ks..], ks, j)
  }

  /** `m * ks`, built up one stride at a time so that the inductive proofs
      below stay linear. */
  function Stride(m: nat, ks: nat): nat
  {
    if m == 0 then 0 else Stride(m - 1, ks) + ks
  }

  /** The stride is the product. */
  lemma {:induction false} StrideProduct(m: nat, ks: nat)
    ensures Stride(m, ks) == m * ks
  {
    if m > 0 {
      StrideProduct(m - 1, ks);
      assert m * ks == (m - 1) * ks + ks;
    }
  }

  /** Position `m` of column `j` exists exactly when `j + m * ks` is a
      position of the input. */
  lemma {:induction false} ColumnHas(input: seq<byte>, ks: nat, j: nat, m: nat)
    requires j < ks
    ensures m < |Column(input, ks, j)| <==> j + Stride(m, ks) < |input|
    decreases m
  {
    if m > 0 && |input| > j {
      var n := if |input| < ks then |input| else ks;
      ColumnHas(input[n..], ks, j, m - 1);
    }
  }

  /** Position `m` of column `j` holds byte `j + m * ks` of the input. */
  lemma {:induction false} ColumnValue(input: seq<byte>, ks: nat, j: nat, m: nat)
    requires j < ks && m < |Column(input, ks, j)|
    ensures j + Stride(m, ks) < |input|
    ensures Column(input, ks, j)[m] == input[j + Stride(m, ks)]
    decreases m
  {
    ColumnHas(input, ks, j, m);
    if m > 0 {
      var rest := input[ks..];
      ColumnValue(rest, ks, j, m - 1);
      var p := j + Stride(m - 1, ks);
      calc {
        Column(input, ks, j)[m];
        Column(rest, ks, j)[m - 1];
        rest[p];
        input[p + ks];
        { assert p + ks == j + Stride(m, ks); }
        input[j + Stride(m, ks)];
      }
    }
  }

  /** Position `m` of column `j` exists exactly when `j + m * ks` is a
      position of the input, and then holds that byte. */
  lemma ColumnAt(input: seq<byte>, ks: nat, j: nat, m: nat)
    requires j < ks
    ensures m < |Column(input, ks, j)| <==> j + m * ks < |input|
    ensures m < |Column(input, ks, j)| ==> Column(input, ks, j)[m] == input[j + m * ks]
  {
    ColumnHas(input, ks, j, m);
    if m < |Column(input, ks, j)| {
      ColumnValue(input, ks, j, m);
    }
    StrideProduct(m, ks);
  }

  /** Every position `j + m * ks` of the input is element `m` of column `j`. */
  lemma ColumnIndex(input: seq<byte>, ks: nat, j: nat, m: nat)
    requires j < ks && j + m * ks < |input|
    ensures m < |Column(input, ks, j)|
    ensures Column(input, ks, j)[m] == input[j + m * ks]
  {
    ColumnAt(input, ks, j, m);
  }

  /** Columns of equally long inputs are equally long. */
  lemma {:induction false} ColumnLengthOnly(a: seq<byte>, b: seq<byte>, ks: nat, j: nat)
    requires j < ks && |a| == |b|
    ensures |Column(a, ks, j)| == |Column(b, ks, j)|
    decreases |a|
  {
    if |a| > j {
      var n := if |a| < ks then |a| else ks;
      ColumnLengthOnly(a[n..], b[n..], ks, j);
    }
  }

  /** Adding `k` does not change the remainder modulo `k`. */
  lemma ModShift(x: nat, k: nat)
    requires k > 0
    ensures (x + k) % k == x % k
  {
    var q, r := x / k, x % k;
    var q2, r2 := (x + k) / k, (x + k) % k;
    assert x == q * k + r && x + k == q2 * k + r2;
    var d := q + 1 - q2;
    assert d * k == r2 - r;
    assert d >= 1 ==> d * k >= k;
    assert d <= -1 ==> d * k + k <= 0;
  }

  /** Offsets `j`, `j + ks`, `j + 2 * ks`, ... all lie in column `j`. */
  lemma {:induction false} ColumnOffset(j: nat, m: nat, ks: nat)
    requires j < ks
    ensures (j + m * ks) % ks == j
  {
    if m > 0 {
      ColumnOffset(j, m - 1, ks);
      ModShift(j + (m - 1) * ks, ks);
      assert j + m * ks == (j + (m - 1) * ks) + ks;
    }
  }

  /** The repeated-addition form of the same fact. */
  lemma StrideOffset(j: nat, m: nat, ks: nat)
    requires j < ks
    ensures (j + Stride(m, ks)) % ks == j
  {
    StrideProduct(m, ks);
    ColumnOffset(j, m, ks);
  }

  /** Column `j` is non-empty whenever the input reaches offset `j`. */
  lemma ColumnNonEmpty(input: seq<byte>, ks: nat, j: nat)
    requires j < ks && j < |input|
    ensures |Column(input, ks, j)| > 0
  {
  }

  /** Byte `i` of the input is element `i / ks` of column `i % ks`: the
      columns interleaved give the input back. */
  lemma Reconstruct(input: seq<byte>, ks: nat, i: nat)
    requires 0 < ks && i < |input|
    ensures i / ks < |Column(input, ks, i % ks)|
    ensures Column(input, ks, i % ks)[i / ks] == input[i]
  {
    var q, r := i / ks, i % ks;
    assert r + q * ks == i;
    ColumnIndex(input, ks, r, q);
  }

  /** Column lengths differ by at most one, the earlier columns being the
      longer ones. */
  lemma ColumnLengths(input: seq<byte>, ks: nat, j1: nat, j2: nat)
    requires j1 < j2 < ks
    ensures |Column(input, ks, j2)| <= |Column(input, ks, j1)| <= |Column(input, ks, j2)| + 1
  {
    var l1, l2 := |Column(input, ks, j1)|, |Column(input, ks, j2)|;
    ColumnAt(input, ks, j1, l1);
    ColumnAt(input, ks, j2, l2);
    if l2 > 0 {
      ColumnAt(input, ks, j2, l2 - 1);
      ColumnAt(input, ks, j1, l2 - 1);
    }
    if l1 > 1 {
      ColumnAt(input, ks, j1, l1 - 1);
      ColumnAt(input, ks, j2, l1 - 2);
      assert j2 + (l1 - 2) * ks == j2 - ks + (l1 - 1) * ks;
    }
  }

  /** The chunk's byte `idx` is appended to column `idx`; columns past the
      end of a short last chunk are left alone. */
  function AppendChunk(cols: seq<seq<byte>>, chunk: seq<byte>): (r: seq<seq<byte>>)
    requires |chunk| <= |cols|
    ensures |r| == |cols|
    ensures forall idx :: 0 <= idx < |chunk| ==> r[idx] == cols[idx] + [chunk[idx]]
    ensures forall idx :: |chunk| <= idx < |cols| ==> r[idx] == cols[idx]
  {
    seq(|cols|, idx requires 0 <= idx < |cols| =>
      if idx < |chunk| then cols[idx] + [chunk[idx]] else cols[idx])
  }

  /** The source's loop over `slices.Chunk(rest, ks)`: chunks of `ks` bytes
      taken in order, the last one possibly shorter. */
  function TransposeFrom(rest: seq<byte>, ks: nat, cols: seq<seq<byte>>): (r: seq<seq<byte>>)
    requires 0 < ks && |cols| == ks
    ensures |r| == ks
    decreases |rest|
  {
    if |rest| == 0 then cols
    else
      var n := if |rest| < ks then |rest| else ks;
      TransposeFrom(rest[n..], ks, AppendChunk(cols, rest[..n]))
  }

  /** Processing the remaining chunks appends to each column the matching
      column of what remains. */
  lemma {:induction false} TransposeFromColumns(rest: seq<byte>, ks: nat, cols: seq<seq<byte>>)
    requires 0 < ks && |cols| == ks
    ensures forall j :: 0 <= j < ks ==> TransposeFrom(rest, ks, cols)[j] == cols[j] + Column(rest, ks, j)
    decreases |rest|
  {
    if |rest| > 0 {
      var n := if |rest| < ks then |rest| else ks;
      var next := AppendChunk(cols, rest[..n]);
      TransposeFromColumns(rest[n..], ks, next);
      forall j | 0 <= j < ks
        ensures TransposeFrom(rest, ks, cols)[j] == cols[j] + Column(rest, ks, j)
      {
        if j < n {
          assert next[j] + Column(rest[n..], ks, j) == cols[j] + ([rest[j]] + Column(rest[n..], ks, j));
        } else {
          assert rest[n..] == [];
        }
      }
    }
  }

  /** The `ks` columns of `input`, built chunk by chunk from empty columns. */
  function Transpose(input: seq<byte>, ks: nat): (t: seq<seq<byte>>)
    requires 0 < ks
    ensures |t| == ks
    ensures forall j :: 0 <= j < ks ==> t[j] == Column(input, ks, j)
  {
    var empty := seq(ks, _ => []);
    TransposeFromColumns(input, ks, empty);
    TransposeFrom(input, ks, empty)
  }
}
