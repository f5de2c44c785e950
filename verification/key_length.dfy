/** Estimation of the repeating key's length from normalised Hamming
    distances (main.go: BreakRepeatingKeyXor, lines 158-187). */
module KeyLength {
  import opened Bytes
  import opened Wrappers
  import opened Hamming
  import opened Extremum

  /** The key sizes tried, inclusive. */
  const KsStart: nat := 2
  const KsEnd: nat := 40

  /** The shortest input whose four leading blocks lie within its length for
      every key size tried. */
  const MinInputLength: nat := 4 * KsEnd

  /** The four consecutive blocks of `ks` bytes at the start of the input. */
  function Blocks(input: seq<byte>, ks: nat): (b: seq<seq<byte>>)
    requires 4 * ks <= |input|
    ensures |b| == 4
    ensures forall p :: 0 <= p < 4 ==> |b[p]| == ks
    ensures b[0] + b[1] + b[2] + b[3] == input[..4 * ks]
  {
    var b := [input[0..ks], input[ks..2 * ks], input[2 * ks..3 * ks], input[3 * ks..4 * ks]];
    assert b[0] + b[1] + b[2] + b[3] == input[..4 * ks];
    b
  }

  /** The running sum of distances and the number of pairs compared. */
  datatype Tally = Tally(total: nat, comparisons: nat)

  /** The number of unordered pairs among `c` blocks. */
  function Pairs(c: nat): nat
  {
    if c == 0 then 0 else c - 1 + Pairs(c - 1)
  }

  /** The count of pairs is the binomial coefficient c choose 2. */
  lemma {:induction false} PairsClosedForm(c: nat)
    ensures 2 * Pairs(c) == c * (c - 1)
  {
    if c > 0 {
      PairsClosedForm(c - 1);
      assert (c - 1) * (c - 2) + 2 * (c - 1) == c * (c - 1);
    }
  }

  /** The pairs a scan resumed at (i, j) over `n` blocks still compares:
      block `i` against blocks `j` to `n - 1`, then every pair among the
      blocks after `i`. */
  function PairsLeft(n: nat, i: nat, j: nat): nat
  {
    if i >= n then 0
    else (if j < n then n - j else 0) + Pairs(n - i - 1)
  }

  /** The source's nested loop over the pairs `i < j` of blocks, resumed at
      pair (i, j) with the tally so far; a failed distance aborts it. */
  function PairScan(blocks: seq<seq<byte>>, i: nat, j: nat, acc: Tally): (r: Result<Tally>)
    ensures r.Err? ==> r.message == LenMismatch
    ensures r.Ok? ==> r.value.comparisons == acc.comparisons + PairsLeft(|blocks|, i, j)
    ensures r.Ok? ==> r.value.total >= acc.total
    ensures (forall p :: 0 <= p < |blocks| ==> |blocks[p]| == |blocks[0]|) ==> r.Ok?
    ensures r.Ok? ==> r.value.comparisons >= acc.comparisons
    ensures r.Ok? && i < j < |blocks| ==> r.value.comparisons > acc.comparisons
    decreases |blocks| - i, |blocks| - j
  {
    if i >= |blocks| then Ok(acc)
    else if j >= |blocks| then PairScan(blocks, i + 1, i + 2, acc)
    else
      match HammingDistance(blocks[i], blocks[j])
      case Err(e) => Err(e)
      case Ok(dist) => PairScan(blocks, i, j + 1, Tally(acc.total + dist, acc.comparisons + 1))
  }

  /** Reference definition: the sum of the distances of the six unordered
      pairs among four blocks of equal length. */
  function SixPairTotal(b: seq<seq<byte>>): (t: nat)
    requires |b| == 4
    requires forall p :: 0 <= p < 4 ==> |b[p]| == |b[0]|
    ensures t <= 48 * |b[0]|
  {
    BitDistance(b[0], b[1]) + BitDistance(b[0], b[2]) + BitDistance(b[0], b[3])
    + BitDistance(b[1], b[2]) + BitDistance(b[1], b[3]) + BitDistance(b[2], b[3])
  }

  /** The first pass of the outer loop compares block 0 with blocks 1 to 3. */
  lemma FirstBlockPairs(b: seq<seq<byte>>)
    requires |b| == 4
    requires forall p :: 0 <= p < 4 ==> |b[p]| == |b[0]|
    ensures PairScan(b, 0, 1, Tally(0, 0))
         == PairScan(b, 1, 2, Tally(BitDistance(b[0], b[1]) + BitDistance(b[0], b[2]) + BitDistance(b[0], b[3]), 3))
  {
    var d01, d02, d03 := BitDistance(b[0], b[1]), BitDistance(b[0], b[2]), BitDistance(b[0], b[3]);
    assert PairScan(b, 0, 1, Tally(0, 0))
        == PairScan(b, 0, 2, Tally(d01, 1))
        == PairScan(b, 0, 3, Tally(d01 + d02, 2))
        == PairScan(b, 0, 4, Tally(d01 + d02 + d03, 3))
        == PairScan(b, 1, 2, Tally(d01 + d02 + d03, 3));
  }

  /** The remaining passes compare blocks 1 and 2 with the blocks after them. */
  lemma LaterBlockPairs(b: seq<seq<byte>>, t: nat)
    requires |b| == 4
    requires forall p :: 0 <= p < 4 ==> |b[p]| == |b[0]|
    ensures PairScan(b, 1, 2, Tally(t, 3))
         == Ok(Tally(t + BitDistance(b[1], b[2]) + BitDistance(b[1], b[3]) + BitDistance(b[2], b[3]), 6))
  {
    var d12, d13, d23 := BitDistance(b[1], b[2]), BitDistance(b[1], b[3]), BitDistance(b[2], b[3]);
    assert PairScan(b, 1, 2, Tally(t, 3))
        == PairScan(b, 1, 3, Tally(t + d12, 4))
        == PairScan(b, 1, 4, Tally(t + d12 + d13, 5))
        == PairScan(b, 2, 3, Tally(t + d12 + d13, 5))
        == PairScan(b, 2, 4, Tally(t + d12 + d13 + d23, 6))
        == PairScan(b, 3, 4, Tally(t + d12 + d13 + d23, 6))
        == PairScan(b, 4, 5, Tally(t + d12 + d13 + d23, 6))
        == Ok(Tally(t + d12 + d13 + d23, 6));
  }

  /** On four blocks of equal length the loop compares each of the six
      pairs once and never fails. */
  lemma FourBlockTally(b: seq<seq<byte>>)
    requires |b| == 4
    requires forall p :: 0 <= p < 4 ==> |b[p]| == |b[0]|
    ensures PairScan(b, 0, 1, Tally(0, 0)) == Ok(Tally(SixPairTotal(b), 6))
  {
    var t := BitDistance(b[0], b[1]) + BitDistance(b[0], b[2]) + BitDistance(b[0], b[3]);
    FirstBlockPairs(b);
    LaterBlockPairs(b, t);
    assert SixPairTotal(b) == t + BitDistance(b[1], b[2]) + BitDistance(b[1], b[3]) + BitDistance(b[2], b[3]);
  }

  /** A total distance averaged over the pairs compared, then divided by
      the key size. */
  function Normalize(total: nat, comparisons: nat, ks: nat): (r: real)
    requires 0 < comparisons && 0 < ks
    ensures 0.0 <= r
    ensures r * comparisons as real * ks as real == total as real
  {
    (total as real / comparisons as real) / ks as real
  }

  /** A quotient by a positive divisor is bounded by `b` when the dividend
      is at most `b` times the divisor. */
  lemma QuotientBound(x: real, y: real, b: real)
    requires 0.0 < y && 0.0 <= x <= b * y
    ensures 0.0 <= x / y <= b
  {
  }

  /** At most 8 differing bits per byte compared keeps the normalised
      distance within [0, 8]. */
  lemma NormalizeBound(total: nat, comparisons: nat, ks: nat)
    requires 0 < comparisons && 0 < ks
    requires total <= 8 * ks * comparisons
    ensures 0.0 <= Normalize(total, comparisons, ks) <= 8.0
  {
    var c, k := comparisons as real, ks as real;
    assert (8 * ks * comparisons) as real == (8.0 * k) * c;
    QuotientBound(total as real, c, 8.0 * k);
    QuotientBound(total as real / c, k, 8.0);
  }

  /** Reference definition of a key size's score: the average distance of
      the six block pairs, divided by the key size. */
  function NormalizedDistance(input: seq<byte>, ks: nat): (d: real)
    requires 0 < ks && 4 * ks <= |input|
    ensures 0.0 <= d <= 8.0
  {
    var total := SixPairTotal(Blocks(input, ks));
    NormalizeBound(total, 6, ks);
    Normalize(total, 6, ks)
  }

  /** The score the source computes for key size `ks`: total distance over
      the number of comparisons, over `ks`. It never fails, because the four
      blocks have the same length. */
  function KeySizeScore(input: seq<byte>, ks: nat): (r: Result<real>)
    requires 0 < ks && 4 * ks <= |input|
    ensures r == Ok(NormalizedDistance(input, ks))
  {
    var blocks := Blocks(input, ks);
    FourBlockTally(blocks);
    match PairScan(blocks, 0, 1, Tally(0, 0))
    case Err(e) => Err(e)
    case Ok(tally) =>
      Ok(Normalize(tally.total, tally.comparisons, ks))
  }

  /** Key size `ks` is a best guess: no size tried scores lower, and every
      smaller size scores strictly higher. */
  ghost predicate IsBestKeySize(input: seq<byte>, ks: nat)
    requires |input| >= MinInputLength
  {
    && KsStart <= ks <= KsEnd
    && (forall k :: KsStart <= k <= KsEnd ==> NormalizedDistance(input, ks) <= NormalizedDistance(input, k))
    && (forall k :: KsStart <= k < ks ==> NormalizedDistance(input, ks) < NormalizedDistance(input, k))
  }

  /** At most one key size is a best guess. */
  lemma BestKeySizeUnique(input: seq<byte>, k1: nat, k2: nat)
    requires |input| >= MinInputLength
    requires IsBestKeySize(input, k1) && IsBestKeySize(input, k2)
    ensures k1 == k2
  {
    assert NormalizedDistance(input, k1) == NormalizedDistance(input, k2);
  }

  /** Scores within [0, 8] are all below math.MaxFloat64, so MinFloat64
      finds their first minimum. */
  lemma BoundedScoresMinimum(scores: seq<real>)
    requires |scores| > 0
    requires forall t :: 0 <= t < |scores| ==> 0.0 <= scores[t] <= 8.0
    ensures IsFirstMin(scores, MinFloat64(scores))
  {
    assert scores[0] < LargestFloat64;
  }

  /** The first minimum of the score list, shifted by KsStart, is the key
      size of least normalised distance, the smallest one on ties. */
  lemma FirstMinKeySize(input: seq<byte>, scores: seq<real>)
    requires |input| >= MinInputLength
    requires |scores| == KsEnd + 1 - KsStart
    requires forall t :: 0 <= t < |scores| ==> scores[t] == NormalizedDistance(input, KsStart + t)
    ensures IsBestKeySize(input, KsStart + MinFloat64(scores))
  {
    BoundedScoresMinimum(scores);
    var m := MinFloat64(scores);
    var best := KsStart + m;
    assert scores[m] == NormalizedDistance(input, best);
    forall k | KsStart <= k <= KsEnd
      ensures NormalizedDistance(input, best) <= NormalizedDistance(input, k)
    {
      assert scores[k - KsStart] == NormalizedDistance(input, k);
    }
    forall k | KsStart <= k < best
      ensures NormalizedDistance(input, best) < NormalizedDistance(input, k)
    {
      assert scores[k - KsStart] == NormalizedDistance(input, k);
    }
    assert IsBestKeySize(input, best);
  }

  /** Appending the next key size's score keeps the scores aligned with the
      key sizes from KsStart. */
  lemma ScoresAppend(input: seq<byte>, scores: seq<real>, s: real)
    requires |input| >= MinInputLength && |scores| <= KsEnd - KsStart
    requires forall t :: 0 <= t < |scores| ==> scores[t] == NormalizedDistance(input, KsStart + t)
    requires s == NormalizedDistance(input, KsStart + |scores|)
    ensures forall t :: 0 <= t < |scores| + 1 ==> (scores + [s])[t] == NormalizedDistance(input, KsStart + t)
  {
  }

  /** The source's loop over key sizes 2 to 40: score each one, then take
      the first minimum. The error a distance could raise never arises. */
  method EstimateKeySize(input: seq<byte>) returns (r: Result<nat>)
    requires |input| >= MinInputLength
    ensures r.Ok?
    ensures IsBestKeySize(input, r.value)
  {
    var scores: seq<real> := [];
    for ks := KsStart to KsEnd + 1
      invariant |scores| == ks - KsStart
      invariant forall t :: 0 <= t < |scores| ==> scores[t] == NormalizedDistance(input, KsStart + t)
    {
      match KeySizeScore(input, ks)
      case Err(e) =>
        return Err(e);
      case Ok(s) =>
        ScoresAppend(input, scores, s);
        scores := scores + [s];
    }
    FirstMinKeySize(input, scores);
    return Ok(KsStart + MinFloat64(scores));
  }
}
