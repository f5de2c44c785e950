/** Argmax and argmin over float64 scores (main.go: MaxFloat64, MinFloat64).
    Scores are exact reals; the source's float64 rounding is not modelled. */
module Extremum {

  /** math.MaxFloat64, the largest finite float64, (2^53 - 1) * 2^971. */
  const LargestFloat64: real := 179769313486231570814527423731704356798070567525844996598917476803157260780028538760589558632766878171540458953514382464234321326889464182768467546703537516986049910576551282076245490090389328944075868508455133942304583236903222948165808559332123348274797826204144723168738177180919299881250404026184124858368.0

  /** `k` is the first position holding the largest value of `arr`. */
  predicate IsFirstMax(arr: seq<real>, k: nat) {
    && k < |arr|
    && (forall j :: 0 <= j < |arr| ==> arr[j] <= arr[k])
    && (forall j :: 0 <= j < k ==> arr[j] < arr[k])
  }

  /** `k` is the first position holding the smallest value of `arr`. */
  predicate IsFirstMin(arr: seq<real>, k: nat) {
    && k < |arr|
    && (forall j :: 0 <= j < |arr| ==> arr[k] <= arr[j])
    && (forall j :: 0 <= j < k ==> arr[k] < arr[j])
  }

  /** The state of the argmax loop after `i` elements: either nothing so far
      beat the initial 0.0, or `maxValue` is the positive first maximum. */
  predicate MaxSoFar(arr: seq<real>, i: nat, maxIndex: nat, maxValue: real)
    requires i <= |arr|
  {
    || (&& maxValue == 0.0 && maxIndex == 0
        && forall j :: 0 <= j < i ==> arr[j] <= 0.0)
    || (&& 0.0 < maxValue && maxIndex < i && arr[maxIndex] == maxValue
        && (forall j :: 0 <= j < i ==> arr[j] <= maxValue)
        && (forall j :: 0 <= j < maxIndex ==> arr[j] < maxValue))
  }

  /** The argmax loop from position `i` on, replacing the running maximum
      only on a strictly greater value. */
  function MaxScan(arr: seq<real>, i: nat, maxIndex: nat, maxValue: real): (k: nat)
    requires i <= |arr|
    requires MaxSoFar(arr, i, maxIndex, maxValue)
    ensures (forall j :: 0 <= j < |arr| ==> arr[j] <= 0.0) ==> k == 0
    ensures (exists j :: 0 <= j < |arr| && arr[j] > 0.0) ==> IsFirstMax(arr, k) && arr[k] > 0.0
    decreases |arr| - i
  {
    if i == |arr| then maxIndex
    else if arr[i] > maxValue then MaxScan(arr, i + 1, i, arr[i])
    else MaxScan(arr, i + 1, maxIndex, maxValue)
  }

  /** The index of the first maximum, counting only values above the initial
      0.0: when no value is positive the answer is 0, even for an empty list. */
  function MaxFloat64(arr: seq<real>): (k: nat)
    ensures (forall j :: 0 <= j < |arr| ==> arr[j] <= 0.0) ==> k == 0
    ensures (exists j :: 0 <= j < |arr| && arr[j] > 0.0) ==> IsFirstMax(arr, k) && arr[k] > 0.0
  {
    MaxScan(arr, 0, 0, 0.0)
  }

  /** The state of the argmin loop after `i` elements: either nothing so far
      was below the initial math.MaxFloat64, or `minValue` is the first minimum. */
  predicate MinSoFar(arr: seq<real>, i: nat, minIndex: nat, minValue: real)
    requires i <= |arr|
  {
    || (&& minValue == LargestFloat64 && minIndex == 0
        && forall j :: 0 <= j < i ==> arr[j] >= LargestFloat64)
    || (&& minValue < LargestFloat64 && minIndex < i && arr[minIndex] == minValue
        && (forall j :: 0 <= j < i ==> minValue <= arr[j])
        && (forall j :: 0 <= j < minIndex ==> minValue < arr[j]))
  }

  /** The argmin loop from position `i` on, replacing the running minimum
      only on a strictly smaller value. */
  function MinScan(arr: seq<real>, i: nat, minIndex: nat, minValue: real): (k: nat)
    requires i <= |arr|
    requires MinSoFar(arr, i, minIndex, minValue)
    ensures (forall j :: 0 <= j < |arr| ==> arr[j] >= LargestFloat64) ==> k == 0
    ensures (exists j :: 0 <= j < |arr| && arr[j] < LargestFloat64) ==> IsFirstMin(arr, k)
    decreases |arr| - i
  {
    if i == |arr| then minIndex
    else if arr[i] < minValue then MinScan(arr, i + 1, i, arr[i])
    else MinScan(arr, i + 1, minIndex, minValue)
  }

  /** The index of the first minimum; 0 when no value is below math.MaxFloat64,
      which includes the empty list. */
  function MinFloat64(arr: seq<real>): (k: nat)
    ensures (forall j :: 0 <= j < |arr| ==> arr[j] >= LargestFloat64) ==> k == 0
    ensures (exists j :: 0 <= j < |arr| && arr[j] < LargestFloat64) ==> IsFirstMin(arr, k)
  {
    MinScan(arr, 0, 0, LargestFloat64)
  }

  /** The first maximum is unique: any two positions that both qualify agree. */
  lemma FirstMaxUnique(arr: seq<real>, k1: nat, k2: nat)
    requires IsFirstMax(arr, k1) && IsFirstMax(arr, k2)
    ensures k1 == k2
  {
    assert arr[k1] == arr[k2];
  }

  /** The first minimum is unique. */
  lemma FirstMinUnique(arr: seq<real>, k1: nat, k2: nat)
    requires IsFirstMin(arr, k1) && IsFirstMin(arr, k2)
    ensures k1 == k2
  {
    assert arr[k1] == arr[k2];
  }
}
