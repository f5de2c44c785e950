/** The heuristic English score of a candidate plaintext and the choice of
    the best candidate (main.go: englishLetterScores, TopEnglishIndex). */
module English {
  import opened Bytes
  import opened Extremum

  /** Relative frequencies, in percent, of the English letters; the space
      is weighted highest of all. Keys are the upper-case letters and ' '. */
  const EnglishLetterScores: map<char, real> := map[
    'A' := 8.167, 'B' := 1.492, 'C' := 2.782, 'D' := 4.253, 'E' := 12.702,
    'F' := 2.228, 'G' := 2.015, 'H' := 6.094, 'I' := 6.966, 'J' := 0.153,
    'K' := 0.772, 'L' := 4.025, 'M' := 2.406, 'N' := 6.749, 'O' := 7.507,
    'P' := 1.929, 'Q' := 0.095, 'R' := 5.987, 'S' := 6.327, 'T' := 9.056,
    'U' := 2.758, 'V' := 0.978, 'W' := 2.360, 'X' := 0.150, 'Y' := 1.974,
    'Z' := 0.074, ' ' := 15.000]

  /** What a byte outside printable ASCII costs. */
  const NonPrintablePenalty: real := 20.0

  /** The largest weight in the table, that of the space. */
  const SpaceWeight: real := EnglishLetterScores[' ']

  predicate IsUpper(ch: byte) { 0x41 <= ch <= 0x5A }

  predicate IsLower(ch: byte) { 0x61 <= ch <= 0x7A }

  predicate IsPrintable(ch: byte) { 32 <= ch <= 126 }

  /** ASCII lower-case letters are folded to upper case; other bytes are kept. */
  function UpperCase(ch: byte): (c: byte)
    ensures IsLower(ch) ==> IsUpper(c) && c | 0x20 == ch
    ensures !IsLower(ch) ==> c == ch
  {
    if IsLower(ch) then ch - 32 else ch
  }

  /** The table holds exactly the upper-case letters and the space, each
      with a positive weight no larger than the space's. */
  lemma TableKeys(c: byte)
    ensures c as char in EnglishLetterScores <==> IsUpper(c) || c == 0x20
    ensures c as char in EnglishLetterScores ==> 0.0 < EnglishLetterScores[c as char] <= SpaceWeight
  {
    var ch := c as char;
    assert ch as int == c as int;
    TableDomain(ch);
    if ch in EnglishLetterScores {
      TableWeights(ch);
    }
  }

  /** The keys of the table, as characters. */
  lemma TableDomain(ch: char)
    ensures ch in EnglishLetterScores <==> 'A' <= ch <= 'Z' || ch == ' '
  {
  }

  /** Every weight in the table is positive and at most the space's. */
  lemma TableWeights(ch: char)
    requires ch in EnglishLetterScores
    ensures 0.0 < EnglishLetterScores[ch] <= SpaceWeight
  {
  }

  /** The contribution of one byte to a candidate's score: its letter weight
      whatever its case, the penalty outside printable ASCII, and nothing
      for any other printable byte. */
  function ByteScore(ch: byte): (s: real)
    ensures s > 0.0 <==> IsUpper(ch) || IsLower(ch) || ch == 0x20
    ensures s < 0.0 <==> !IsPrintable(ch)
    ensures !IsPrintable(ch) ==> s == -NonPrintablePenalty
    ensures -NonPrintablePenalty <= s <= SpaceWeight
    ensures IsUpper(ch) || IsLower(ch) ==> s == EnglishLetterScores[((ch & 0xDF) as char)]
    ensures ch == 0x20 ==> s == EnglishLetterScores[' ']
  {
    var c := UpperCase(ch);
    TableKeys(c);
    if c as char in EnglishLetterScores then EnglishLetterScores[c as char]
    else if c < 32 || c > 126 then -NonPrintablePenalty
    else 0.0
  }

  /** The score of a candidate: the sum of its bytes' contributions. */
  function Score(candidate: seq<byte>): (s: real)
    ensures -NonPrintablePenalty * |candidate| as real <= s <= SpaceWeight * |candidate| as real
    decreases |candidate|
  {
    if |candidate| == 0 then 0.0
    else Score(candidate[..|candidate| - 1]) + ByteScore(candidate[|candidate| - 1])
  }

  /** The score of a concatenation is the sum of the scores. */
  lemma {:induction false} ScoreAppend(a: seq<byte>, b: seq<byte>)
    ensures Score(a + b) == Score(a) + Score(b)
    decreases |b|
  {
    if |b| == 0 {
      assert a + b == a;
    } else {
      var n := |b| - 1;
      ScoreAppend(a, b[..n]);
      assert (a + b)[..|a + b| - 1] == a + b[..n];
      assert (a + b)[|a + b| - 1] == b[n];
    }
  }

  /** A printable candidate never scores below zero, and scores above zero
      as soon as it holds a letter or a space. */
  lemma {:induction false} ScorePrintable(candidate: seq<byte>)
    requires forall i :: 0 <= i < |candidate| ==> IsPrintable(candidate[i])
    ensures Score(candidate) >= 0.0
    ensures (exists i :: 0 <= i < |candidate| && ByteScore(candidate[i]) > 0.0) ==> Score(candidate) > 0.0
    decreases |candidate|
  {
    if |candidate| > 0 {
      var n := |candidate| - 1;
      ScorePrintable(candidate[..n]);
      if exists i :: 0 <= i < |candidate| && ByteScore(candidate[i]) > 0.0 {
        var i :| 0 <= i < |candidate| && ByteScore(candidate[i]) > 0.0;
        if i < n {
          assert candidate[..n][i] == candidate[i];
        }
      }
    }
  }

  /** The index of the best-scoring candidate: the first one with the highest
      score, provided some score is positive, and 0 otherwise. */
  function TopEnglishIndex(candidates: seq<seq<byte>>): (k: nat)
    ensures (forall j :: 0 <= j < |candidates| ==> Score(candidates[j]) <= 0.0) ==> k == 0
    ensures (exists j :: 0 <= j < |candidates| && Score(candidates[j]) > 0.0) ==>
      && k < |candidates|
      && Score(candidates[k]) > 0.0
      && (forall j :: 0 <= j < |candidates| ==> Score(candidates[j]) <= Score(candidates[k]))
      && (forall j :: 0 <= j < k ==> Score(candidates[j]) < Score(candidates[k]))
  {
    var scores := seq(|candidates|, i requires 0 <= i < |candidates| => Score(candidates[i]));
    assert forall j :: 0 <= j < |candidates| ==> scores[j] == Score(candidates[j]);
    MaxFloat64(scores)
  }
}
