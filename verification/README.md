# Repeating-key XOR cryptanalysis, modelled in Dafny

This project models the cryptanalysis core of `main.go` in the Go repository
otrv/cryptopals:

- the byte-level XOR primitives, `FixedXor` and `RepeatingKeyXor`;
- the bit-level `HammingDistance`;
- the argmax and argmin helpers `MaxFloat64` and `MinFloat64`;
- the letter-frequency scorer `TopEnglishIndex` with its table `englishLetterScores`;
- the single-byte key brute force `DecryptSingleByteXor`;
- the repeating-key attack `BreakRepeatingKeyXor`. It has four stages:
  1. a key-size estimate by normalised Hamming distance over key sizes 2 to 40;
  2. transposition of the ciphertext into one column per key byte;
  3. a single-byte break of each column;
  4. decryption with the assembled key.

Modules follow the source's functions:

- `Bytes`: the byte type, repeated pads, bit counting.
- `Wrappers`: the `Result` type that stands for Go's `(value, error)` pairs.
- `Xor`: FixedXor, RepeatingKeyXor.
- `Hamming`: HammingDistance.
- `Extremum`: MaxFloat64, MinFloat64.
- `English`: the letter table, TopEnglishIndex.
- `SingleByte`: DecryptSingleByteXor.
- `KeyLength`: the key-size loop of BreakRepeatingKeyXor.
- `Transposition`: the chunk loop.
- `BreakRepeating`: the attack end to end.

Bytes are `bv8`, so `^`, `&` and `>>` are the source's operators. Errors keep the source's messages: `"fixed xor size mismatch"` and `"len mismatch"`.

The three loops below are proved equal to reference definitions:

- `HammingDistance` is the sum of per-byte population counts (`BitDistance`). The source's shift-and-add loops are proved equal to it.
- The chunk loop of the transposition is proved equal to `Column`, which takes every `ks`-th byte.
- The key-size loop is proved to choose the first minimum of `NormalizedDistance`. That function is the mean distance over the six block pairs, divided by the key size.

## Model

| member | source | states |
|---|---|---|
| Xor.FixedXor | main.go:13-24 | fails exactly when the lengths differ, with "fixed xor size mismatch"; otherwise the result has the common length and byte i is a[i] XOR b[i] |
| Xor.FixedXorInvolution | main.go:13-24 | XOR-ing the result again with the same pad gives the first buffer back |
| Xor.SingleByteRoundTrip | main.go:108-118 | a pad of n copies of one key byte, as DecryptSingleByteXor builds it, undoes itself |
| Xor.KeyStream | main.go:126-129 | the cypher buffer has exactly the input's length, and byte i is key[i mod len(key)]; an empty key is allowed only when there is nothing to fill |
| Xor.RepeatingKeyXor | main.go:125-137 | never fails; preserves length; byte i is in[i] XOR key[i mod len(key)]; an empty key is accepted with an empty input, where the loop never runs |
| Xor.RepeatingKeyXorInvolution | main.go:125-137 | encrypting twice with the same key restores the input |
| Xor.OneByteKey | main.go:111-113 | a one-byte repeating key is the same as FixedXor with the repeated pad |
| Bytes.Repeat | main.go:111 | bytes.Repeat yields n copies of the byte |
| Bytes.CountBits | main.go:147-150 | counting the low bits one shift at a time never exceeds the number of bits looked at |
| Bytes.CountBitsZero | main.go:147-150 | no bit is counted exactly when all the bits looked at are clear |
| Bytes.MaskStep | main.go:147-150 | proof helper for CountBitsZero: widening the mask by one bit adds exactly bit 0 to what must be clear |
| Bytes.PopCount | main.go:146-150 | a byte's bit count is at most 8, and 0 exactly for the zero byte |
| Bytes.PopCountBits | main.go:146-150 | the bit count is the sum of the byte's eight individual bits |
| Hamming.BitDistance | main.go:144-151 | the sum of bit counts over n positions is at most 8n |
| Hamming.HammingDistance | main.go:139-154 | fails exactly on a length mismatch, with "len mismatch"; otherwise the distance lies between 0 and 8·len |
| Hamming.BitDistanceSymmetric | main.go:144-151 | the bit distance does not depend on the order of the buffers |
| Hamming.BitDistanceZero | main.go:144-151 | the bit distance is 0 exactly when the buffers are equal |
| Hamming.HammingDistanceMetric | main.go:139-154 | HammingDistance is symmetric, including the error case, and is Ok(0) exactly on equal buffers |
| Hamming.ShiftKeepsMask | main.go:149 | proof helper for CountSetBits: shifting right drops the value into one bit fewer |
| Hamming.CountSetBits | main.go:146-150 | the inner shift loop adds exactly the bit count of a[i] XOR b[i] |
| Hamming.HammingDistanceLoop | main.go:139-154 | the source's two loops compute exactly HammingDistance, including the error |
| Hamming.BitDistanceSnoc | main.go:144-151 | one more position adds that position's bit count |
| Hamming.ExamplePopCountsLow | main.go:146-150 | bit counts of the seven XOR bytes at positions 0 to 6 of the worked example |
| Hamming.ExamplePopCountsHigh | main.go:146-150 | bit counts of the seven XOR bytes at positions 7 to 13 of the worked example |
| Hamming.ExampleDistancePrefix | main.go:144-151 | the constants "this is a test" and "wokka wokka!!!" differ in 14 bits over their first 7 bytes |
| Hamming.ExampleDistance | main.go:144-151 | the two texts differ in 37 bits |
| Hamming.WokkaExample | main.go:139-154 | HammingDistance("this is a test", "wokka wokka!!!") is Ok(37) |
| Extremum.MaxScan | main.go:29-34 | the argmax loop, resumed with a valid running state, ends on the first maximum when some value is positive, else on 0 |
| Extremum.MaxFloat64 | main.go:26-37 | 0 when no value exceeds the initial 0.0, even for an empty list; otherwise the first index of the maximum, whose value is positive |
| Extremum.MinScan | main.go:42-47 | the argmin loop, resumed with a valid running state, ends on the first minimum when some value is below math.MaxFloat64 |
| Extremum.MinFloat64 | main.go:39-50 | 0 when no value is below math.MaxFloat64; otherwise the first index of the minimum |
| Extremum.FirstMaxUnique | main.go:29-34 | at most one index is the first maximum, so the answer is determined |
| Extremum.FirstMinUnique | main.go:42-47 | at most one index is the first minimum |
| English.UpperCase | main.go:88-90 | 'a' to 'z' become 'A' to 'Z' by subtracting 32; every other byte is kept |
| English.TableDomain | main.go:52-80 | the table's keys are exactly 'A' to 'Z' and the space |
| English.TableWeights | main.go:52-80 | every weight is positive and at most the space's 15.0 |
| English.TableKeys | main.go:52-80 | a byte is a key exactly when it is an upper-case letter or the space, and its weight lies in (0, 15] |
| English.ByteScore | main.go:87-97 | a byte adds a positive amount exactly for letters of either case and the space; a negative amount exactly outside 32..126, and then -20; letters add their upper-case weight, and the space adds the space's weight |
| English.Score | main.go:85-99 | a candidate of n bytes scores between -20n and 15n |
| English.ScoreAppend | main.go:85-99 | the score of a concatenation is the sum of the scores |
| English.ScorePrintable | main.go:85-99 | printable text never scores below 0, and scores above 0 once it holds a letter or space |
| English.TopEnglishIndex | main.go:82-105 | 0 when no candidate scores above 0; otherwise the first candidate of highest score |
| SingleByte.XorWithByte | main.go:111-117 | the candidate for key k has the input's length and byte i equal to in[i] XOR k |
| SingleByte.XorWithByteCompose | main.go:111-117 | XOR-ing with k1 and then k2 is XOR-ing with k1 XOR k2 |
| SingleByte.Candidates | main.go:109-118 | 256 slots, of which slot 255 stays empty |
| SingleByte.CandidateSlot | main.go:110-117 | slot k below 255 holds the input decrypted under key k |
| SingleByte.DecryptSingleByteXor | main.go:108-123 | the key is at most 254; the plaintext is the candidate slot of that key, that is the input XOR the key |
| SingleByte.DecryptSingleByteXorBest | main.go:108-123 | key 0 when no key scores above 0; otherwise the plaintext scores at least as high as every key's, and strictly higher than every smaller key's |
| SingleByte.RecoversPlaintext | main.go:108-123 | when the key found is the encryption key, the plaintext found is the original |
| KeyLength.Blocks | main.go:162-167 | four consecutive blocks of ks bytes that tile the first 4·ks bytes |
| KeyLength.PairScan | main.go:169-180 | the pair loop fails only with "len mismatch", never on blocks of equal length; on success it adds exactly the number of pairs still to visit (PairsLeft) to the comparison count, and the total never falls |
| KeyLength.PairsClosedForm | main.go:169-180 | the pair count used by PairScan's contract is c·(c−1)/2 for c blocks, six for the source's four |
| KeyLength.SixPairTotal | main.go:169-180 | six pair distances of blocks of n bytes total at most 48n |
| KeyLength.FirstBlockPairs | main.go:169-180 | the first outer pass compares block 0 with blocks 1, 2 and 3 |
| KeyLength.LaterBlockPairs | main.go:169-180 | the later passes compare blocks 1-2, 1-3 and 2-3, reaching 6 comparisons |
| KeyLength.ScoresAppend | main.go:183 | proof helper for EstimateKeySize: storing the next key size's score keeps score t equal to the normalised distance of key size 2 + t |
| KeyLength.FourBlockTally | main.go:169-180 | on four equal blocks the loop sums all six pair distances, makes 6 comparisons and never fails |
| KeyLength.QuotientBound | main.go:182-184 | proof helper for NormalizeBound: a quotient by a positive divisor stays in [0, b] when the dividend is in [0, b·divisor] |
| KeyLength.Normalize | main.go:182-184 | the score is non-negative, and multiplied back by the number of comparisons and by ks it gives the total distance |
| KeyLength.NormalizeBound | main.go:182-184 | the average distance over the comparisons, divided by ks, lies in [0, 8] |
| KeyLength.NormalizedDistance | main.go:162-184 | a key size's score lies between 0 and 8 |
| KeyLength.KeySizeScore | main.go:162-184 | the source's computation for one key size never fails and yields the normalised distance |
| KeyLength.BestKeySizeUnique | main.go:187 | at most one key size is the first minimum, so the estimate is determined |
| KeyLength.BoundedScoresMinimum | main.go:187 | scores in [0, 8] are below math.MaxFloat64, so MinFloat64 finds their first minimum |
| KeyLength.FirstMinKeySize | main.go:187 | the first minimum of the score list, plus 2, is the best key size |
| KeyLength.EstimateKeySize | main.go:158-187 | on input of at least 160 bytes the loop never fails; it returns the key size in 2..40 of least normalised distance, the smallest one on ties |
| Transposition.StrideProduct | main.go:189-194 | proof helper for the column lemmas: the stride built one key size at a time is m·ks |
| Transposition.ColumnHas | main.go:189-194 | column j has a position m exactly when j + m·ks is inside the input |
| Transposition.ColumnValue | main.go:189-194 | position m of column j holds input byte j + m·ks |
| Transposition.ColumnAt | main.go:189-194 | position m of column j exists exactly when j + m·ks is inside the input, and then holds that byte |
| Transposition.ColumnIndex | main.go:189-194 | every input position j + m·ks lands in column j at position m |
| Transposition.ColumnLengthOnly | main.go:189-194 | column lengths depend only on the input's length |
| Transposition.ModShift | main.go:128 | proof helper for ColumnOffset: adding k does not change the remainder modulo k |
| Transposition.ColumnOffset | main.go:128 | every byte of column j sits at a position congruent to j modulo ks |
| Transposition.StrideOffset | main.go:128 | proof helper: the same congruence with the stride built by repeated addition |
| Transposition.ColumnNonEmpty | main.go:189-194 | column j is non-empty when the input reaches position j |
| Transposition.Reconstruct | main.go:189-194 | input byte i is element i/ks of column i mod ks: the columns interleaved give the input back |
| Transposition.ColumnLengths | main.go:189-194 | column lengths differ by at most one, the earlier columns being the longer ones |
| Transposition.AppendChunk | main.go:191-193 | appending one chunk keeps the number of columns; column idx gains chunk[idx] when the chunk reaches idx, and is unchanged otherwise |
| Transposition.TransposeFrom | main.go:190-194 | the chunk loop keeps ks columns |
| Transposition.TransposeFromColumns | main.go:190-194 | the remaining chunks append to each column the matching column of what remains |
| Transposition.Transpose | main.go:189-194 | ks columns, column j being input[j], input[j+ks], input[j+2ks], ... |
| BreakRepeating.AssembleKey | main.go:196-200 | key byte j is the single-byte key found for column j, and is at most 254 |
| BreakRepeating.BreakWithKeySize | main.go:189-207 | for key size ks: key of ks bytes, byte j broken from column j; the plaintext has the input's length, and byte i is in[i] XOR key[i mod ks] |
| BreakRepeating.BreakRepeatingKeyXor | main.go:157-208 | on input of at least 160 bytes: never fails; the key length is the best key size; the result is the break at that key size |
| BreakRepeating.ColumnsNonEmpty | main.go:189-200 | every column broken at the estimated key size is non-empty |
| BreakRepeating.ColumnByteOfRepeatingKeyXor | main.go:125-137 | byte m of column j of a decryption is byte m of column j of the input XOR key byte j |
| BreakRepeating.RepeatingKeyXorAt | main.go:125-137 | a byte whose position is congruent to j modulo the key length is XOR-ed with key byte j |
| BreakRepeating.ColumnOfRepeatingKeyXor | main.go:125-137 | column j of a repeating-key decryption is column j of the input XOR-ed with key byte j |
| BreakRepeating.ColumnsDecrypt | main.go:189-207 | column j of the final plaintext is the single-byte decryption of column j of the ciphertext |
| BreakRepeating.RecoversPlaintext | main.go:189-207 | when the key recovered at the key length is the encryption key, the plaintext recovered is the original |

## Left out

- `main` (main.go:210-229) is left out. It covers reading the file, base64 decoding and printing, which is all I/O.
- float64 arithmetic is modelled as exact reals. Rounding, NaN and infinities are not modelled. `math.MaxFloat64` is its exact value, (2^53 − 1)·2^971.
- `slices.Chunk` is modelled as its documented behaviour: consecutive chunks of `ks` bytes, the last one possibly shorter. It is not modelled as a library call.
- Panics become preconditions. `BreakRepeatingKeyXor` requires at least 160 bytes, so that the block slices `in[0:ks]` to `in[3*ks:4*ks]` lie inside the input for every ks up to 40. A non-empty input with an empty key makes `i % len(key)` divide by zero, so `RepeatingKeyXor` requires a non-empty key unless the input is empty. The FixedXor panic inside `DecryptSingleByteXor` is unreachable, and this is proved rather than assumed.
- BreakRepeating.BreakRepeatingKeyXor: slice capacity is not modelled. Go checks a slice expression against the slice's capacity, not its length. A shorter input with spare capacity therefore reads bytes past its end rather than panicking. The model treats an input as its bytes alone and requires 160 of them.
- The model makes no claim that the recovered key is the encryption key. That is a statistical property of English text. `RecoversPlaintext` only states what follows when it is.
- `range 255` tries keys 0 to 254 and leaves slot 255 of the 256-slot array empty, so key 0xFF is never tried or returned. `DecryptSingleByteXor` states this.
- Hamming.WokkaExample: the texts appear as their ASCII bytes (`ThisIsATest`, `WokkaWokka`). Converting Dafny strings to bytes is not modelled.
