# AliFilter column features, scores and masks in Dafny

AliFilter decides, column by column, which columns of a multiple sequence
alignment to keep. For every column it computes six features:

- the fraction of gaps;
- the identity (count of the most frequent letter over the number of sequences);
- the distance to the nearer end of the alignment;
- the Shannon entropy of the letters;
- the mean gap fraction over a window of +-1 columns;
- the mean gap fraction over a window of +-2 columns.

A logistic model turns each column's six features into a score in (0, 1).
A column is kept ('1' in the mask) when its score is at least the model's
threshold.

The same algorithm exists three times in the repository, and each copy is
modelled in its own form:

- The C header (`API/C/alifilter.h`) reads a row-major `S * L` character buffer and fills a `malloc`'d `6 * L` buffer in place in two loops. Module `AliFilterC` models it with arrays, a scripted `Allocator` class for `malloc`, and `Option` results for the `NULL` returns.
- The R bindings (`API/R/alifilter/src/alifilter_rcpp.cpp`) read one raw vector per sequence and fill a caller's buffer in place. They are modelled in module `AliFilterR`.
- The Python module (`API/Python/alifilter.py`) fills an `L x 6` numpy matrix in place (an `array2<real>`). Its `getScores`, `getMask` and `filter` are pure, so they are modelled as functions in `AliFilterPy`. Its `getMaskFromScores` and `getMaskFromFeatures` (alifilter.py:42-46) compute the same masks as the C header's and are the shared `Scoring.MaskFromScores` and `Scoring.MaskFromFeatures`.

All three are proved against one reference definition:

- `ColumnStats` defines the per-column statistics over a column, that is, the characters at (sequence 0..S-1, column c).
- `Windows` defines the window means over the sequence of gap fractions.
- `Features.AlignmentFeatures` assembles the L feature vectors.
- `Scoring` defines the logistic scores and the masks.
- `Layouts` reduces the two storage layouts (flat row-major, one buffer per sequence) to columns, and proves that they agree.
- `Passes` describes the two in-place loops of the C and R code as functions on the buffer's contents. It proves that, whatever the buffer held before, the passes leave exactly the flattened feature matrix in its first `6 * L` values and nothing else changes.

The Python matrix passes are modelled likewise, in `AliFilterPy`.

Natural logarithm and exponential are parameters (`ln`, `exp`), so the
statements hold for any such function. Every scoring function and method
requires `exp` to be positive-valued (`Scoring.PositiveValued`), which is what
keeps `1 / (1 + exp(-z))` defined. The few lemmas that need a property of `ln`
(`ln(1) = 0`, `ln(x) <= 0` on (0, 1]) require it.

The source loops are kept as loops. A few are split into helper methods so
that each loop carries its own invariant:

- `CountFlatColumn` and `CountRowColumn` are the character-counting loop.
- `SummarizeCounts` is the 26-slot loop.
- `BaseFeatures` and `SmoothGaps` / `SmoothGapRows` are the two loops of `getAlignmentFeatures`, and `BaseColumn` is the body of the first.
- `WindowMeansAt` / `WindowMeansRow` are the body of the second loop.
- `ScoreAt` is the inner loop of `getScores`.

The window divisors are the number of window columns inside the alignment
(`Windows.InRangeIsCardinality`, `Windows.DivisorRanges`). For L = 1 both the
+-1 and the +-2 divisor are 1, and for L = 2 both are 2. For L >= 5 the +-2
divisor is 3 at either end, 4 next to an end and 5 elsewhere. A one-column
alignment gets one score and a one-character mask from the C code; the Python
`getScores` fails there (see Findings).

## Model

| member | source | states |
|---|---|---|
| Residues.ToUpper | API/C/alifilter.h:123 | `toupper` maps 'a'..'z' to 'A'..'Z' and leaves every other byte alone |
| Residues.LetterIndex | API/C/alifilter.h:124-126 | a letter's tally slot `C - 'A'` is one of the 26 slots |
| Residues.LetterClassification | API/C/alifilter.h:123-126 | a byte is tallied as a letter exactly when it is 'A'..'Z' or 'a'..'z'; both cases share a slot; '-' is not a letter |
| Residues.IsGap | API/C/alifilter.h:119 | a '-' is counted as a gap and is never tallied as a letter |
| Residues.IsLetter | API/C/alifilter.h:123-124 | a byte is tallied exactly when it is an ASCII letter, 'A'..'Z' or 'a'..'z' |
| ColumnStats.GapCount | API/C/alifilter.h:116-121 | the gap count of a column is at most its number of sequences |
| ColumnStats.ValidCount | API/C/alifilter.h:122-128 | the count of tallied letters is at most the number of sequences |
| ColumnStats.LetterTally | API/C/alifilter.h:124-126 | each slot's count is at most the number of sequences |
| ColumnStats.Tally | API/C/alifilter.h:113-129 | the 26-slot `counts` array after the counting loop; the slot properties are `ColumnStats.TallyBounded` and `ColumnStats.ValidIsTallySum` |
| ColumnStats.MaxCount | API/C/alifilter.h:136-140 | `maxId` is at most the letter total and at least every slot's count |
| ColumnStats.EntropyTerm | API/C/alifilter.h:144 | a present letter adds `-count/validChars * ln(count/validChars)` and an absent one adds 0; each summand is at least 0 by `ColumnStats.TermNonNegative` |
| ColumnStats.GapFraction | API/C/alifilter.h:132 | `gapCount / sequenceCount` lies in [0, 1] |
| ColumnStats.Identity | API/C/alifilter.h:135-152 | `maxId / sequenceCount`, or 0 without letters, lies in [0, 1] |
| ColumnStats.Entropy | API/C/alifilter.h:135-153 | the entropy feature is the 26-slot sum, 0 without letters; it is non-negative by `ColumnStats.EntropyNonNegative` and ln(K) for K equally frequent letters by `ColumnStats.EqualFrequencyEntropy` |
| ColumnStats.Largest | API/C/alifilter.h:139-140 | the running maximum is an upper bound of every slot and equals one of them |
| ColumnStats.EdgeDistance | API/C/alifilter.h:157 | `MIN(column, L - 1 - column)` is at most both distances and equals one of them |
| ColumnStats.CountStep | API/C/alifilter.h:116-129 | counting one more character adds one to the gap count, or one to the letter count and to that letter's slot, or nothing |
| ColumnStats.LargestStep | API/C/alifilter.h:139-140 | one more iteration of `maxId = MAX(maxId, counts[i])` extends the maximum of the prefix |
| ColumnStats.GapsAndLettersBound | API/C/alifilter.h:116-129 | a character is never both a gap and a letter, so gaps plus letters is at most S |
| ColumnStats.TallyBelowValid | API/C/alifilter.h:124-126 | no letter's count exceeds the letter total |
| ColumnStats.TallyBounded | API/C/alifilter.h:124-126 | every one of the 26 slots is at most the letter total |
| ColumnStats.TermNonNegative | API/C/alifilter.h:144 | a summand `-p * ln(p)` is non-negative when ln(p) <= 0 |
| ColumnStats.MaxCountBelowValid | API/C/alifilter.h:136-140 | the most frequent letter's count is at most the letter total |
| ColumnStats.ValidIsTallySum | API/C/alifilter.h:124-126 | the 26 slot counts add up to the letter total `validChars` |
| ColumnStats.FractionBounds | API/C/alifilter.h:131-154 | gap fraction and identity lie in [0, 1] and add up to at most 1 |
| ColumnStats.EntropySumNonNegative | API/C/alifilter.h:139-146 | every prefix of the entropy sum is non-negative when ln is non-positive on (0, 1] |
| ColumnStats.EntropyNonNegative | API/C/alifilter.h:135-154 | the entropy feature is non-negative when ln is non-positive on (0, 1] |
| ColumnStats.AllGapColumn | API/C/alifilter.h:119-154 | an all-gap column has gap fraction 1, identity 0 and entropy 0 |
| ColumnStats.UniformColumn | API/C/alifilter.h:131-154 | a column of one letter (either case) has gap fraction 0, identity 1 and entropy 0 when ln(1) = 0 |
| ColumnStats.EqualSlotsLn | API/C/alifilter.h:139-146 | K slots of equal count m over valid = K * m give the entropy sum -ln(1/K) |
| ColumnStats.EqualShares | API/C/alifilter.h:144 | K equal summands `-(m/v) ln(m/v)` with v = K * m add up to -ln(1/K) |
| ColumnStats.EqualFrequencyEntropy | API/C/alifilter.h:135-149 | a column whose K present letters all occur equally often has entropy -ln(1/K) = ln(K) |
| ColumnStats.EdgeDistanceShape | API/C/alifilter.h:157 | the edge distance is 0 at both ends, symmetric, at most (L-1)/2 and equal to it at the middle of an odd-length alignment |
| Windows.InRange | API/C/alifilter.h:181-189 | the divisor is at least 1, since column i itself is always inside the alignment |
| Windows.WindowMean | API/C/alifilter.h:176-189 | the mean gap fraction over the window clipped to the alignment; its bounds are `Windows.WindowMeanBounds` |
| Windows.Window1Sum | API/C/alifilter.h:178-180 | the +-1 numerator, with absent neighbours as 0, is the sum over the window clipped to the alignment |
| Windows.Window2Sum | API/C/alifilter.h:184-188 | the +-2 numerator, with absent neighbours as 0, is the sum over the clipped window |
| Windows.Window1Count | API/C/alifilter.h:181 | the +-1 divisor `1 + (i > 0) + (i < L-1)` is the number of window columns inside the alignment |
| Windows.Window2Count | API/C/alifilter.h:189 | the +-2 divisor is the number of window columns inside the alignment |
| Windows.Gaps1FromSlots | API/C/alifilter.h:178-181 | the source's +-1 expression equals the mean gap fraction over the clipped +-1 window |
| Windows.Gaps2FromSlots | API/C/alifilter.h:184-189 | the source's +-2 expression equals the mean gap fraction over the clipped +-2 window |
| Windows.InRangeIsCardinality | API/C/alifilter.h:176-189 | the divisor is the number of columns k of the alignment with i - radius <= k <= i + radius |
| Windows.DivisorRanges | API/C/alifilter.h:181-189 | the +-1 divisor is 2 or 3 once L >= 2; the +-2 divisor is 1..5, 3 at either end once L >= 3, 3 and 5 at interior columns |
| Windows.InteriorAndEdgeMeans | API/C/alifilter.h:176-190 | interior columns average 3 and 5 neighbours; at column 0 the +-2 window averages columns 0, 1 and 2 |
| Windows.ConstantWindowMean | API/C/alifilter.h:176-190 | the window mean of a constant gap profile is that constant |
| Windows.WindowMeanBounds | API/C/alifilter.h:176-190 | window means of fractions in [0, 1] lie in [0, 1] |
| Features.GapFractions | API/C/alifilter.h:171-173 | one finished gap fraction per column, the values the second loop reads |
| Features.ColumnFeatures | API/C/alifilter.h:111-190 | the six features of one column in buffer order; their ranges are `Features.FeatureRanges` |
| Features.AlignmentFeatures | API/C/alifilter.h:162-193 | one feature vector per column |
| Features.Flat | API/C/alifilter.h:172 | feature j of column i sits at index `6 * i + j` of the buffer |
| Features.Unflat | API/C/alifilter.h:300 | reading `alignmentFeatures[i * 6 + j]` gives feature j of column i |
| Features.UnflatFlat | API/C/alifilter.h:300 | reading back a written buffer gives the feature vectors |
| Features.FlatUnflat | API/C/alifilter.h:300 | writing back a read buffer gives the buffer |
| Features.FlatByBlocks | API/C/alifilter.h:172 | a buffer whose every 6-block holds column i's features is the flattened matrix |
| Features.FeatureRanges | API/C/alifilter.h:131-189 | gaps, identity and both window means lie in [0, 1], gaps + identity <= 1, edge distance >= 0, entropy >= 0 |
| Features.AllGapFeatures | API/C/alifilter.h:111-190 | in an all-gap alignment each column's features are (1, 0, edge distance, 0, 1, 1) |
| Layouts.FlatColumn | API/C/alifilter.h:117 | column c of the flat buffer `sequenceData[i * L + c]` has one character per sequence |
| Layouts.FlatColumns | API/C/alifilter.h:171-173 | the flat buffer has L columns |
| Layouts.RowColumn | API/R/alifilter/src/alifilter_rcpp.cpp:49 | column c of one vector per sequence has one character per sequence |
| Layouts.RowColumns | API/R/alifilter/src/alifilter_rcpp.cpp:104-106 | the per-sequence layout has L columns |
| Layouts.Flatten | API/C/alifilter.h:40 | concatenating S rows of length L gives an `S * L` buffer |
| Layouts.FlattenAt | API/C/alifilter.h:117 | element `i * L + c` of the concatenation is character c of row i |
| Layouts.LayoutsAgree | API/C/alifilter.h:117 | the flat layout and the per-sequence layout give the same columns |
| Passes.FirstPass | API/C/alifilter.h:171-173 | the first loop keeps the buffer's length; what it writes is `Passes.FirstPassAt` |
| Passes.SecondPass | API/C/alifilter.h:176-190 | the second loop keeps the buffer's length; what it writes is `Passes.SecondPassAt` |
| Passes.FirstPassAt | API/C/alifilter.h:171-173 | after the first loop has handled columns 0..n-1, slots 0..3 of those columns hold their statistics and every other slot its old value |
| Passes.SecondPassAt | API/C/alifilter.h:176-190 | after the second loop has handled columns 0..n-1, slots 4 and 5 of those columns hold the window means and every other slot its old value |
| Passes.SecondPassKeepsGaps | API/C/alifilter.h:176-190 | the second loop never overwrites a gap fraction it still has to read |
| Passes.FirstPassGaps | API/C/alifilter.h:171-173 | after the first loop slot 0 of column k is its gap fraction |
| Passes.BlockAfterPasses | API/C/alifilter.h:162-193 | after both loops column i's block is its feature vector |
| Passes.FirstPassKeepsTail | API/C/alifilter.h:171-173 | the first loop writes nothing past `6 * L` |
| Passes.SecondPassKeepsTail | API/C/alifilter.h:176-190 | the second loop writes nothing past `6 * L` |
| Passes.PassesFront | API/C/alifilter.h:170-190 | both loops leave the flattened feature matrix in the first `6 * L` values, whatever the buffer held |
| Passes.PassesTail | API/R/alifilter/src/alifilter_rcpp.cpp:97-98 | both loops leave every value past `6 * L` of a larger buffer alone |
| Passes.TwoPasses | API/C/alifilter.h:170-190 | both loops: the flattened feature matrix in front, the rest of the buffer unchanged |
| FeatureLoops.SummarizeCounts | API/C/alifilter.h:136-146 | the 26-slot loop returns the largest count and the entropy sum over the slots |
| FeatureLoops.WindowMeansAt | API/C/alifilter.h:177-189 | the two expressions of the second loop compute the +-1 and +-2 window means of the gap fractions |
| FeatureLoops.SmoothGaps | API/C/alifilter.h:176-190 | the second loop writes slots 4 and 5 of every column and nothing else |
| FeatureLoops.CountRowColumn | API/R/alifilter/src/alifilter_rcpp.cpp:44-61 | the counting loop returns the column's gap count, letter total and 26-slot tally |
| AliFilterC.Allocator.Malloc | API/C/alifilter.h:163-168 | `malloc` either fails or returns a fresh buffer of n elements, as scripted |
| AliFilterC.CountFlatColumn | API/C/alifilter.h:112-129 | the counting loop returns the column's gap count, letter total and 26-slot tally |
| AliFilterC.ComputeColumnFeatures | API/C/alifilter.h:111-160 | writes gaps, identity, edge distance and entropy of the column to the four slots and changes nothing else |
| AliFilterC.BaseFeatures | API/C/alifilter.h:170-173 | the first loop leaves the first-pass buffer |
| AliFilterC.BaseColumn | API/C/alifilter.h:172 | one call of `alifilter_computeColumnFeatures` at `&features[i * 6]` is one step of the first pass |
| AliFilterC.FillFeatures | API/C/alifilter.h:170-190 | both loops leave exactly the flattened feature matrix in the new buffer |
| AliFilterC.GetAlignmentFeatures | API/C/alifilter.h:162-193 | NULL exactly when `malloc` fails; otherwise a fresh buffer holding the flattened feature matrix |
| AliFilterC.ScoreAt | API/C/alifilter.h:298-302 | the intercept plus the six products, through the sigmoid, is column i's score |
| AliFilterC.GetScores | API/C/alifilter.h:290-306 | NULL exactly when `malloc` fails; otherwise L scores, one per column of the feature buffer |
| AliFilterC.GetMaskFromScores | API/C/alifilter.h:308-322 | NULL exactly when `malloc` fails; otherwise character i is '1' exactly when score i reaches the threshold, followed by '\0' |
| AliFilterC.GetMaskFromFeatures | API/C/alifilter.h:324-335 | fails when either allocation fails (the second is not attempted after the first fails); otherwise the mask of the scores of the features |
| AliFilterC.GetMask | API/C/alifilter.h:337-347 | fails when any of the three allocations fails and stops at the first failure; otherwise the mask of the scores of the alignment's features |
| AliFilterR.ComputeColumnFeatures | API/R/alifilter/src/alifilter_rcpp.cpp:43-92 | writes gaps, identity, edge distance and entropy of the column to the four slots and changes nothing else |
| AliFilterR.BaseFeatures | API/R/alifilter/src/alifilter_rcpp.cpp:100-106 | the first loop leaves the first-pass buffer, taking L from the first sequence |
| AliFilterR.BaseColumn | API/R/alifilter/src/alifilter_rcpp.cpp:105 | one call at `&out_features[i * 6]` is one step of the first pass |
| AliFilterR.GetAlignmentFeatures | API/R/alifilter/src/alifilter_rcpp.cpp:99-124 | the first `6 * L` values receive the flattened feature matrix; the rest of the caller's buffer is unchanged |
| AliFilterR.SameFeaturesAsC | API/R/alifilter/src/alifilter_rcpp.cpp:49 | sequences of equal length give the features the C header gives for their concatenation |
| AliFilterPy.FirstPassRows | API/Python/alifilter.py:95-96 | the first loop keeps the matrix's shape; what it writes is `AliFilterPy.FirstPassRowsAt` |
| AliFilterPy.SecondPassRows | API/Python/alifilter.py:99-112 | the second loop keeps the matrix's shape; what it writes is `AliFilterPy.SecondPassRowsAt` |
| AliFilterPy.FirstPassRowsAt | API/Python/alifilter.py:95-96 | after the first loop has handled rows 0..n-1, those rows hold their statistics in columns 0..3 and the rest is unchanged |
| AliFilterPy.SecondPassRowsAt | API/Python/alifilter.py:99-112 | after the second loop has handled rows 0..n-1, those rows hold their window means in columns 4 and 5 |
| AliFilterPy.TwoPassesRows | API/Python/alifilter.py:94-112 | both loops leave the feature matrix, whatever it held before |
| AliFilterPy.ComputeColumnFeatures | API/Python/alifilter.py:55-88 | writes gaps, identity, edge distance and entropy into row `column` and changes no other entry |
| AliFilterPy.WindowMeansRow | API/Python/alifilter.py:100-112 | the two expressions of the second loop compute the +-1 and +-2 window means |
| AliFilterPy.SmoothGapRows | API/Python/alifilter.py:99-112 | the second loop writes columns 4 and 5 of every row and nothing else |
| AliFilterPy.SetWindows | API/Python/alifilter.py:101-112 | the two assignments change entries (i, 4) and (i, 5) only |
| AliFilterPy.GetAlignmentFeatures | API/Python/alifilter.py:90-114 | a fresh L x 6 matrix whose rows are the columns' feature vectors |
| AliFilterPy.SqueezedScores | API/Python/alifilter.py:39-40 | as written, under a total `exp`: no scores exactly for one-column input, otherwise the logistic scores |
| AliFilterPy.SingleColumnScoresFail | API/Python/alifilter.py:40 | a one-column alignment has one well-defined score, yet `getScores` yields none |
| AliFilterPy.GetMask | API/Python/alifilter.py:48-49 | with getScores corrected (see ## Findings): character c is '1' exactly when column c's score reaches the threshold, else '0' |
| AliFilterPy.Filter | API/Python/alifilter.py:51-53 | with getScores corrected (see ## Findings): filtering keeps one sequence per input sequence |
| AliFilterPy.FilterKeepsMarked | API/Python/alifilter.py:51-53 | with getScores corrected (see ## Findings): each filtered sequence is its sequence restricted to the columns the mask marks '1'; all have the same length, the number of '1's |
| Scoring.Sigmoid | API/C/alifilter.h:302 | `1 / (1 + exp(-z))` lies strictly between 0 and 1 |
| Scoring.LinearPredictor | API/C/alifilter.h:297-301 | the intercept plus the coefficients times the six features; `AliFilterC.ScoreAt` proves the loop computes it |
| Scoring.Score | API/C/alifilter.h:297-302 | one column's score lies strictly between 0 and 1 |
| Scoring.Scores | API/C/alifilter.h:297-303 | one score per column, the sigmoid of the intercept plus the coefficients times the features, in (0, 1) |
| Scoring.MaskFromScores | API/C/alifilter.h:315-317 | also `getMaskFromScores` (alifilter.py:42-43): one '0'/'1' per score; '1' exactly when the score is at least the threshold (inclusive) |
| Scoring.MaskFromFeatures | API/C/alifilter.h:324-335 | also `getMaskFromFeatures` (alifilter.py:45-46): one character per column; '1' exactly when the column's score reaches the threshold |
| Scoring.Select | API/Python/alifilter.py:53 | the comprehension keeps at most one character per score, each from the first L characters of the sequence |
| Scoring.SelectIsMasked | API/Python/alifilter.py:53 | selecting characters by score is keeping the columns the mask marks '1' |
| Scoring.KeepMarkedLength | API/Python/alifilter.py:53 | a sequence keeps as many characters as the mask has '1's |
| Scoring.SigmoidAtZero | API/C/alifilter.h:302 | the score of a zero predictor is 0.5, so the default threshold keeps it |
| Scenarios.ConservedFeatures | API/C/alifilter.h:111-190 | in an alignment of conserved columns the features are (0, 1, edge distance, 0, 0, 0) |
| Scenarios.CaseIsIgnored | API/C/alifilter.h:123 | "A" and "a" make a conserved column |
| Scenarios.ZeroModelKeepsAll | API/C/alifilter.h:297-317 | a model with zero coefficients and intercept keeps every column at the default threshold 0.5 |

## Left out

- Model parsing is left out: `alifilter_parseModel` (alifilter.h:195-288) and `AliFilterModel.__init__` (alifilter.py:26-37) are file I/O and JSON reading. `Scoring.Model` takes threshold, coefficients and intercept directly. `Scoring.DefaultThreshold` records the 0.5 both parsers use when the file gives no threshold.
- The R entry point `alifilter_rcpp_features` (alifilter_rcpp.cpp:36-40) only allocates the R matrix it passes on. The R-object plumbing and the Python monkey-patching (alifilter.py:116-117) are left out.
- `log` and `exp` are parameters, so the model holds for any such function. Arithmetic is on exact reals: IEEE rounding, NaN, infinity and summation order are not modelled.
- S = 0 is excluded by `requires`. In C every gap fraction is then `0.0 / 0`, a NaN, and the window means with it. In R, `sequenceData[0]` (alifilter_rcpp.cpp:101) reads past the end of the empty list. In Python the alignment length is 0, so the loops at alifilter.py:95 and :99 never run and an empty 0 x 6 matrix is returned.
- Integer widths are unbounded. The `int` products `i * alignmentLength` and the counters of the source could overflow for huge alignments.
- Characters are bytes 0..255. The signed `char` that C passes to `toupper`, and Python's `str.upper` on non-ASCII text, are not modelled. In Python `'ı'.upper()` is `'I'`, so such characters would be tallied.
- `free` is not modelled. The `Allocator` models only whether each `malloc` succeeds.
- AliFilterPy.SqueezedScores: does not model the `OverflowError` that `math.exp` raises once `-(x + intercept)` exceeds about 709.78, because `exp` is a total parameter; the C header's `exp` returns infinity there and the score is 0.
- AliFilterC.Allocator.Malloc: does not describe the contents of the new buffer, because `malloc`'d memory is uninitialised (the feature proofs hold whatever it holds).
- `filter` (alifilter.py:53) copies each record's id, name, description and annotations. Only the residues are modelled.
- Idempotence of the stages has no lemma because every Dafny function is deterministic. There is no hidden state.
- The per-sequence lengths of the R list are not checked by the source. The model requires every sequence to be at least as long as the first (`AliFilterR.Covers`), since a shorter one would be read out of bounds.
- Concurrency: none in the source.

## Findings

| source | as written | input that shows it | evidently intended | confidence | as-written member | corrected member |
|---|---|---|---|---|---|---|
| API/Python/alifilter.py:40 | `numpy.squeeze` turns the L x 1 product into a 0-d array when L = 1, and `map` over a 0-d array raises `TypeError` | any one-column alignment, e.g. sequences "A" and "A" | one logistic score per column, as the C header computes for every L | not executed | AliFilterPy.SqueezedScores (exhibited by AliFilterPy.SingleColumnScoresFail) | Scoring.Scores |
