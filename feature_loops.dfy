/**
 * Loops that several implementations share word for word: the summary of a
 * column's letter tally, the second feature pass over a 6 * L buffer whose
 * slot-0 values are final, and the count over one column of per-sequence
 * buffers.
 */
module FeatureLoops {
  import opened Residues
  import opened ColumnStats
  import opened Windows
  import opened Passes
  import opened Layouts

  /**
   * The loop over the 26 tally slots in `alifilter_computeColumnFeatures`:
   * the running `MAX` of the counts, started at 0, and the
   * entropy summed slot by slot over the letters present.
   */
  method SummarizeCounts(ln: real -> real, counts: array<int>, validChars: nat) returns (maxId: int, entropy: real)
    requires counts.Length == AlphabetSize && validChars > 0
    requires forall k | 0 <= k < AlphabetSize :: 0 <= counts[k]
    ensures maxId == Largest(counts[..])
    ensures entropy == EntropySum(ln, counts[..], validChars, AlphabetSize)
  {
    ghost var tally := counts[..];
    maxId := 0;
    entropy := 0.0;
    for i := 0 to AlphabetSize
      invariant maxId == if i == 0 then 0 else Largest(tally[..i])
      invariant entropy == EntropySum(ln, tally, validChars, i)
    {
      LargestStep(tally, i);
      assert counts[i] == tally[i];
      maxId := Max(maxId, counts[i]);
      if counts[i] > 0 {
        entropy := entropy + -(counts[i] as real) / validChars as real * ln(counts[i] as real / validChars as real);
      }
    }
    assert tally[..AlphabetSize] == tally;
  }

  /**
   * One step of the second loop of `alifilter_getAlignmentFeatures` (and of
   * its R twin): the ±1 and ±2 gap means of column i, from the slot-0 values
   * of its in-range neighbours, divided by how many there are.
   */
  method WindowMeansAt(f: array<real>, alignmentLength: nat, i: nat, ghost g: seq<real>)
    returns (gaps1: real, gaps2: real)
    requires 6 * alignmentLength <= f.Length && |g| == alignmentLength && i < alignmentLength
    requires forall k | 0 <= k < alignmentLength :: f[6 * k] == g[k]
    ensures gaps1 == WindowMean(g, i, 1) && gaps2 == WindowMean(g, i, 2)
  {
    var left2 := if i > 1 then f[6 * (i - 2)] else 0.0;
    var left1 := if i > 0 then f[6 * (i - 1)] else 0.0;
    var here := f[6 * i];
    var right1 := if i < alignmentLength - 1 then f[6 * (i + 1)] else 0.0;
    var right2 := if i < alignmentLength - 2 then f[6 * (i + 2)] else 0.0;
    // % Gaps +- 1
    var count1 := 1 + (if i > 0 then 1 else 0) + (if i < alignmentLength - 1 then 1 else 0);
    Gaps1FromSlots(g, alignmentLength, i, left1, here, right1, count1);
    gaps1 := (left1 + here + right1) / count1 as real;
    // % Gaps +- 2
    var count2 := 1 + (if i > 1 then 2 else if i > 0 then 1 else 0) +
                  (if i < alignmentLength - 2 then 2 else if i < alignmentLength - 1 then 1 else 0);
    Gaps2FromSlots(g, alignmentLength, i, left2, left1, here, right1, right2, count2);
    gaps2 := (left2 + left1 + here + right1 + right2) / count2 as real;
  }

  /**
   * The second loop of `alifilter_getAlignmentFeatures` (and of its R twin):
   * it reads only the slot-0 gap fractions `g` left by the first loop and
   * fills slots 4 and 5 of every column with their window means.
   */
  method SmoothGaps(f: array<real>, alignmentLength: nat, ghost g: seq<real>)
    requires 6 * alignmentLength <= f.Length && |g| == alignmentLength
    requires forall k | 0 <= k < alignmentLength :: f[6 * k] == g[k]
    modifies f
    ensures f[..] == SecondPass(old(f[..]), Means(g, 1), Means(g, 2), alignmentLength)
  {
    ghost var w1, w2 := Means(g, 1), Means(g, 2);
    for i := 0 to alignmentLength
      invariant f[..] == SecondPass(old(f[..]), w1, w2, i)
    {
      ghost var before := f[..];
      forall k | 0 <= k < alignmentLength ensures f[6 * k] == g[k] {
        SecondPassKeepsGaps(old(f[..]), w1, w2, i, k);
      }
      var gaps1, gaps2 := WindowMeansAt(f, alignmentLength, i, g);
      f[6 * i + 4] := gaps1;
      f[6 * i + 5] := gaps2;
      assert f[..] == before[6 * i + 4 := gaps1][6 * i + 5 := gaps2];
    }
  }

  /** Column `column` can be read from each of the first `sequenceCount` sequences. */
  predicate Readable(sequenceData: seq<seq<Byte>>, sequenceCount: nat, column: nat) {
    sequenceCount <= |sequenceData| && forall i | 0 <= i < sequenceCount :: column < |sequenceData[i]|
  }

  /**
   * The loop over the sequences in the per-sequence versions of
   * computeColumnFeatures (R bindings, Python module): gap count, letter count
   * and letter tally of column `column` of the first `sequenceCount` sequences.
   */
  method CountRowColumn(sequenceData: seq<seq<Byte>>, sequenceCount: nat, column: nat)
    returns (gapCount: nat, validChars: nat, counts: array<int>)
    requires Readable(sequenceData, sequenceCount, column)
    ensures var col := RowColumn(sequenceData[..sequenceCount], column);
      gapCount == GapCount(col) && validChars == ValidCount(col) && counts[..] == Tally(col)
    ensures fresh(counts)
  {
    ghost var col := RowColumn(sequenceData[..sequenceCount], column);
    gapCount := 0;
    counts := new int[AlphabetSize](_ => 0);
    validChars := 0;
    TallyEmpty(col);
    assert counts[..] == Tally(col[..0]);

    for i := 0 to sequenceCount
      modifies counts
      invariant gapCount == GapCount(col[..i]) && validChars == ValidCount(col[..i])
      invariant counts[..] == Tally(col[..i])
    {
      var c := sequenceData[i][column];
      assert c == col[i];
      CountStep(col, i);
      if c == GapSymbol {
        gapCount := gapCount + 1;
      } else {
        var upper := ToUpper(c);
        if UpperA <= upper <= UpperZ {
          validChars := validChars + 1;
          counts[upper - UpperA] := counts[upper - UpperA] + 1;
        }
      }
    }
    WholeColumn(col);
  }
}
