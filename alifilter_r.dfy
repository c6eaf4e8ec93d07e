/**
 * The R bindings: the alignment is a list of raw vectors, one per sequence,
 * which the code only reads, and the features go to a caller's buffer of at
 * least 6 * L doubles, L being the length of the first sequence.
 */
module AliFilterR {
  import opened Residues
  import opened ColumnStats
  import opened Features
  import opened Layouts
  import opened Passes
  import opened FeatureLoops

  /**
   * `alifilter_computeColumnFeatures`: writes gaps, identity, edge distance and
   * entropy of one column to out_features[0..3] (here `offset` .. `offset + 3`)
   * and leaves every other element alone.
   */
  method ComputeColumnFeatures(ln: real -> real, sequenceData: seq<seq<Byte>>, sequenceCount: nat,
                               alignmentLength: nat, column: nat, outFeatures: array<real>, offset: nat)
    requires sequenceCount > 0 && column < alignmentLength
    requires Readable(sequenceData, sequenceCount, column)
    requires offset + 4 <= outFeatures.Length
    modifies outFeatures
    ensures var col := RowColumn(sequenceData[..sequenceCount], column);
      outFeatures[..] == old(outFeatures[..])[offset := GapFraction(col)][offset + 1 := Identity(col)]
                           [offset + 2 := EdgeDistance(alignmentLength, column) as real][offset + 3 := Entropy(ln, col)]
  {
    ghost var col := RowColumn(sequenceData[..sequenceCount], column);
    var gapCount, validChars, counts := CountRowColumn(sequenceData, sequenceCount, column);
    ghost var before := outFeatures[..];

    // % Gaps
    var gaps := gapCount as real / sequenceCount as real;
    outFeatures[offset] := gaps;

    // % Identity and entropy
    var identity, entropy := 0.0, 0.0;
    if validChars > 0 {
      var maxId, sum := SummarizeCounts(ln, counts, validChars);
      assert maxId == MaxCount(col);
      identity, entropy := maxId as real / sequenceCount as real, sum;
    }
    outFeatures[offset + 1] := identity;
    outFeatures[offset + 3] := entropy;

    // Distance from extremity
    var edge := (if column < alignmentLength - 1 - column then column else alignmentLength - 1 - column) as real;
    outFeatures[offset + 2] := edge;

    assert gaps == GapFraction(col) && identity == Identity(col) && entropy == Entropy(ln, col);
    assert outFeatures[..] == before[offset := gaps][offset + 1 := identity][offset + 2 := edge][offset + 3 := entropy];
  }

  /** Every sequence is at least as long as the first, which fixes L. */
  predicate Covers(sequenceData: seq<seq<Byte>>) {
    |sequenceData| > 0 && forall i | 0 <= i < |sequenceData| :: |sequenceData[0]| <= |sequenceData[i]|
  }

  /** The first loop of `alifilter_getAlignmentFeatures`: slots 0..3 of every column. */
  method BaseFeatures(ln: real -> real, sequenceData: seq<seq<Byte>>, outFeatures: array<real>)
    requires Covers(sequenceData)
    requires 6 * |sequenceData[0]| <= outFeatures.Length
    modifies outFeatures
    ensures var alignmentLength := |sequenceData[0]|;
      outFeatures[..] == FirstPass(old(outFeatures[..]), ln, RowColumns(sequenceData, alignmentLength), alignmentLength)
  {
    var sequenceCount := |sequenceData|;
    var alignmentLength := |sequenceData[0]|;
    ghost var cols := RowColumns(sequenceData, alignmentLength);
    assert sequenceData[..sequenceCount] == sequenceData;
    assert WellFormed(cols);

    // Compute % Gaps, % Identity, Distance from extremity and Entropy.
    for i := 0 to alignmentLength
      invariant outFeatures[..] == FirstPass(old(outFeatures[..]), ln, cols, i)
    {
      BaseColumn(ln, sequenceData, cols, i, outFeatures);
    }
  }

  /** One turn of the first loop: the call for column i, at offset 6 * i. */
  method BaseColumn(ln: real -> real, sequenceData: seq<seq<Byte>>, ghost cols: seq<seq<Byte>>, i: nat,
                    outFeatures: array<real>)
    requires Covers(sequenceData) && cols == RowColumns(sequenceData, |sequenceData[0]|)
    requires i < |sequenceData[0]| && 6 * |sequenceData[0]| <= outFeatures.Length
    modifies outFeatures
    ensures WellFormed(cols) && outFeatures[..] == WriteBase(old(outFeatures[..]), ln, cols, i)
  {
    var sequenceCount := |sequenceData|;
    assert sequenceData[..sequenceCount] == sequenceData;
    ghost var before := outFeatures[..];
    ComputeColumnFeatures(ln, sequenceData, sequenceCount, |sequenceData[0]|, i, outFeatures, 6 * i);
    WriteBaseIs(before, outFeatures[..], ln, cols, i, RowColumn(sequenceData, i));
  }

  /**
   * `alifilter_getAlignmentFeatures`: S is the number of sequences and L the
   * length of the first; the first 6 * L values of the buffer receive the
   * features of the first L columns, and the rest is left alone.
   */
  method GetAlignmentFeatures(ln: real -> real, sequenceData: seq<seq<Byte>>, outFeatures: array<real>)
    requires Covers(sequenceData)
    requires 6 * |sequenceData[0]| <= outFeatures.Length
    modifies outFeatures
    ensures var alignmentLength := |sequenceData[0]|;
      && outFeatures[..6 * alignmentLength] == Flat(AlignmentFeatures(ln, RowColumns(sequenceData, alignmentLength)))
      && outFeatures[6 * alignmentLength..] == old(outFeatures[6 * alignmentLength..])
  {
    var sequenceCount := |sequenceData|;
    var alignmentLength := |sequenceData[0]|;
    ghost var init := outFeatures[..];
    ghost var cols := RowColumns(sequenceData, alignmentLength);
    BaseFeatures(ln, sequenceData, outFeatures);

    // Compute % Gaps +- 1 and +- 2
    forall k | 0 <= k < alignmentLength ensures outFeatures[6 * k] == GapFractions(cols)[k] {
      FirstPassGaps(init, ln, cols, k);
    }
    SmoothGaps(outFeatures, alignmentLength, GapFractions(cols));
    TwoPasses(init, ln, cols);
  }

  /**
   * The R bindings and the C header compute the same features: sequences of
   * equal length L, handed over one vector each, give the buffer that their
   * row-major concatenation gives in C.
   */
  lemma SameFeaturesAsC(ln: real -> real, sequenceData: seq<seq<Byte>>)
    requires Covers(sequenceData) && Rectangular(sequenceData, |sequenceData[0]|)
    ensures var alignmentLength := |sequenceData[0]|;
      Flat(AlignmentFeatures(ln, RowColumns(sequenceData, alignmentLength))) ==
      Flat(AlignmentFeatures(ln, FlatColumns(Flatten(sequenceData, alignmentLength), |sequenceData|, alignmentLength)))
  {
    LayoutsAgree(sequenceData, |sequenceData[0]|);
  }
}
