/**
 * The C header implementation: the alignment is one row-major buffer of
 * S * L characters, features go to a malloc'd buffer of 6 * L doubles, and
 * every stage reports a failed allocation by returning NULL (here `None`).
 */
module AliFilterC {
  import opened Wrappers
  import opened Residues
  import opened ColumnStats
  import opened Windows
  import opened Features
  import opened Layouts
  import opened Scoring
  import opened Passes
  import opened FeatureLoops

  // ---------------------------------------------------------------------
  // malloc

  /** Whether the k-th of the upcoming allocations succeeds; allocations past the script succeed. */
  predicate Grants(outcomes: seq<bool>, k: nat) {
    k >= |outcomes| || outcomes[k]
  }

  /** The script after k allocations. */
  function Drop(outcomes: seq<bool>, k: nat): seq<bool> {
    if k >= |outcomes| then [] else outcomes[k..]
  }

  lemma DropDrop(outcomes: seq<bool>, a: nat, b: nat)
    ensures Drop(Drop(outcomes, a), b) == Drop(outcomes, a + b)
    ensures Grants(Drop(outcomes, a), b) == Grants(outcomes, a + b)
  {
  }

  /**
   * The memory allocator. Whether each call of malloc succeeds is outside the
   * program's control; `outcomes` scripts the answers of the calls to come.
   */
  class Allocator {
    var outcomes: seq<bool>

    constructor (outcomes: seq<bool>)
      ensures this.outcomes == outcomes
    {
      this.outcomes := outcomes;
    }

    /** malloc of n elements: a fresh buffer with unspecified contents, or NULL. */
    method Malloc<T(0)>(n: nat) returns (p: Option<array<T>>)
      modifies this
      ensures outcomes == Drop(old(outcomes), 1)
      ensures p.Some? <==> Grants(old(outcomes), 0)
      ensures p.Some? ==> fresh(p.value) && p.value.Length == n
    {
      var granted := Grants(outcomes, 0);
      outcomes := Drop(outcomes, 1);
      if granted {
        var buffer := new T[n];
        p := Some(buffer);
      } else {
        p := None;
      }
    }
  }

  // ---------------------------------------------------------------------
  // Features

  /**
   * The loop over the sequences in `alifilter_computeColumnFeatures`: the gap
   * count, the count of letters, and the per-letter tally of one column of
   * the flat buffer (the counts array starts zeroed, as its `{ 0 }` initializer makes it).
   */
  method CountFlatColumn(sequenceData: array<Byte>, sequenceCount: nat, alignmentLength: nat, column: nat)
    returns (gapCount: nat, validChars: nat, counts: array<int>)
    requires column < alignmentLength && sequenceCount * alignmentLength <= sequenceData.Length
    ensures var col := FlatColumn(sequenceData[..], sequenceCount, alignmentLength, column);
      gapCount == GapCount(col) && validChars == ValidCount(col) && counts[..] == Tally(col)
    ensures fresh(counts)
  {
    ghost var col := FlatColumn(sequenceData[..], sequenceCount, alignmentLength, column);
    gapCount := 0;
    counts := new int[AlphabetSize](_ => 0);
    validChars := 0;
    TallyEmpty(col);
    assert counts[..] == Tally(col[..0]);

    for i := 0 to sequenceCount
      modifies counts
      invariant gapCount == GapCount(col[..i]) && validChars == ValidCount(col[..i])
      invariant counts[..] == Tally(col[..i])
    {
      FlatIndexBound(i, sequenceCount, alignmentLength, column);
      var c := sequenceData[i * alignmentLength + column];
      assert c == col[i];
      CountStep(col, i);
      if c == GapSymbol {
        gapCount := gapCount + 1;
      } else {
        var upper := ToUpper(c);
        if UpperA <= upper <= UpperZ {
          validChars := validChars + 1;
          counts[upper - UpperA] := counts[upper - UpperA] + 1;
        }
      }
    }
    WholeColumn(col);
  }

  /**
   * `alifilter_computeColumnFeatures`: writes gaps, identity, edge distance and
   * entropy of one column to out_features[0..3] (here `offset` .. `offset + 3`)
   * and leaves every other element alone.
   */
  method ComputeColumnFeatures(ln: real -> real, sequenceData: array<Byte>, sequenceCount: nat,
                               alignmentLength: nat, column: nat, outFeatures: array<real>, offset: nat)
    requires sequenceCount > 0 && column < alignmentLength
    requires sequenceCount * alignmentLength <= sequenceData.Length
    requires offset + 4 <= outFeatures.Length
    modifies outFeatures
    ensures var col := FlatColumn(sequenceData[..], sequenceCount, alignmentLength, column);
      outFeatures[..] == old(outFeatures[..])[offset := GapFraction(col)][offset + 1 := Identity(col)]
                           [offset + 2 := EdgeDistance(alignmentLength, column) as real][offset + 3 := Entropy(ln, col)]
  {
    ghost var col := FlatColumn(sequenceData[..], sequenceCount, alignmentLength, column);
    var gapCount, validChars, counts := CountFlatColumn(sequenceData, sequenceCount, alignmentLength, column);
    ghost var before := outFeatures[..];

    // % Gaps
    var gaps := gapCount as real / sequenceCount as real;
    outFeatures[offset] := gaps;

    // % Identity and entropy
    var identity, entropy := 0.0, 0.0;
    if validChars > 0 {
      var maxId, sum := SummarizeCounts(ln, counts, validChars);
      assert maxId == MaxCount(col);
      identity, entropy := maxId as real / sequenceCount as real, sum;
    }
    outFeatures[offset + 1] := identity;
    outFeatures[offset + 3] := entropy;

    // Distance from extremity
    var edge := (if column < alignmentLength - 1 - column then column else alignmentLength - 1 - column) as real;
    outFeatures[offset + 2] := edge;

    assert gaps == GapFraction(col) && identity == Identity(col) && entropy == Entropy(ln, col);
    assert outFeatures[..] == before[offset := gaps][offset + 1 := identity][offset + 2 := edge][offset + 3 := entropy];
  }

  /** The first loop of `alifilter_getAlignmentFeatures`: slots 0..3 of every column. */
  method BaseFeatures(ln: real -> real, sequenceData: array<Byte>, sequenceCount: nat, alignmentLength: nat,
                      f: array<real>)
    requires sequenceCount > 0 && sequenceCount * alignmentLength <= sequenceData.Length
    requires 6 * alignmentLength <= f.Length
    modifies f
    ensures f[..] == FirstPass(old(f[..]), ln, FlatColumns(sequenceData[..], sequenceCount, alignmentLength), alignmentLength)
  {
    ghost var cols := FlatColumns(sequenceData[..], sequenceCount, alignmentLength);
    assert WellFormed(cols);
    // % Gaps, % Identity, distance from extremity and entropy
    for i := 0 to alignmentLength
      invariant f[..] == FirstPass(old(f[..]), ln, cols, i)
    {
      BaseColumn(ln, sequenceData, sequenceCount, alignmentLength, cols, i, f);
    }
  }

  /** One turn of the first loop: the call for column i, at offset 6 * i. */
  method BaseColumn(ln: real -> real, sequenceData: array<Byte>, sequenceCount: nat, alignmentLength: nat,
                    ghost cols: seq<seq<Byte>>, i: nat, f: array<real>)
    requires sequenceCount > 0 && sequenceCount * alignmentLength <= sequenceData.Length
    requires cols == FlatColumns(sequenceData[..], sequenceCount, alignmentLength)
    requires i < alignmentLength && 6 * alignmentLength <= f.Length
    modifies f
    ensures WellFormed(cols) && f[..] == WriteBase(old(f[..]), ln, cols, i)
  {
    ghost var before := f[..];
    ComputeColumnFeatures(ln, sequenceData, sequenceCount, alignmentLength, i, f, 6 * i);
    WriteBaseIs(before, f[..], ln, cols, i, FlatColumn(sequenceData[..], sequenceCount, alignmentLength, i));
  }

  /**
   * The body of `alifilter_getAlignmentFeatures` once its buffer exists: the
   * first loop fills slots 0..3 of every column and the second loop, reading
   * only the finished slot-0 values, fills slots 4 and 5.
   */
  method FillFeatures(ln: real -> real, sequenceData: array<Byte>, sequenceCount: nat, alignmentLength: nat,
                      f: array<real>)
    requires sequenceCount > 0 && sequenceCount * alignmentLength <= sequenceData.Length
    requires f.Length == 6 * alignmentLength
    modifies f
    ensures f[..] == Flat(AlignmentFeatures(ln, FlatColumns(sequenceData[..], sequenceCount, alignmentLength)))
  {
    ghost var init := f[..];
    ghost var cols := FlatColumns(sequenceData[..], sequenceCount, alignmentLength);
    BaseFeatures(ln, sequenceData, sequenceCount, alignmentLength, f);

    // % Gaps +- 1 and +- 2
    forall k | 0 <= k < alignmentLength ensures f[6 * k] == GapFractions(cols)[k] {
      FirstPassGaps(init, ln, cols, k);
    }
    SmoothGaps(f, alignmentLength, GapFractions(cols));
    TwoPasses(init, ln, cols);
    assert f[..] == f[..6 * alignmentLength];
  }

  /**
   * `alifilter_getAlignmentFeatures`: NULL if the 6 * L buffer cannot be
   * allocated, otherwise a fresh buffer holding the features of every column.
   */
  method GetAlignmentFeatures(alloc: Allocator, ln: real -> real, sequenceData: array<Byte>,
                              sequenceCount: nat, alignmentLength: nat) returns (features: Option<array<real>>)
    requires sequenceCount > 0 && sequenceCount * alignmentLength <= sequenceData.Length
    modifies alloc
    ensures alloc.outcomes == Drop(old(alloc.outcomes), 1)
    ensures features.Some? <==> Grants(old(alloc.outcomes), 0)
    ensures features.Some? ==> fresh(features.value)
    ensures features.Some? ==>
      features.value[..] == Flat(AlignmentFeatures(ln, FlatColumns(sequenceData[..], sequenceCount, alignmentLength)))
  {
    var p := alloc.Malloc<real>(6 * alignmentLength);
    if p.None? {
      return None;
    }
    FillFeatures(ln, sequenceData, sequenceCount, alignmentLength, p.value);
    features := p;
  }

  // ---------------------------------------------------------------------
  // Scores and masks

  /**
   * One pass of the outer loop of `alifilter_getScores`: the intercept plus
   * the six feature-coefficient products of column i, through the logistic
   * function.
   */
  method ScoreAt(m: Model, exp: real -> real, alignmentFeatures: array<real>, i: nat) returns (score: real)
    requires PositiveValued(exp)
    requires 6 * i + 6 <= alignmentFeatures.Length
    ensures score == Score(m, exp, BlockAt(alignmentFeatures[..], i))
  {
    ghost var v := BlockAt(alignmentFeatures[..], i);
    var z := m.intercept;
    for j := 0 to FeatureCount
      invariant z == m.intercept + PartialDot(v, m.coefficients, j)
    {
      assert alignmentFeatures[6 * i + j] == v.Slot(j);
      z := z + alignmentFeatures[6 * i + j] * m.coefficients[j];
    }
    score := 1.0 / (1.0 + exp(-z));
  }

  /**
   * `alifilter_getScores`: NULL if the L scores cannot be allocated, otherwise
   * the logistic score of every column of the 6 * L feature buffer.
   */
  method GetScores(alloc: Allocator, m: Model, exp: real -> real, alignmentFeatures: array<real>, alignmentLength: nat)
    returns (scores: Option<array<real>>)
    requires PositiveValued(exp)
    requires 6 * alignmentLength <= alignmentFeatures.Length
    modifies alloc
    ensures alloc.outcomes == Drop(old(alloc.outcomes), 1)
    ensures scores.Some? <==> Grants(old(alloc.outcomes), 0)
    ensures scores.Some? ==> fresh(scores.value) && scores.value.Length == alignmentLength
    ensures scores.Some? ==>
      scores.value[..] == Scores(m, exp, Unflat(alignmentFeatures[..6 * alignmentLength]))
  {
    var p := alloc.Malloc<real>(alignmentLength);
    if p.None? {
      return None;
    }
    var out := p.value;
    ghost var fs := Unflat(alignmentFeatures[..6 * alignmentLength]);
    ghost var target := Scores(m, exp, fs);
    for i := 0 to alignmentLength
      modifies out
      invariant out[..i] == target[..i]
    {
      var score := ScoreAt(m, exp, alignmentFeatures, i);
      assert BlockAt(alignmentFeatures[..], i) == fs[i];
      out[i] := score;
      assert out[..i + 1] == target[..i] + [score];
    }
    assert out[..] == out[..alignmentLength];
    scores := p;
  }

  /**
   * `alifilter_getMaskFromScores`: NULL if the L + 1 characters cannot be
   * allocated, otherwise a NUL-terminated string of '1' (score at least the
   * threshold) and '0'.
   */
  method GetMaskFromScores(alloc: Allocator, m: Model, alignmentScores: array<real>, alignmentLength: nat)
    returns (mask: Option<array<char>>)
    requires alignmentLength <= alignmentScores.Length
    modifies alloc
    ensures alloc.outcomes == Drop(old(alloc.outcomes), 1)
    ensures mask.Some? <==> Grants(old(alloc.outcomes), 0)
    ensures mask.Some? ==> fresh(mask.value) && mask.value.Length == alignmentLength + 1
    ensures mask.Some? ==> mask.value[..alignmentLength] == MaskFromScores(m.threshold, alignmentScores[..alignmentLength])
    ensures mask.Some? ==> mask.value[alignmentLength] == '\0'
  {
    var p := alloc.Malloc<char>(alignmentLength + 1);
    if p.None? {
      return None;
    }
    var out := p.value;
    for i := 0 to alignmentLength
      modifies out
      invariant forall k | 0 <= k < i :: out[k] == MaskChar(alignmentScores[k] >= m.threshold)
    {
      out[i] := if alignmentScores[i] >= m.threshold then '1' else '0';
    }
    out[alignmentLength] := '\0';
    mask := p;
  }

  /**
   * `alifilter_getMaskFromFeatures`: scores, then the mask; NULL if either
   * allocation fails, and the second is not attempted after the first fails.
   */
  method GetMaskFromFeatures(alloc: Allocator, m: Model, exp: real -> real, alignmentFeatures: array<real>, alignmentLength: nat)
    returns (mask: Option<array<char>>)
    requires PositiveValued(exp)
    requires 6 * alignmentLength <= alignmentFeatures.Length
    modifies alloc
    ensures alloc.outcomes == Drop(old(alloc.outcomes), if Grants(old(alloc.outcomes), 0) then 2 else 1)
    ensures mask.Some? <==> Grants(old(alloc.outcomes), 0) && Grants(old(alloc.outcomes), 1)
    ensures mask.Some? ==> fresh(mask.value) && mask.value.Length == alignmentLength + 1
    ensures mask.Some? ==>
      mask.value[..alignmentLength] == MaskFromFeatures(m, exp, Unflat(alignmentFeatures[..6 * alignmentLength]))
    ensures mask.Some? ==> mask.value[alignmentLength] == '\0'
  {
    DropDrop(alloc.outcomes, 1, 1);
    var scores := GetScores(alloc, m, exp, alignmentFeatures, alignmentLength);
    if scores.None? {
      return None;
    }
    assert scores.value[..alignmentLength] == scores.value[..];
    mask := GetMaskFromScores(alloc, m, scores.value, alignmentLength);
  }

  /**
   * `alifilter_getMask`: features, scores, then the mask of the alignment;
   * NULL as soon as one of the three allocations fails.
   */
  method GetMask(alloc: Allocator, m: Model, ln: real -> real, exp: real -> real, sequenceData: array<Byte>,
                 sequenceCount: nat, alignmentLength: nat) returns (mask: Option<array<char>>)
    requires PositiveValued(exp)
    requires sequenceCount > 0 && sequenceCount * alignmentLength <= sequenceData.Length
    modifies alloc
    ensures alloc.outcomes == Drop(old(alloc.outcomes),
      if !Grants(old(alloc.outcomes), 0) then 1 else if !Grants(old(alloc.outcomes), 1) then 2 else 3)
    ensures mask.Some? <==>
      Grants(old(alloc.outcomes), 0) && Grants(old(alloc.outcomes), 1) && Grants(old(alloc.outcomes), 2)
    ensures mask.Some? ==> fresh(mask.value) && mask.value.Length == alignmentLength + 1
    ensures mask.Some? ==>
      mask.value[..alignmentLength] ==
      MaskFromFeatures(m, exp, AlignmentFeatures(ln, FlatColumns(sequenceData[..], sequenceCount, alignmentLength)))
    ensures mask.Some? ==> mask.value[alignmentLength] == '\0'
  {
    DropDrop(alloc.outcomes, 1, 1);
    DropDrop(alloc.outcomes, 1, 2);
    DropDrop(alloc.outcomes, 2, 1);
    var features := GetAlignmentFeatures(alloc, ln, sequenceData, sequenceCount, alignmentLength);
    if features.None? {
      return None;
    }
    ghost var fs := AlignmentFeatures(ln, FlatColumns(sequenceData[..], sequenceCount, alignmentLength));
    UnflatFlat(fs);
    assert features.value[..6 * alignmentLength] == features.value[..];
    mask := GetMaskFromFeatures(alloc, m, exp, features.value, alignmentLength);
  }
}
