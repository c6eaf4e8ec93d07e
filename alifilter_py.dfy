/**
 * The Python module: the alignment is a list of equally long sequences, the
 * features an L x 6 matrix created zeroed and filled in place, and the model
 * functions are expressions over that matrix.
 */
module AliFilterPy {
  import opened Wrappers
  import opened Residues
  import opened ColumnStats
  import opened Windows
  import opened Features
  import opened Layouts
  import opened Scoring
  import opened FeatureLoops

  // ---------------------------------------------------------------------
  // The feature matrix

  /** The rows of an L x 6 feature matrix, as feature vectors. */
  function Matrix(m: array2<real>): (fs: seq<FeatureVector>)
    requires m.Length1 == FeatureCount
    reads m
    ensures |fs| == m.Length0
  {
    seq(m.Length0, i requires 0 <= i < m.Length0 reads m =>
      FeatureVector(m[i, 0], m[i, 1], m[i, 2], m[i, 3], m[i, 4], m[i, 5]))
  }

  /** Row c after the first loop has handled it: columns 0..3 hold the base features, 4 and 5 are kept. */
  function WithBase(v: FeatureVector, ln: real -> real, cols: seq<seq<Byte>>, c: nat): FeatureVector
    requires WellFormed(cols) && c < |cols|
  {
    v.(gaps := GapFraction(cols[c]), identity := Identity(cols[c]),
       edgeDistance := EdgeDistance(|cols|, c) as real, entropy := Entropy(ln, cols[c]))
  }

  /** The matrix after the first loop has handled rows 0..n-1. */
  function FirstPassRows(ms: seq<FeatureVector>, ln: real -> real, cols: seq<seq<Byte>>, n: nat): (r: seq<FeatureVector>)
    requires WellFormed(cols) && n <= |cols| == |ms|
    ensures |r| == |ms|
  {
    if n == 0 then ms
    else
      var p := FirstPassRows(ms, ln, cols, n - 1);
      p[n - 1 := WithBase(p[n - 1], ln, cols, n - 1)]
  }

  /** Row c after the second loop has handled it: columns 4 and 5 hold the window means w1[c] and w2[c]. */
  function WithWindows(v: FeatureVector, w1: seq<real>, w2: seq<real>, c: nat): FeatureVector
    requires c < |w1| == |w2|
  {
    v.(gaps1 := w1[c], gaps2 := w2[c])
  }

  /** The matrix after the second loop has handled rows 0..n-1. */
  function SecondPassRows(ms: seq<FeatureVector>, w1: seq<real>, w2: seq<real>, n: nat): (r: seq<FeatureVector>)
    requires n <= |w1| == |w2| == |ms|
    ensures |r| == |ms|
  {
    if n == 0 then ms
    else
      var p := SecondPassRows(ms, w1, w2, n - 1);
      p[n - 1 := WithWindows(p[n - 1], w1, w2, n - 1)]
  }

  lemma {:induction false} FirstPassRowsAt(ms: seq<FeatureVector>, ln: real -> real, cols: seq<seq<Byte>>, n: nat, k: nat)
    requires WellFormed(cols) && n <= |cols| == |ms| && k < |ms|
    ensures FirstPassRows(ms, ln, cols, n)[k] == if k < n then WithBase(ms[k], ln, cols, k) else ms[k]
  {
    if n > 0 {
      FirstPassRowsAt(ms, ln, cols, n - 1, k);
    }
  }

  lemma {:induction false} SecondPassRowsAt(ms: seq<FeatureVector>, w1: seq<real>, w2: seq<real>, n: nat, k: nat)
    requires n <= |w1| == |w2| == |ms| && k < |ms|
    ensures SecondPassRows(ms, w1, w2, n)[k] == if k < n then WithWindows(ms[k], w1, w2, k) else ms[k]
  {
    if n > 0 {
      SecondPassRowsAt(ms, w1, w2, n - 1, k);
    }
  }

  /**
   * Both loops over all rows turn any L x 6 matrix into the feature matrix of
   * the alignment: nothing of its earlier contents survives.
   */
  lemma TwoPassesRows(ms: seq<FeatureVector>, ln: real -> real, cols: seq<seq<Byte>>)
    requires WellFormed(cols) && |ms| == |cols|
    ensures var g := GapFractions(cols);
      SecondPassRows(FirstPassRows(ms, ln, cols, |cols|), Means(g, 1), Means(g, 2), |cols|) == AlignmentFeatures(ln, cols)
  {
    var g := GapFractions(cols);
    var base := FirstPassRows(ms, ln, cols, |cols|);
    var r := SecondPassRows(base, Means(g, 1), Means(g, 2), |cols|);
    forall k | 0 <= k < |cols| ensures r[k] == AlignmentFeatures(ln, cols)[k] {
      FirstPassRowsAt(ms, ln, cols, |cols|, k);
      SecondPassRowsAt(base, Means(g, 1), Means(g, 2), |cols|, k);
    }
  }

  // ---------------------------------------------------------------------
  // Features

  /**
   * `__alifilter_computeColumnFeatures`: writes gaps, identity, edge distance
   * and entropy of one column to row `column` of the matrix, columns 0..3,
   * and leaves every other cell alone.
   */
  method ComputeColumnFeatures(ln: real -> real, alignment: seq<seq<Byte>>, alignmentLength: nat, column: nat,
                               featureMatrix: array2<real>)
    requires |alignment| > 0 && Rectangular(alignment, alignmentLength) && column < alignmentLength
    requires featureMatrix.Length0 == alignmentLength && featureMatrix.Length1 == FeatureCount
    modifies featureMatrix
    ensures var ms := old(Matrix(featureMatrix));
      Matrix(featureMatrix) == ms[column := WithBase(ms[column], ln, RowColumns(alignment, alignmentLength), column)]
  {
    ghost var cols := RowColumns(alignment, alignmentLength);
    ghost var col := cols[column];
    ghost var before := Matrix(featureMatrix);
    assert alignment[..|alignment|] == alignment;
    var gapCount, validChars, counts := CountRowColumn(alignment, |alignment|, column);

    // % Gaps
    var gaps := gapCount as real / |alignment| as real;
    featureMatrix[column, 0] := gaps;

    // % Identity and entropy
    var identity, entropy := 0.0, 0.0;
    if validChars > 0 {
      var maxId := Largest(counts[..]);
      entropy := EntropySum(ln, counts[..], validChars, AlphabetSize);
      identity := maxId as real / |alignment| as real;
    }
    featureMatrix[column, 1] := identity;
    featureMatrix[column, 3] := entropy;

    // Distance from extremity
    var edge := (if column < alignmentLength - 1 - column then column else alignmentLength - 1 - column) as real;
    featureMatrix[column, 2] := edge;

    assert gaps == GapFraction(col) && identity == Identity(col) && entropy == Entropy(ln, col);
    assert Matrix(featureMatrix) == before[column := before[column].(gaps := gaps, identity := identity,
                                                                      edgeDistance := edge, entropy := entropy)];
  }

  /**
   * One step of the second loop of `__alifilter_getAlignmentFeatures`: the
   * ±1 and ±2 gap means of row i, from column 0 of its in-range neighbours,
   * divided by how many there are.
   */
  method WindowMeansRow(features: array2<real>, alignmentLength: nat, i: nat, ghost g: seq<real>)
    returns (gaps1: real, gaps2: real)
    requires features.Length0 == alignmentLength && features.Length1 == FeatureCount && |g| == alignmentLength
    requires i < alignmentLength && forall k | 0 <= k < alignmentLength :: features[k, 0] == g[k]
    ensures gaps1 == WindowMean(g, i, 1) && gaps2 == WindowMean(g, i, 2)
  {
    var left2 := if i > 1 then features[i - 2, 0] else 0.0;
    var left1 := if i > 0 then features[i - 1, 0] else 0.0;
    var here := features[i, 0];
    var right1 := if i < alignmentLength - 1 then features[i + 1, 0] else 0.0;
    var right2 := if i < alignmentLength - 2 then features[i + 2, 0] else 0.0;
    // % Gaps +- 1
    var count1 := 1 + (if i > 0 then 1 else 0) + (if i < alignmentLength - 1 then 1 else 0);
    Gaps1FromSlots(g, alignmentLength, i, left1, here, right1, count1);
    gaps1 := (left1 + here + right1) / count1 as real;
    // % Gaps +- 2
    var count2 := 1 + (if i > 1 then 2 else if i > 0 then 1 else 0) +
                  (if i < alignmentLength - 2 then 2 else if i < alignmentLength - 1 then 1 else 0);
    Gaps2FromSlots(g, alignmentLength, i, left2, left1, here, right1, right2, count2);
    gaps2 := (left2 + left1 + here + right1 + right2) / count2 as real;
  }

  /**
   * The second loop of `__alifilter_getAlignmentFeatures`: it reads only the
   * gap fractions `g` in column 0 and fills columns 4 and 5 of every row with
   * their window means.
   */
  method SmoothGapRows(features: array2<real>, alignmentLength: nat, ghost g: seq<real>)
    requires features.Length0 == alignmentLength && features.Length1 == FeatureCount && |g| == alignmentLength
    requires forall k | 0 <= k < alignmentLength :: features[k, 0] == g[k]
    modifies features
    ensures Matrix(features) == SecondPassRows(old(Matrix(features)), Means(g, 1), Means(g, 2), alignmentLength)
  {
    ghost var w1, w2 := Means(g, 1), Means(g, 2);
    for i := 0 to alignmentLength
      invariant Matrix(features) == SecondPassRows(old(Matrix(features)), w1, w2, i)
    {
      ghost var before := Matrix(features);
      forall k | 0 <= k < alignmentLength ensures features[k, 0] == g[k] {
        SecondPassRowsAt(old(Matrix(features)), w1, w2, i, k);
        assert features[k, 0] == before[k].gaps;
      }
      var gaps1, gaps2 := WindowMeansRow(features, alignmentLength, i, g);
      SetWindows(features, i, gaps1, gaps2);
    }
  }

  /** `features[i, 4] = gaps1` and `features[i, 5] = gaps2`: row i changes in those two columns only. */
  method SetWindows(features: array2<real>, i: nat, gaps1: real, gaps2: real)
    requires features.Length1 == FeatureCount && i < features.Length0
    modifies features
    ensures Matrix(features) == old(Matrix(features))[i := old(Matrix(features))[i].(gaps1 := gaps1, gaps2 := gaps2)]
  {
    features[i, 4] := gaps1;
    features[i, 5] := gaps2;
  }

  /**
   * `__alifilter_getAlignmentFeatures`: a fresh zeroed L x 6 matrix, filled
   * row by row with columns 0..3, then with columns 4 and 5.
   */
  method GetAlignmentFeatures(ln: real -> real, alignment: seq<seq<Byte>>, alignmentLength: nat)
    returns (features: array2<real>)
    requires |alignment| > 0 && Rectangular(alignment, alignmentLength)
    ensures fresh(features) && features.Length0 == alignmentLength && features.Length1 == FeatureCount
    ensures Matrix(features) == AlignmentFeatures(ln, RowColumns(alignment, alignmentLength))
  {
    features := new real[alignmentLength, FeatureCount]((_, _) => 0.0);
    ghost var init := Matrix(features);
    ghost var cols := RowColumns(alignment, alignmentLength);

    // Compute % Gaps, % Identity, Distance from extremity and Entropy.
    for i := 0 to alignmentLength
      invariant Matrix(features) == FirstPassRows(init, ln, cols, i)
    {
      ComputeColumnFeatures(ln, alignment, alignmentLength, i, features);
    }

    // Compute % Gaps +- 1 and +- 2
    forall k | 0 <= k < alignmentLength ensures features[k, 0] == GapFractions(cols)[k] {
      FirstPassRowsAt(init, ln, cols, alignmentLength, k);
      assert features[k, 0] == Matrix(features)[k].gaps;
    }
    SmoothGapRows(features, alignmentLength, GapFractions(cols));
    TwoPassesRows(init, ln, cols);
  }

  // ---------------------------------------------------------------------
  // Scores, masks and filtering

  /**
   * `AliFilterModel.getScores` as written: the L x 6 matrix times the 6 x 1
   * coefficient column, squeezed, plus the intercept, through the logistic
   * function. For L == 1 the squeeze leaves a 0-d array, which `map` cannot
   * iterate, so the call raises instead of returning a score.
   */
  function SqueezedScores(m: Model, exp: real -> real, features: seq<FeatureVector>): (r: Option<seq<real>>)
    requires PositiveValued(exp)
    ensures r.None? <==> |features| == 1
    ensures r.Some? ==> r.value == Scores(m, exp, features)
  {
    if |features| == 1 then None
    else
      var scores := seq(|features|, i requires 0 <= i < |features| =>
        var x := PartialDot(features[i], m.coefficients, FeatureCount);
        assert exp(-(x + m.intercept)) > 0.0;
        1.0 / (1.0 + exp(-(x + m.intercept))));
      assert forall i | 0 <= i < |features| :: scores[i] == Score(m, exp, features[i]);
      Some(scores)
  }

  /**
   * Every alignment of a single column makes `getScores`, and with it
   * `getMaskFromFeatures`, `getMask` and `filter`, fail, although the
   * alignment has one well-defined score.
   */
  lemma SingleColumnScoresFail(m: Model, exp: real -> real, ln: real -> real, alignment: seq<seq<Byte>>)
    requires PositiveValued(exp) && |alignment| > 0 && Rectangular(alignment, 1)
    ensures SqueezedScores(m, exp, AlignmentFeatures(ln, RowColumns(alignment, 1))).None?
    ensures var scores := Scores(m, exp, AlignmentFeatures(ln, RowColumns(alignment, 1)));
      |scores| == 1 && 0.0 < scores[0] < 1.0
  {
    var fs := AlignmentFeatures(ln, RowColumns(alignment, 1));
    assert |fs| == 1;
  }

  /**
   * `AliFilterModel.getMask` (with `getScores` corrected): character c of the
   * mask is '1' exactly when column c of the alignment scores at least the
   * model's threshold.
   */
  function GetMask(m: Model, exp: real -> real, ln: real -> real, alignment: seq<seq<Byte>>, alignmentLength: nat)
    : (mask: string)
    requires PositiveValued(exp) && |alignment| > 0 && Rectangular(alignment, alignmentLength)
    ensures |mask| == alignmentLength
    ensures forall c | 0 <= c < alignmentLength ::
      (mask[c] == '1' || mask[c] == '0') &&
      (mask[c] == '1' <==> Score(m, exp, ColumnFeatures(ln, RowColumns(alignment, alignmentLength), c)) >= m.threshold)
  {
    MaskFromFeatures(m, exp, AlignmentFeatures(ln, RowColumns(alignment, alignmentLength)))
  }

  /**
   * `AliFilterModel.filter` (with `getScores` corrected): every sequence
   * keeps, in order, the characters of the columns whose score reaches the
   * threshold.
   */
  function Filter(m: Model, exp: real -> real, ln: real -> real, alignment: seq<seq<Byte>>, alignmentLength: nat)
    : (filtered: seq<seq<Byte>>)
    requires PositiveValued(exp) && |alignment| > 0 && Rectangular(alignment, alignmentLength)
    ensures |filtered| == |alignment|
  {
    var scores := Scores(m, exp, AlignmentFeatures(ln, RowColumns(alignment, alignmentLength)));
    seq(|alignment|, k requires 0 <= k < |alignment| => Select(alignment[k], scores, m.threshold))
  }

  /**
   * Filtering keeps exactly the columns `getMask` marks '1': each filtered
   * sequence is its sequence restricted to the marked columns, so all are as
   * long as the mask has '1's and the result is again an alignment.
   */
  lemma FilterKeepsMarked(m: Model, exp: real -> real, ln: real -> real, alignment: seq<seq<Byte>>, alignmentLength: nat)
    requires PositiveValued(exp) && |alignment| > 0 && Rectangular(alignment, alignmentLength)
    ensures var mask := GetMask(m, exp, ln, alignment, alignmentLength);
      var filtered := Filter(m, exp, ln, alignment, alignmentLength);
      && (forall k | 0 <= k < |alignment| :: filtered[k] == KeepMarked(alignment[k], mask))
      && Rectangular(filtered, Ones(mask))
  {
    var scores := Scores(m, exp, AlignmentFeatures(ln, RowColumns(alignment, alignmentLength)));
    var mask := GetMask(m, exp, ln, alignment, alignmentLength);
    var filtered := Filter(m, exp, ln, alignment, alignmentLength);
    forall k | 0 <= k < |alignment| ensures filtered[k] == KeepMarked(alignment[k], mask) && |filtered[k]| == Ones(mask) {
      SelectIsMasked(alignment[k], scores, m.threshold);
      KeepMarkedLength(alignment[k], mask);
    }
  }
}
