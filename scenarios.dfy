/**
 * Worked cases: what the reference definitions give on special alignments
 * and models.
 */
module Scenarios {
  import opened Residues
  import opened ColumnStats
  import opened Windows
  import opened Features
  import opened Scoring

  /** A column in which every sequence has the same letter, in either case. */
  predicate Conserved(col: seq<Byte>) {
    && |col| > 0
    && IsLetter(col[0])
    && forall i | 0 <= i < |col| :: IsLetter(col[i]) && LetterIndex(col[i]) == LetterIndex(col[0])
  }

  /**
   * In an alignment of conserved columns every column has no gaps, full
   * identity, no entropy (as ln(1) = 0) and window means 0; only the edge
   * distance varies.
   */
  lemma ConservedFeatures(ln: real -> real, cols: seq<seq<Byte>>, c: nat)
    requires c < |cols| && forall k | 0 <= k < |cols| :: Conserved(cols[k])
    requires ln(1.0) == 0.0
    ensures WellFormed(cols)
    ensures ColumnFeatures(ln, cols, c) == FeatureVector(0.0, 1.0, EdgeDistance(|cols|, c) as real, 0.0, 0.0, 0.0)
  {
    var g := GapFractions(cols);
    forall k | 0 <= k < |g| ensures g[k] == 0.0 {
      UniformColumn(ln, cols[k]);
    }
    UniformColumn(ln, cols[c]);
    ConstantWindowMean(g, 0.0, c, 1);
    ConstantWindowMean(g, 0.0, c, 2);
  }

  /** Upper and lower case of a letter fall in the same slot: "Aa" is conserved. */
  lemma CaseIsIgnored(col: seq<Byte>)
    requires col == ['A' as int, 'a' as int]
    ensures Conserved(col)
  {
    LetterClassification(col[0]);
    LetterClassification(col[1]);
  }

  /**
   * A model whose coefficients and intercept are all 0 scores every column
   * 0.5 (when exp(0) = 1), so the default threshold keeps every column,
   * whatever its features.
   */
  lemma ZeroModelKeepsAll(exp: real -> real, fs: seq<FeatureVector>)
    requires PositiveValued(exp) && exp(0.0) == 1.0
    ensures var m := Model(DefaultThreshold, [0.0, 0.0, 0.0, 0.0, 0.0, 0.0], 0.0);
      forall i | 0 <= i < |fs| :: MaskFromFeatures(m, exp, fs)[i] == '1'
  {
    var m := Model(DefaultThreshold, [0.0, 0.0, 0.0, 0.0, 0.0, 0.0], 0.0);
    SigmoidAtZero(exp);
    forall i | 0 <= i < |fs| ensures Score(m, exp, fs[i]) >= m.threshold {
      ZeroDot(fs[i], m.coefficients, FeatureCount);
    }
  }

  lemma {:induction false} ZeroDot(v: FeatureVector, coefficients: Coefficients, n: nat)
    requires n <= FeatureCount && forall j | 0 <= j < FeatureCount :: coefficients[j] == 0.0
    ensures PartialDot(v, coefficients, n) == 0.0
  {
    if n > 0 {
      ZeroDot(v, coefficients, n - 1);
    }
  }
}
