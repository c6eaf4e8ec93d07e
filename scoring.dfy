/**
 * The logistic model applied to feature vectors, the threshold mask, and the
 * column selection that the mask stands for.
 */
module Scoring {
  import opened Residues
  import opened Features

  /** The exponential is abstracted to any function with positive values. */
  ghost predicate PositiveValued(exp: real -> real) {
    forall x: real :: exp(x) > 0.0
  }

  /** Exactly one coefficient per feature. */
  type Coefficients = s: seq<real> | |s| == FeatureCount witness [0.0, 0.0, 0.0, 0.0, 0.0, 0.0]

  /** A trained model: decision threshold, coefficients and intercept. */
  datatype Model = Model(threshold: real, coefficients: Coefficients, intercept: real)

  /** The threshold a model file that names none is given. */
  const DefaultThreshold: real := 0.5

  /** features[0] * coefficients[0] + ... + features[n-1] * coefficients[n-1]. */
  function PartialDot(v: FeatureVector, coefficients: Coefficients, n: nat): real
    requires n <= FeatureCount
  {
    if n == 0 then 0.0 else PartialDot(v, coefficients, n - 1) + v.Slot(n - 1) * coefficients[n - 1]
  }

  /** z = intercept + sum of feature times coefficient. */
  function LinearPredictor(m: Model, v: FeatureVector): real {
    m.intercept + PartialDot(v, m.coefficients, FeatureCount)
  }

  /** The logistic function 1 / (1 + exp(-z)); its values lie strictly between 0 and 1. */
  function Sigmoid(exp: real -> real, z: real): (s: real)
    requires PositiveValued(exp)
    ensures 0.0 < s < 1.0
  {
    var e := exp(-z);
    assert e > 0.0;
    1.0 / (1.0 + e)
  }

  /** The score of one column. */
  function Score(m: Model, exp: real -> real, v: FeatureVector): (r: real)
    requires PositiveValued(exp)
    ensures 0.0 < r < 1.0
  {
    Sigmoid(exp, LinearPredictor(m, v))
  }

  /** `getScores`: one score per column, in column order. */
  function Scores(m: Model, exp: real -> real, fs: seq<FeatureVector>): (scores: seq<real>)
    requires PositiveValued(exp)
    ensures |scores| == |fs|
    ensures forall i | 0 <= i < |fs| :: scores[i] == Score(m, exp, fs[i]) && 0.0 < scores[i] < 1.0
  {
    if fs == [] then [] else [Score(m, exp, fs[0])] + Scores(m, exp, fs[1..])
  }

  /** '1' keeps a column, '0' discards it. */
  function MaskChar(keep: bool): char {
    if keep then '1' else '0'
  }

  /** `getMaskFromScores`: character i is '1' iff score i reaches the threshold (inclusive). */
  function MaskFromScores(threshold: real, scores: seq<real>): (mask: string)
    ensures |mask| == |scores|
    ensures forall i | 0 <= i < |scores| :: (mask[i] == '1' || mask[i] == '0') && (mask[i] == '1' <==> scores[i] >= threshold)
  {
    if scores == [] then "" else [MaskChar(scores[0] >= threshold)] + MaskFromScores(threshold, scores[1..])
  }

  /** `getMaskFromFeatures`: score, then threshold. */
  function MaskFromFeatures(m: Model, exp: real -> real, fs: seq<FeatureVector>): (mask: string)
    requires PositiveValued(exp)
    ensures |mask| == |fs|
    ensures forall i | 0 <= i < |fs| :: mask[i] == '1' <==> Score(m, exp, fs[i]) >= m.threshold
  {
    MaskFromScores(m.threshold, Scores(m, exp, fs))
  }

  /** The characters of `row` at the positions i < |scores| whose score reaches the threshold, in order. */
  function Select(row: seq<Byte>, scores: seq<real>, threshold: real): (r: seq<Byte>)
    requires |scores| <= |row|
    ensures |r| <= |scores|
    ensures forall x | x in r :: x in row[..|scores|]
  {
    if scores == [] then []
    else (if scores[0] >= threshold then [row[0]] else []) + Select(row[1..], scores[1..], threshold)
  }

  /** The characters of `row` at the positions marked '1' in `mask`, in order. */
  function KeepMarked(row: seq<Byte>, mask: string): seq<Byte>
    requires |mask| <= |row|
  {
    if mask == "" then []
    else (if mask[0] == '1' then [row[0]] else []) + KeepMarked(row[1..], mask[1..])
  }

  /** Number of '1' characters in a mask. */
  function Ones(mask: string): nat {
    if mask == "" then 0 else (if mask[0] == '1' then 1 else 0) + Ones(mask[1..])
  }

  /** Selecting by score is keeping the columns the mask marks '1'. */
  lemma {:induction false} SelectIsMasked(row: seq<Byte>, scores: seq<real>, threshold: real)
    requires |scores| <= |row|
    ensures Select(row, scores, threshold) == KeepMarked(row, MaskFromScores(threshold, scores))
  {
    if scores != [] {
      SelectIsMasked(row[1..], scores[1..], threshold);
      assert MaskFromScores(threshold, scores)[1..] == MaskFromScores(threshold, scores[1..]);
    }
  }

  /** A sequence filtered by a mask is as long as the mask has '1's. */
  lemma {:induction false} KeepMarkedLength(row: seq<Byte>, mask: string)
    requires |mask| <= |row|
    ensures |KeepMarked(row, mask)| == Ones(mask)
  {
    if mask != "" {
      KeepMarkedLength(row[1..], mask[1..]);
    }
  }

  /** With exp(0) = 1, a zero linear predictor scores exactly 0.5, which the default threshold keeps. */
  lemma SigmoidAtZero(exp: real -> real)
    requires PositiveValued(exp) && exp(0.0) == 1.0
    ensures Sigmoid(exp, 0.0) == 0.5
    ensures Sigmoid(exp, 0.0) >= DefaultThreshold
  {
    assert -0.0 == 0.0;
  }
}
