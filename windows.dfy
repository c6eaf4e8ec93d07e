/**
 * The second feature pass: the gap fraction averaged over the columns of
 * [i - radius, i + radius] that exist. It reads only the finished gap
 * fractions `g` of all columns.
 */
module Windows {

  /** g[lo] + ... + g[hi - 1]. */
  function RangeSum(g: seq<real>, lo: nat, hi: nat): real
    requires lo <= hi <= |g|
  {
    if lo == hi then 0.0 else RangeSum(g, lo, hi - 1) + g[hi - 1]
  }

  /** First column of the clipped window. */
  function WindowStart(i: nat, radius: nat): nat {
    if i >= radius then i - radius else 0
  }

  /** One past the last column of the clipped window. */
  function WindowEnd(i: nat, radius: nat, alignmentLength: nat): nat {
    if i + radius + 1 <= alignmentLength then i + radius + 1 else alignmentLength
  }

  /** Number of columns of [i - radius, i + radius] inside [0, L - 1]. */
  function InRange(i: nat, radius: nat, alignmentLength: nat): (n: nat)
    requires i < alignmentLength
    ensures 1 <= n
  {
    WindowEnd(i, radius, alignmentLength) - WindowStart(i, radius)
  }

  /** The mean of the gap fractions over the clipped window. */
  function WindowMean(g: seq<real>, i: nat, radius: nat): real
    requires i < |g|
  {
    RangeSum(g, WindowStart(i, radius), WindowEnd(i, radius, |g|)) / InRange(i, radius, |g|) as real
  }

  /** The window means of all columns, in column order. */
  function Means(g: seq<real>, radius: nat): (w: seq<real>)
    ensures |w| == |g|
  {
    seq(|g|, c requires 0 <= c < |g| => WindowMean(g, c, radius))
  }

  /** The ±1 window holds the in-range neighbours of column i and column i itself. */
  lemma Window1Sum(g: seq<real>, i: nat)
    requires i < |g|
    ensures RangeSum(g, WindowStart(i, 1), WindowEnd(i, 1, |g|)) ==
            (if i > 0 then g[i - 1] else 0.0) + g[i] + (if i < |g| - 1 then g[i + 1] else 0.0)
  {
    Unroll(g, WindowStart(i, 1), WindowEnd(i, 1, |g|));
  }

  /** The ±2 window holds the in-range neighbours of column i and column i itself. */
  lemma Window2Sum(g: seq<real>, i: nat)
    requires i < |g|
    ensures RangeSum(g, WindowStart(i, 2), WindowEnd(i, 2, |g|)) ==
            (if i > 1 then g[i - 2] else 0.0) + (if i > 0 then g[i - 1] else 0.0) + g[i] +
            (if i < |g| - 1 then g[i + 1] else 0.0) + (if i < |g| - 2 then g[i + 2] else 0.0)
  {
    var lo, hi := WindowStart(i, 2), WindowEnd(i, 2, |g|);
    Unroll(g, lo, hi);
    if i > 1 {
      assert lo == i - 2;
    } else if i == 1 {
      assert lo == 0;
    } else {
      assert lo == 0;
    }
  }

  /** The ±1 divisor counts one for column i and one for each neighbour that exists. */
  lemma Window1Count(i: nat, alignmentLength: nat)
    requires i < alignmentLength
    ensures InRange(i, 1, alignmentLength) == 1 + (if i > 0 then 1 else 0) + (if i < alignmentLength - 1 then 1 else 0)
  {
  }

  /** The ±2 divisor counts one for column i and one for each neighbour that exists. */
  lemma Window2Count(i: nat, alignmentLength: nat)
    requires i < alignmentLength
    ensures InRange(i, 2, alignmentLength) ==
            1 + (if i > 1 then 2 else if i > 0 then 1 else 0) +
            (if i < alignmentLength - 2 then 2 else if i < alignmentLength - 1 then 1 else 0)
  {
  }

  lemma SameQuotient(a: real, b: real, c: real, d: real)
    requires a == b && c == d && c != 0.0
    ensures a / c == b / d
  {
  }

  /**
   * `% Gaps +- 1` as all three implementations write it, over the three slot-0
   * values they read and with its data-dependent divisor, is the window mean.
   */
  lemma Gaps1FromSlots(g: seq<real>, alignmentLength: nat, i: nat, left: real, here: real, right: real, count: nat)
    requires |g| == alignmentLength && i < alignmentLength
    requires left == (if i > 0 then g[i - 1] else 0.0) && here == g[i]
    requires right == (if i < alignmentLength - 1 then g[i + 1] else 0.0)
    requires count == 1 + (if i > 0 then 1 else 0) + (if i < alignmentLength - 1 then 1 else 0)
    ensures count > 0 && (left + here + right) / count as real == WindowMean(g, i, 1)
  {
    Window1Sum(g, i);
    Window1Count(i, alignmentLength);
    SameQuotient(left + here + right, RangeSum(g, WindowStart(i, 1), WindowEnd(i, 1, |g|)),
                 count as real, InRange(i, 1, alignmentLength) as real);
  }

  /** `% Gaps +- 2` likewise, over the five slot-0 values the implementations read. */
  lemma Gaps2FromSlots(g: seq<real>, alignmentLength: nat, i: nat, left2: real, left1: real, here: real, right1: real, right2: real,
                       count: nat)
    requires |g| == alignmentLength && i < alignmentLength
    requires left2 == (if i > 1 then g[i - 2] else 0.0) && left1 == (if i > 0 then g[i - 1] else 0.0) && here == g[i]
    requires right1 == (if i < alignmentLength - 1 then g[i + 1] else 0.0)
    requires right2 == (if i < alignmentLength - 2 then g[i + 2] else 0.0)
    requires count == 1 + (if i > 1 then 2 else if i > 0 then 1 else 0) +
                      (if i < alignmentLength - 2 then 2 else if i < alignmentLength - 1 then 1 else 0)
    ensures count > 0 && (left2 + left1 + here + right1 + right2) / count as real == WindowMean(g, i, 2)
  {
    Window2Sum(g, i);
    Window2Count(i, alignmentLength);
    SameQuotient(left2 + left1 + here + right1 + right2, RangeSum(g, WindowStart(i, 2), WindowEnd(i, 2, |g|)),
                 count as real, InRange(i, 2, alignmentLength) as real);
  }

  /** Writes out a sum of at most five terms. */
  lemma Unroll(g: seq<real>, lo: nat, hi: nat)
    requires lo <= hi <= |g| && hi - lo <= 5
    ensures RangeSum(g, lo, hi) ==
              (if lo < hi then g[lo] else 0.0) + (if lo + 1 < hi then g[lo + 1] else 0.0) +
              (if lo + 2 < hi then g[lo + 2] else 0.0) + (if lo + 3 < hi then g[lo + 3] else 0.0) +
              (if lo + 4 < hi then g[lo + 4] else 0.0)
  {
    if lo < hi { assert RangeSum(g, lo, lo) == 0.0; }
    if lo + 1 < hi { assert RangeSum(g, lo, lo + 1) == g[lo]; }
    if lo + 2 < hi { assert RangeSum(g, lo, lo + 2) == g[lo] + g[lo + 1]; }
    if lo + 3 < hi { assert RangeSum(g, lo, lo + 3) == g[lo] + g[lo + 1] + g[lo + 2]; }
    if lo + 4 < hi { assert RangeSum(g, lo, lo + 4) == g[lo] + g[lo + 1] + g[lo + 2] + g[lo + 3]; }
  }

  predicate Between(k: int, lo: int, hi: int) {
    lo <= k < hi
  }

  lemma {:induction false} IntervalSize(lo: nat, hi: nat)
    requires lo <= hi
    ensures |set k: nat | k < hi && Between(k, lo, hi)| == hi - lo
    decreases hi - lo
  {
    if lo < hi {
      var h := hi - 1;
      IntervalSize(lo, h);
      assert (set k: nat | k < hi && Between(k, lo, hi)) == (set k: nat | k < h && Between(k, lo, h)) + {h};
    } else {
      assert (set k: nat | k < hi && Between(k, lo, hi)) == {};
    }
  }

  /** Column k exists and lies within `radius` of column i. */
  predicate Present(k: int, i: nat, radius: nat, alignmentLength: nat) {
    0 <= k < alignmentLength && i - radius <= k <= i + radius
  }

  /** The divisor is the number of column indices of the window that exist. */
  lemma InRangeIsCardinality(i: nat, radius: nat, alignmentLength: nat)
    requires i < alignmentLength
    ensures InRange(i, radius, alignmentLength) == |set k: nat | k < alignmentLength && Present(k, i, radius, alignmentLength)|
  {
    var lo, hi := WindowStart(i, radius), WindowEnd(i, radius, alignmentLength);
    assert (set k: nat | k < alignmentLength && Present(k, i, radius, alignmentLength)) == (set k: nat | k < hi && Between(k, lo, hi));
    IntervalSize(lo, hi);
  }

  /** The divisors take the values 2..3 (±1, L >= 2) and 1..5 (±2), and 3 (±2) at an end once L >= 3. */
  lemma DivisorRanges(i: nat, alignmentLength: nat)
    requires i < alignmentLength
    ensures alignmentLength >= 2 ==> 2 <= InRange(i, 1, alignmentLength) <= 3
    ensures 1 <= InRange(i, 2, alignmentLength) <= 5
    ensures alignmentLength >= 3 && (i == 0 || i == alignmentLength - 1) ==> InRange(i, 2, alignmentLength) == 3
    ensures 0 < i < alignmentLength - 1 ==> InRange(i, 1, alignmentLength) == 3
    ensures 1 < i < alignmentLength - 2 ==> InRange(i, 2, alignmentLength) == 5
  {
  }

  /** Interior columns take plain 3- and 5-term means; column 0 averages itself and its two right neighbours. */
  lemma InteriorAndEdgeMeans(g: seq<real>, i: nat)
    requires i < |g|
    ensures 0 < i < |g| - 1 ==> WindowMean(g, i, 1) == (g[i - 1] + g[i] + g[i + 1]) / 3.0
    ensures 1 < i < |g| - 2 ==> WindowMean(g, i, 2) == (g[i - 2] + g[i - 1] + g[i] + g[i + 1] + g[i + 2]) / 5.0
    ensures |g| >= 3 ==> WindowMean(g, 0, 2) == (g[0] + g[1] + g[2]) / 3.0
  {
    if 0 < i < |g| - 1 {
      Gaps1FromSlots(g, |g|, i, g[i - 1], g[i], g[i + 1], 3);
    }
    if 1 < i < |g| - 2 {
      Gaps2FromSlots(g, |g|, i, g[i - 2], g[i - 1], g[i], g[i + 1], g[i + 2], 5);
    }
    if |g| >= 3 {
      Gaps2FromSlots(g, |g|, 0, 0.0, 0.0, g[0], g[1], g[2], 3);
    }
  }

  lemma {:induction false} RangeSumBounds(g: seq<real>, lo: nat, hi: nat)
    requires lo <= hi <= |g|
    requires forall k | 0 <= k < |g| :: 0.0 <= g[k] <= 1.0
    ensures 0.0 <= RangeSum(g, lo, hi) <= (hi - lo) as real
  {
    if lo < hi {
      RangeSumBounds(g, lo, hi - 1);
    }
  }

  lemma {:induction false} ConstantRangeSum(g: seq<real>, x: real, lo: nat, hi: nat)
    requires lo <= hi <= |g|
    requires forall k | 0 <= k < |g| :: g[k] == x
    ensures RangeSum(g, lo, hi) == (hi - lo) as real * x
  {
    if lo < hi {
      ConstantRangeSum(g, x, lo, hi - 1);
    }
  }

  /** Where every column has the same gap fraction x, every window mean is x, whatever the divisor. */
  lemma ConstantWindowMean(g: seq<real>, x: real, i: nat, radius: nat)
    requires i < |g|
    requires forall k | 0 <= k < |g| :: g[k] == x
    ensures WindowMean(g, i, radius) == x
  {
    var lo, hi := WindowStart(i, radius), WindowEnd(i, radius, |g|);
    ConstantRangeSum(g, x, lo, hi);
    MeanFromSum(g, i, radius, x);
  }

  lemma MeanFromSum(g: seq<real>, i: nat, radius: nat, x: real)
    requires i < |g|
    requires RangeSum(g, WindowStart(i, radius), WindowEnd(i, radius, |g|)) == InRange(i, radius, |g|) as real * x
    ensures WindowMean(g, i, radius) == x
  {
    Copies(RangeSum(g, WindowStart(i, radius), WindowEnd(i, radius, |g|)), x, InRange(i, radius, |g|) as real);
  }

  lemma Copies(s: real, x: real, n: real)
    requires n > 0.0 && s == n * x
    ensures s / n == x
  {
  }

  /** A window mean of fractions is a fraction. */
  lemma WindowMeanBounds(g: seq<real>, i: nat, radius: nat)
    requires i < |g|
    requires forall k | 0 <= k < |g| :: 0.0 <= g[k] <= 1.0
    ensures 0.0 <= WindowMean(g, i, radius) <= 1.0
  {
    var lo, hi := WindowStart(i, radius), WindowEnd(i, radius, |g|);
    RangeSumBounds(g, lo, hi);
    UnitFraction(RangeSum(g, lo, hi), InRange(i, radius, |g|) as real);
  }

  lemma UnitFraction(s: real, n: real)
    requires 0.0 <= s <= n && n > 0.0
    ensures 0.0 <= s / n <= 1.0
  {
  }
}
