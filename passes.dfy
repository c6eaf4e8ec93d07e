/**
 * The two passes that fill a 6 * L feature buffer in place, as state
 * transformers on the buffer's contents: the first pass writes slots 0..3 of
 * each column's block, the second writes slots 4 and 5 with the window
 * means of the finished slot-0 values. Whatever the buffer held before (malloc'd memory is not
 * initialised), the two passes leave exactly the flattened feature matrix.
 */
module Passes {
  import opened Residues
  import opened ColumnStats
  import opened Windows
  import opened Features

  /** Slot j < 4 of column c's block as the first pass writes it. */
  function BaseSlot(ln: real -> real, cols: seq<seq<Byte>>, c: nat, j: nat): real
    requires WellFormed(cols) && c < |cols| && j < 4
  {
    match j
    case 0 => GapFraction(cols[c])
    case 1 => Identity(cols[c])
    case 2 => EdgeDistance(|cols|, c) as real
    case _ => Entropy(ln, cols[c])
  }

  /** The buffer after the first pass has handled column c. */
  function WriteBase(buf: seq<real>, ln: real -> real, cols: seq<seq<Byte>>, c: nat): (r: seq<real>)
    requires WellFormed(cols) && c < |cols| && 6 * c + 6 <= |buf|
    ensures |r| == |buf|
  {
    var b := 6 * c;
    buf[b := GapFraction(cols[c])][b + 1 := Identity(cols[c])][b + 2 := EdgeDistance(|cols|, c) as real]
       [b + 3 := Entropy(ln, cols[c])]
  }

  /** Four writes of one column's first-pass values, as a per-column routine stores them, are `WriteBase`. */
  lemma WriteBaseIs(buf: seq<real>, after: seq<real>, ln: real -> real, cols: seq<seq<Byte>>, c: nat, col: seq<Byte>)
    requires WellFormed(cols) && c < |cols| && 6 * c + 6 <= |buf| && cols[c] == col
    requires after == buf[6 * c := GapFraction(col)][6 * c + 1 := Identity(col)]
                         [6 * c + 2 := EdgeDistance(|cols|, c) as real][6 * c + 3 := Entropy(ln, col)]
    ensures after == WriteBase(buf, ln, cols, c)
  {
  }

  /** The buffer after the first pass has handled columns 0..n-1. */
  function FirstPass(buf: seq<real>, ln: real -> real, cols: seq<seq<Byte>>, n: nat): (r: seq<real>)
    requires WellFormed(cols) && n <= |cols| && 6 * |cols| <= |buf|
    ensures |r| == |buf|
  {
    if n == 0 then buf else WriteBase(FirstPass(buf, ln, cols, n - 1), ln, cols, n - 1)
  }

  /**
   * The buffer after the second pass has handled column c, given the
   * column-wise window means w1 (radius 1) and w2 (radius 2).
   */
  function WriteWindows(buf: seq<real>, w1: seq<real>, w2: seq<real>, c: nat): (r: seq<real>)
    requires c < |w1| == |w2| && 6 * c + 6 <= |buf|
    ensures |r| == |buf|
  {
    buf[6 * c + 4 := w1[c]][6 * c + 5 := w2[c]]
  }

  /** The buffer after the second pass has handled columns 0..n-1. */
  function SecondPass(buf: seq<real>, w1: seq<real>, w2: seq<real>, n: nat): (r: seq<real>)
    requires n <= |w1| == |w2| && 6 * |w1| <= |buf|
    ensures |r| == |buf|
  {
    if n == 0 then buf else WriteWindows(SecondPass(buf, w1, w2, n - 1), w1, w2, n - 1)
  }

  /** The buffer after both passes over all columns. */
  function BothPasses(buf: seq<real>, ln: real -> real, cols: seq<seq<Byte>>): (r: seq<real>)
    requires WellFormed(cols) && 6 * |cols| <= |buf|
    ensures |r| == |buf|
  {
    var g := GapFractions(cols);
    SecondPass(FirstPass(buf, ln, cols, |cols|), Means(g, 1), Means(g, 2), |cols|)
  }

  /** After the first pass over columns 0..n-1, slot j of column k holds its feature if k < n and j < 4, and is untouched otherwise. */
  lemma {:induction false} FirstPassAt(buf: seq<real>, ln: real -> real, cols: seq<seq<Byte>>, n: nat, k: nat, j: nat)
    requires WellFormed(cols) && n <= |cols| && 6 * |cols| <= |buf|
    requires k < |cols| && j < FeatureCount
    ensures FirstPass(buf, ln, cols, n)[6 * k + j] ==
              if k < n && j < 4 then BaseSlot(ln, cols, k, j) else buf[6 * k + j]
  {
    if n > 0 {
      FirstPassAt(buf, ln, cols, n - 1, k, j);
      if k != n - 1 {
        assert 6 * k + j < 6 * (n - 1) || 6 * k + j >= 6 * n;
      }
    }
  }

  /** After the second pass over columns 0..n-1, slots 4 and 5 of column k < n hold its window means; every other slot is untouched. */
  lemma {:induction false} SecondPassAt(buf: seq<real>, w1: seq<real>, w2: seq<real>, n: nat, k: nat, j: nat)
    requires n <= |w1| == |w2| && 6 * |w1| <= |buf|
    requires k < |w1| && j < FeatureCount
    ensures SecondPass(buf, w1, w2, n)[6 * k + j] ==
              if k < n && j == 4 then w1[k]
              else if k < n && j == 5 then w2[k]
              else buf[6 * k + j]
  {
    if n > 0 {
      SecondPassAt(buf, w1, w2, n - 1, k, j);
      if k != n - 1 {
        assert 6 * k + j < 6 * (n - 1) || 6 * k + j >= 6 * n;
      }
    }
  }

  /** The second pass leaves the gap fractions in slot 0 untouched. */
  lemma SecondPassKeepsGaps(buf: seq<real>, w1: seq<real>, w2: seq<real>, n: nat, k: nat)
    requires n <= |w1| == |w2| && 6 * |w1| <= |buf| && k < |w1|
    ensures SecondPass(buf, w1, w2, n)[6 * k] == buf[6 * k]
  {
    SecondPassAt(buf, w1, w2, n, k, 0);
  }

  /** The first pass over all columns leaves each column's gap fraction in slot 0. */
  lemma FirstPassGaps(buf: seq<real>, ln: real -> real, cols: seq<seq<Byte>>, k: nat)
    requires WellFormed(cols) && 6 * |cols| <= |buf| && k < |cols|
    ensures FirstPass(buf, ln, cols, |cols|)[6 * k] == GapFractions(cols)[k]
  {
    FirstPassAt(buf, ln, cols, |cols|, k, 0);
  }

  /** Column i's block after both passes holds its six features. */
  lemma BlockAfterPasses(buf: seq<real>, ln: real -> real, cols: seq<seq<Byte>>, i: nat)
    requires WellFormed(cols) && 6 * |cols| <= |buf| && i < |cols|
    ensures BlockAt(BothPasses(buf, ln, cols), i) == ColumnFeatures(ln, cols, i)
  {
    var g := GapFractions(cols);
    var w1, w2 := Means(g, 1), Means(g, 2);
    var base := FirstPass(buf, ln, cols, |cols|);
    SecondPassAt(base, w1, w2, |cols|, i, 0);
    SecondPassAt(base, w1, w2, |cols|, i, 1);
    SecondPassAt(base, w1, w2, |cols|, i, 2);
    SecondPassAt(base, w1, w2, |cols|, i, 3);
    SecondPassAt(base, w1, w2, |cols|, i, 4);
    SecondPassAt(base, w1, w2, |cols|, i, 5);
    FirstPassAt(buf, ln, cols, |cols|, i, 0);
    FirstPassAt(buf, ln, cols, |cols|, i, 1);
    FirstPassAt(buf, ln, cols, |cols|, i, 2);
    FirstPassAt(buf, ln, cols, |cols|, i, 3);
  }

  /** The first pass does not touch the buffer beyond its first 6 * L values. */
  lemma {:induction false} FirstPassKeepsTail(buf: seq<real>, ln: real -> real, cols: seq<seq<Byte>>, n: nat, x: nat)
    requires WellFormed(cols) && n <= |cols| && 6 * |cols| <= x < |buf|
    ensures FirstPass(buf, ln, cols, n)[x] == buf[x]
  {
    if n > 0 {
      FirstPassKeepsTail(buf, ln, cols, n - 1, x);
      var prev := FirstPass(buf, ln, cols, n - 1);
      var b := 6 * (n - 1);
      assert x != b && x != b + 1 && x != b + 2 && x != b + 3;
      assert WriteBase(prev, ln, cols, n - 1)[x] == prev[x];
    }
  }

  /** The second pass does not touch the buffer beyond its first 6 * L values. */
  lemma {:induction false} SecondPassKeepsTail(buf: seq<real>, w1: seq<real>, w2: seq<real>, n: nat, x: nat)
    requires n <= |w1| == |w2| && 6 * |w1| <= x < |buf|
    ensures SecondPass(buf, w1, w2, n)[x] == buf[x]
  {
    if n > 0 {
      SecondPassKeepsTail(buf, w1, w2, n - 1, x);
    }
  }

  /** Both passes leave the first 6 * L values holding the flattened feature matrix. */
  lemma PassesFront(buf: seq<real>, ln: real -> real, cols: seq<seq<Byte>>)
    requires WellFormed(cols) && 6 * |cols| <= |buf|
    ensures BothPasses(buf, ln, cols)[..6 * |cols|] == Flat(AlignmentFeatures(ln, cols))
  {
    var r := BothPasses(buf, ln, cols);
    var fs := AlignmentFeatures(ln, cols);
    var front := r[..6 * |cols|];
    forall i | 0 <= i < |fs| ensures BlockAt(front, i) == fs[i] {
      BlockAfterPasses(buf, ln, cols, i);
      BlockOfPrefix(r, 6 * |cols|, i);
    }
    FlatByBlocks(front, fs);
  }

  /** Both passes leave the values beyond the first 6 * L as they were. */
  lemma PassesTail(buf: seq<real>, ln: real -> real, cols: seq<seq<Byte>>)
    requires WellFormed(cols) && 6 * |cols| <= |buf|
    ensures BothPasses(buf, ln, cols)[6 * |cols|..] == buf[6 * |cols|..]
  {
    var g := GapFractions(cols);
    var base := FirstPass(buf, ln, cols, |cols|);
    var r := BothPasses(buf, ln, cols);
    forall x | 6 * |cols| <= x < |buf| ensures r[x] == buf[x] {
      FirstPassKeepsTail(buf, ln, cols, |cols|, x);
      SecondPassKeepsTail(base, Means(g, 1), Means(g, 2), |cols|, x);
    }
    SameFrom(r, buf, 6 * |cols|);
  }

  lemma BlockOfPrefix(buf: seq<real>, n: nat, i: nat)
    requires 6 * i + 6 <= n <= |buf|
    ensures BlockAt(buf[..n], i) == BlockAt(buf, i)
  {
  }

  lemma SameFrom(a: seq<real>, b: seq<real>, n: nat)
    requires |a| == |b| && n <= |a|
    requires forall x | n <= x < |a| :: a[x] == b[x]
    ensures a[n..] == b[n..]
  {
  }

  /**
   * Both passes over all columns turn the first 6 * L values of any buffer
   * into the flattened feature matrix: nothing of their earlier contents
   * survives, and the rest of the buffer is left as it was.
   */
  lemma TwoPasses(buf: seq<real>, ln: real -> real, cols: seq<seq<Byte>>)
    requires WellFormed(cols) && 6 * |cols| <= |buf|
    ensures var r := BothPasses(buf, ln, cols);
      r[..6 * |cols|] == Flat(AlignmentFeatures(ln, cols)) && r[6 * |cols|..] == buf[6 * |cols|..]
  {
    PassesFront(buf, ln, cols);
    PassesTail(buf, ln, cols);
  }
}
