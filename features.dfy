/**
 * The six features of a column and the features of a whole alignment, given as
 * its columns. This is the reference every implementation is proved against.
 */
module Features {
  import opened Residues
  import opened ColumnStats
  import opened Windows

  /** ALIFILTER_FEATURE_COUNT. */
  const FeatureCount: nat := 6

  /** The features of one column, in their fixed order. */
  datatype FeatureVector = FeatureVector(
    gaps: real,          // slot 0: % gaps
    identity: real,      // slot 1: % identity
    edgeDistance: real,  // slot 2: distance from the nearest end
    entropy: real,       // slot 3: letter entropy
    gaps1: real,         // slot 4: % gaps over the +-1 window
    gaps2: real          // slot 5: % gaps over the +-2 window
  ) {
    /** The value stored in slot j of the column's block. */
    function Slot(j: nat): real
      requires j < FeatureCount
    {
      match j
      case 0 => gaps
      case 1 => identity
      case 2 => edgeDistance
      case 3 => entropy
      case 4 => gaps1
      case _ => gaps2
    }
  }

  /** Every column holds at least one character (S > 0). */
  predicate WellFormed(cols: seq<seq<Byte>>) {
    forall c | 0 <= c < |cols| :: |cols[c]| > 0
  }

  /** The finished slot-0 values of all columns, which the second pass reads. */
  function GapFractions(cols: seq<seq<Byte>>): (g: seq<real>)
    requires WellFormed(cols)
    ensures |g| == |cols|
  {
    seq(|cols|, c requires 0 <= c < |cols| => GapFraction(cols[c]))
  }

  /** The six features of column c. */
  function ColumnFeatures(ln: real -> real, cols: seq<seq<Byte>>, c: nat): FeatureVector
    requires WellFormed(cols) && c < |cols|
  {
    var g := GapFractions(cols);
    FeatureVector(GapFraction(cols[c]), Identity(cols[c]), EdgeDistance(|cols|, c) as real,
                  Entropy(ln, cols[c]), WindowMean(g, c, 1), WindowMean(g, c, 2))
  }

  /** One feature vector per column, in column order. */
  function AlignmentFeatures(ln: real -> real, cols: seq<seq<Byte>>): (fs: seq<FeatureVector>)
    requires WellFormed(cols)
    ensures |fs| == |cols|
  {
    seq(|cols|, c requires 0 <= c < |cols| => ColumnFeatures(ln, cols, c))
  }

  /** The six slots of one column, in order. */
  function Block(v: FeatureVector): seq<real> {
    [v.gaps, v.identity, v.edgeDistance, v.entropy, v.gaps1, v.gaps2]
  }

  /** The 6 * L buffer layout: column i occupies indices 6i .. 6i+5. */
  function Flat(fs: seq<FeatureVector>): (buf: seq<real>)
    ensures |buf| == 6 * |fs|
    ensures forall i, j | 0 <= i < |fs| && 0 <= j < FeatureCount :: buf[6 * i + j] == fs[i].Slot(j)
  {
    if fs == [] then []
    else
      Flat(fs[..|fs| - 1]) + Block(fs[|fs| - 1])
  }

  /** The block that starts at index 6i of a buffer. */
  function BlockAt(buf: seq<real>, i: nat): FeatureVector
    requires 6 * i + 6 <= |buf|
  {
    var k := 6 * i;
    FeatureVector(buf[k], buf[k + 1], buf[k + 2], buf[k + 3], buf[k + 4], buf[k + 5])
  }

  /** Reads a 6 * L buffer back as L feature vectors. */
  function Unflat(buf: seq<real>): (fs: seq<FeatureVector>)
    requires |buf| % 6 == 0
    ensures |fs| == |buf| / 6
    ensures forall i, j | 0 <= i < |fs| && 0 <= j < FeatureCount :: fs[i].Slot(j) == buf[6 * i + j]
  {
    seq(|buf| / 6, i requires 0 <= i < |buf| / 6 => BlockAt(buf, i))
  }

  /** Reading back a buffer written from feature vectors gives the same vectors. */
  lemma UnflatFlat(fs: seq<FeatureVector>)
    ensures Unflat(Flat(fs)) == fs
  {
    var r := Unflat(Flat(fs));
    forall i | 0 <= i < |fs| ensures r[i] == fs[i] {
      assert r[i].Slot(0) == fs[i].Slot(0) && r[i].Slot(1) == fs[i].Slot(1) && r[i].Slot(2) == fs[i].Slot(2);
      assert r[i].Slot(3) == fs[i].Slot(3) && r[i].Slot(4) == fs[i].Slot(4) && r[i].Slot(5) == fs[i].Slot(5);
    }
  }

  /** Writing out the vectors read from a buffer gives the same buffer. */
  lemma FlatUnflat(buf: seq<real>)
    requires |buf| % 6 == 0
    ensures Flat(Unflat(buf)) == buf
  {
    var r := Flat(Unflat(buf));
    forall k | 0 <= k < |buf| ensures r[k] == buf[k] {
      var i, j := k / 6, k % 6;
      assert k == 6 * i + j;
      assert r[6 * i + j] == Unflat(buf)[i].Slot(j);
    }
  }

  /** A buffer whose blocks are the vectors of `fs` is the flattening of `fs`. */
  lemma FlatByBlocks(buf: seq<real>, fs: seq<FeatureVector>)
    requires |buf| == 6 * |fs|
    requires forall i | 0 <= i < |fs| :: BlockAt(buf, i) == fs[i]
    ensures buf == Flat(fs)
  {
    assert Unflat(buf) == fs;
    FlatUnflat(buf);
  }

  /** The ranges of the features: fractions lie in [0, 1], and so on. */
  lemma FeatureRanges(ln: real -> real, cols: seq<seq<Byte>>, c: nat)
    requires WellFormed(cols) && c < |cols|
    ensures var v := ColumnFeatures(ln, cols, c);
      && 0.0 <= v.gaps <= 1.0 && 0.0 <= v.identity <= 1.0 && v.identity + v.gaps <= 1.0
      && 0.0 <= v.edgeDistance && 0.0 <= v.gaps1 <= 1.0 && 0.0 <= v.gaps2 <= 1.0
      && ((forall x: real :: 0.0 < x <= 1.0 ==> ln(x) <= 0.0) ==> v.entropy >= 0.0)
  {
    var g := GapFractions(cols);
    forall k | 0 <= k < |g| ensures 0.0 <= g[k] <= 1.0 {
      FractionBounds(cols[k]);
    }
    FractionBounds(cols[c]);
    WindowMeanBounds(g, c, 1);
    WindowMeanBounds(g, c, 2);
    if forall x: real :: 0.0 < x <= 1.0 ==> ln(x) <= 0.0 {
      EntropyNonNegative(ln, cols[c]);
    }
  }

  /**
   * In an alignment made only of gaps every column has gaps 1, identity 0,
   * entropy 0 and both window means 1; only the edge distance varies.
   */
  lemma AllGapFeatures(ln: real -> real, cols: seq<seq<Byte>>, c: nat)
    requires WellFormed(cols) && c < |cols|
    requires forall k, i | 0 <= k < |cols| && 0 <= i < |cols[k]| :: IsGap(cols[k][i])
    ensures ColumnFeatures(ln, cols, c) == FeatureVector(1.0, 0.0, EdgeDistance(|cols|, c) as real, 0.0, 1.0, 1.0)
  {
    var g := GapFractions(cols);
    forall k | 0 <= k < |g| ensures g[k] == 1.0 {
      AllGapColumn(ln, cols[k]);
    }
    AllGapColumn(ln, cols[c]);
    ConstantWindowMean(g, 1.0, c, 1);
    ConstantWindowMean(g, 1.0, c, 2);
  }
}
