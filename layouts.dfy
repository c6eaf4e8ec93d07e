/**
 * The two storage layouts of an alignment and the "character at (sequence,
 * column)" view both are reduced to: the list of its columns.
 */
module Layouts {
  import opened Residues

  /** Every sequence buffer holds exactly L characters. */
  predicate Rectangular(rows: seq<seq<Byte>>, alignmentLength: nat) {
    forall i | 0 <= i < |rows| :: |rows[i]| == alignmentLength
  }

  /** i * L + c addresses the flat buffer of S * L characters. */
  lemma FlatIndexBound(i: nat, sequenceCount: nat, alignmentLength: nat, c: nat)
    requires i < sequenceCount && c < alignmentLength
    ensures i * alignmentLength + c < sequenceCount * alignmentLength
  {
    MulMono(i + 1, sequenceCount, alignmentLength);
  }

  lemma MulMono(a: nat, b: nat, n: nat)
    requires a <= b
    ensures a * n <= b * n
  {
  }

  /** Column c of a row-major flat buffer: the character of sequence i is `data[i * L + c]`. */
  function FlatColumn(data: seq<Byte>, sequenceCount: nat, alignmentLength: nat, c: nat): (col: seq<Byte>)
    requires c < alignmentLength && sequenceCount * alignmentLength <= |data|
    ensures |col| == sequenceCount
  {
    seq(sequenceCount, i requires 0 <= i < sequenceCount =>
      FlatIndexBound(i, sequenceCount, alignmentLength, c);
      data[i * alignmentLength + c])
  }

  /** All columns of a flat buffer. */
  function FlatColumns(data: seq<Byte>, sequenceCount: nat, alignmentLength: nat): (cols: seq<seq<Byte>>)
    requires sequenceCount * alignmentLength <= |data|
    ensures |cols| == alignmentLength
  {
    seq(alignmentLength, c requires 0 <= c < alignmentLength => FlatColumn(data, sequenceCount, alignmentLength, c))
  }

  /** Column c of one buffer per sequence: the character of sequence i is `rows[i][c]`. */
  function RowColumn(rows: seq<seq<Byte>>, c: nat): (col: seq<Byte>)
    requires forall i | 0 <= i < |rows| :: c < |rows[i]|
    ensures |col| == |rows|
  {
    seq(|rows|, i requires 0 <= i < |rows| => rows[i][c])
  }

  /** The first L columns of one buffer per sequence. */
  function RowColumns(rows: seq<seq<Byte>>, alignmentLength: nat): (cols: seq<seq<Byte>>)
    requires forall i | 0 <= i < |rows| :: alignmentLength <= |rows[i]|
    ensures |cols| == alignmentLength
  {
    seq(alignmentLength, c requires 0 <= c < alignmentLength => RowColumn(rows, c))
  }

  /** The row-major flattening: the sequences one after the other. */
  function Flatten(rows: seq<seq<Byte>>, alignmentLength: nat): (data: seq<Byte>)
    requires Rectangular(rows, alignmentLength)
    ensures |data| == |rows| * alignmentLength
  {
    if rows == [] then []
    else
      var n := |rows| - 1;
      assert (n + 1) * alignmentLength == n * alignmentLength + alignmentLength;
      Flatten(rows[..n], alignmentLength) + rows[n]
  }

  /** Character c of sequence i sits at index i * L + c of the flattening. */
  lemma {:induction false} FlattenAt(rows: seq<seq<Byte>>, alignmentLength: nat, i: nat, c: nat)
    requires Rectangular(rows, alignmentLength)
    requires i < |rows| && c < alignmentLength
    ensures i * alignmentLength + c < |Flatten(rows, alignmentLength)|
    ensures Flatten(rows, alignmentLength)[i * alignmentLength + c] == rows[i][c]
  {
    var n := |rows| - 1;
    var front := Flatten(rows[..n], alignmentLength);
    assert Flatten(rows, alignmentLength) == front + rows[n];
    var k := i * alignmentLength + c;
    if i < n {
      FlattenAt(rows[..n], alignmentLength, i, c);
      assert k < |front|;
    } else {
      assert k == |front| + c;
    }
  }

  /**
   * Both layouts present the same columns: the flat buffer that is the
   * row-major flattening of the per-sequence buffers has, column by column,
   * the characters of those buffers.
   */
  lemma LayoutsAgree(rows: seq<seq<Byte>>, alignmentLength: nat)
    requires Rectangular(rows, alignmentLength)
    ensures FlatColumns(Flatten(rows, alignmentLength), |rows|, alignmentLength) == RowColumns(rows, alignmentLength)
  {
    var data := Flatten(rows, alignmentLength);
    forall c | 0 <= c < alignmentLength
      ensures FlatColumn(data, |rows|, alignmentLength, c) == RowColumn(rows, c)
    {
      forall i | 0 <= i < |rows|
        ensures FlatColumn(data, |rows|, alignmentLength, c)[i] == RowColumn(rows, c)[i]
      {
        FlattenAt(rows, alignmentLength, i, c);
      }
    }
  }
}
