/**
 * The per-column statistics of the first feature pass, defined once over a
 * column: the characters found at (sequence 0..S-1, this column), in sequence
 * order. Every storage layout is reduced to such a column (module Layouts).
 *
 * Counting functions recurse on the last character so that each loop prefix
 * `col[..i]` of the imperative models matches them directly.
 */
module ColumnStats {
  import opened Residues

  /** The character is tallied: not a gap, and a letter once upper-cased. */
  predicate Tallied(c: Byte) {
    !IsGap(c) && IsLetter(c)
  }

  /** Number of '-' characters in the column. */
  function GapCount(col: seq<Byte>): (n: nat)
    ensures n <= |col|
  {
    if col == [] then 0
    else GapCount(col[..|col| - 1]) + (if IsGap(col[|col| - 1]) then 1 else 0)
  }

  /** Number of tallied characters (`validChars`). */
  function ValidCount(col: seq<Byte>): (n: nat)
    ensures n <= |col|
  {
    if col == [] then 0
    else ValidCount(col[..|col| - 1]) + (if Tallied(col[|col| - 1]) then 1 else 0)
  }

  /** How many characters of the column fall in tally slot `k` (`counts[k]`). */
  function LetterTally(col: seq<Byte>, k: nat): (n: nat)
    ensures n <= |col|
  {
    if col == [] then 0
    else LetterTally(col[..|col| - 1], k)
         + (if Tallied(col[|col| - 1]) && LetterIndex(col[|col| - 1]) == k then 1 else 0)
  }

  /** The 26-slot letter tally of the column. */
  function Tally(col: seq<Byte>): seq<nat> {
    seq(AlphabetSize, k requires 0 <= k => LetterTally(col, k))
  }

  function Sum(s: seq<int>): int {
    if s == [] then 0 else Sum(s[..|s| - 1]) + s[|s| - 1]
  }

  function Max(x: int, y: int): int {
    if x > y then x else y
  }

  /** The largest element of a non-empty sequence, found left to right. */
  function Largest(s: seq<int>): (r: int)
    requires |s| > 0
    ensures forall k | 0 <= k < |s| :: s[k] <= r
    ensures exists k | 0 <= k < |s| :: s[k] == r
  {
    if |s| == 1 then s[0] else Max(Largest(s[..|s| - 1]), s[|s| - 1])
  }

  /** The count of the most frequent letter (`maxId`). */
  function MaxCount(col: seq<Byte>): (m: nat)
    ensures m <= ValidCount(col)
    ensures forall k | 0 <= k < AlphabetSize :: LetterTally(col, k) <= m
  {
    TallyBounded(col);
    var t := Tally(col);
    assert forall k | 0 <= k < AlphabetSize :: t[k] == LetterTally(col, k);
    Largest(t)
  }

  /** One summand of the entropy: `-count/valid * ln(count/valid)`, or 0 for an absent letter. */
  function EntropyTerm(ln: real -> real, count: int, valid: nat): real
    requires valid > 0
  {
    if count > 0 then -(count as real) / valid as real * ln(count as real / valid as real) else 0.0
  }

  /** The entropy accumulated over tally slots 0..n-1, in slot order. */
  function EntropySum(ln: real -> real, counts: seq<int>, valid: nat, n: nat): real
    requires valid > 0 && n <= |counts|
  {
    if n == 0 then 0.0 else EntropySum(ln, counts, valid, n - 1) + EntropyTerm(ln, counts[n - 1], valid)
  }

  /** Feature 0: the fraction of gaps; every character counts in the denominator. */
  function GapFraction(col: seq<Byte>): (r: real)
    requires |col| > 0
    ensures 0.0 <= r <= 1.0
  {
    Ratio(GapCount(col), |col|);
    GapCount(col) as real / |col| as real
  }

  /** Feature 1: the count of the most frequent letter over S; 0 when no letter is present. */
  function Identity(col: seq<Byte>): (r: real)
    requires |col| > 0
    ensures 0.0 <= r <= 1.0
  {
    if ValidCount(col) > 0 then
      Ratio(MaxCount(col), |col|);
      MaxCount(col) as real / |col| as real
    else 0.0
  }

  /** Feature 3: Shannon entropy (natural log) of the letter distribution; 0 when no letter is present. */
  function Entropy(ln: real -> real, col: seq<Byte>): real {
    if ValidCount(col) > 0 then EntropySum(ln, Tally(col), ValidCount(col), AlphabetSize) else 0.0
  }

  /** Feature 2: `MIN(column, L - 1 - column)`, the distance to the nearer end. */
  function EdgeDistance(alignmentLength: nat, column: nat): (d: nat)
    requires column < alignmentLength
    ensures d <= column && d <= alignmentLength - 1 - column
    ensures d == column || d == alignmentLength - 1 - column
  {
    if column < alignmentLength - 1 - column then column else alignmentLength - 1 - column
  }

  // ---------------------------------------------------------------------
  // Counting

  /** Counting one more character of the column moves each count by that character's contribution. */
  lemma CountStep(col: seq<Byte>, i: nat)
    requires i < |col|
    ensures GapCount(col[..i + 1]) == GapCount(col[..i]) + (if IsGap(col[i]) then 1 else 0)
    ensures ValidCount(col[..i + 1]) == ValidCount(col[..i]) + (if Tallied(col[i]) then 1 else 0)
    ensures Tally(col[..i + 1]) ==
              if Tallied(col[i]) then Tally(col[..i])[LetterIndex(col[i]) := Tally(col[..i])[LetterIndex(col[i])] + 1]
              else Tally(col[..i])
  {
    assert col[..i + 1][..i] == col[..i];
  }

  /** Before any character is counted every slot is 0. */
  lemma TallyEmpty(col: seq<Byte>)
    ensures Tally(col[..0]) == seq(AlphabetSize, k => 0)
  {
  }

  /** Once all characters are counted, the prefix is the column. */
  lemma WholeColumn(col: seq<Byte>)
    ensures col[..|col|] == col
  {
  }

  /** The running maximum over a prefix grows by one `MAX` per slot. */
  lemma LargestStep(s: seq<int>, i: nat)
    requires i < |s|
    ensures Largest(s[..i + 1]) == if i == 0 then s[0] else Max(Largest(s[..i]), s[i])
  {
    assert s[..i + 1][..i] == s[..i];
  }

  lemma {:induction false} GapsAndLettersBound(col: seq<Byte>)
    ensures GapCount(col) + ValidCount(col) <= |col|
  {
    if col != [] {
      GapsAndLettersBound(col[..|col| - 1]);
      LetterClassification(col[|col| - 1]);
    }
  }

  /** No single letter is counted more often than all letters together. */
  lemma {:induction false} TallyBelowValid(col: seq<Byte>, k: nat)
    ensures LetterTally(col, k) <= ValidCount(col)
  {
    if col != [] {
      TallyBelowValid(col[..|col| - 1], k);
    }
  }

  /** Every slot of the tally is bounded by the number of letters. */
  lemma TallyBounded(col: seq<Byte>)
    ensures forall k | 0 <= k < AlphabetSize :: Tally(col)[k] <= ValidCount(col)
  {
    forall k | 0 <= k < AlphabetSize
      ensures Tally(col)[k] <= ValidCount(col)
    {
      TallyBelowValid(col, k);
    }
  }

  lemma MaxCountBelowValid(col: seq<Byte>)
    ensures MaxCount(col) <= ValidCount(col)
  {
    var t := Tally(col);
    var k :| 0 <= k < |t| && t[k] == Largest(t);
    TallyBelowValid(col, k);
  }

  lemma {:induction false} SumIncrement(s: seq<int>, k: nat)
    requires k < |s|
    ensures Sum(s[k := s[k] + 1]) == Sum(s) + 1
  {
    var s' := s[k := s[k] + 1];
    if k < |s| - 1 {
      assert s'[..|s'| - 1] == s[..|s| - 1][k := s[k] + 1];
      SumIncrement(s[..|s| - 1], k);
    } else {
      assert s'[..|s'| - 1] == s[..|s| - 1];
    }
  }

  /**
   * Each tallied character increments exactly one of the 26 slots: the slots
   * add up to `validChars`.
   */
  lemma {:induction false} ValidIsTallySum(col: seq<Byte>)
    ensures Sum(Tally(col)) == ValidCount(col)
  {
    if col == [] {
      assert Tally(col) == seq(AlphabetSize, k => 0);
      ZeroSum(AlphabetSize);
    } else {
      var init, c := col[..|col| - 1], col[|col| - 1];
      ValidIsTallySum(init);
      if Tallied(c) {
        var k := LetterIndex(c);
        assert Tally(col) == Tally(init)[k := Tally(init)[k] + 1];
        SumIncrement(Tally(init), k);
      } else {
        assert Tally(col) == Tally(init);
      }
    }
  }

  lemma {:induction false} ZeroSum(n: nat)
    ensures Sum(seq(n, k => 0)) == 0
  {
    if n > 0 {
      assert seq(n, k => 0)[..n - 1] == seq(n - 1, k => 0);
      ZeroSum(n - 1);
    }
  }

  // ---------------------------------------------------------------------
  // Ranges of the features

  /** Gaps and identity are fractions, and together they never exceed 1. */
  lemma FractionBounds(col: seq<Byte>)
    requires |col| > 0
    ensures 0.0 <= GapFraction(col) <= 1.0
    ensures 0.0 <= Identity(col) <= 1.0
    ensures Identity(col) + GapFraction(col) <= 1.0
  {
    var g, v := GapCount(col), ValidCount(col);
    GapsAndLettersBound(col);
    Ratio(g, |col|);
    if v > 0 {
      var mx := MaxCount(col);
      MaxCountBelowValid(col);
      assert Identity(col) == mx as real / |col| as real;
      RatioSum(mx, g, |col|);
    } else {
      assert Identity(col) == 0.0;
    }
  }

  lemma RatioSum(a: nat, b: nat, s: nat)
    requires 0 < s && a + b <= s
    ensures 0.0 <= a as real / s as real <= 1.0
    ensures a as real / s as real + b as real / s as real <= 1.0
  {
    assert a as real / s as real + b as real / s as real == (a + b) as real / s as real;
    Ratio(a + b, s);
    Ratio(a, s);
  }

  lemma Ratio(a: nat, b: nat)
    requires 0 < b && a <= b
    ensures 0.0 <= a as real / b as real <= 1.0
    ensures a == b ==> a as real / b as real == 1.0
  {
  }

  /** -p * ln(p) >= 0 once ln(p) <= 0. */
  lemma TermNonNegative(ln: real -> real, count: int, valid: nat)
    requires valid > 0
    requires count > 0 ==> ln(count as real / valid as real) <= 0.0
    ensures EntropyTerm(ln, count, valid) >= 0.0
  {
    if count > 0 {
      var p := count as real / valid as real;
      var l := ln(p);
      assert -(count as real) / valid as real == -p;
      assert -p * l >= 0.0;
    }
  }

  lemma {:induction false} EntropySumNonNegative(ln: real -> real, counts: seq<int>, valid: nat, n: nat)
    requires valid > 0 && n <= |counts|
    requires forall k | 0 <= k < |counts| :: counts[k] <= valid
    requires forall x: real :: 0.0 < x <= 1.0 ==> ln(x) <= 0.0
    ensures EntropySum(ln, counts, valid, n) >= 0.0
  {
    if n > 0 {
      EntropySumNonNegative(ln, counts, valid, n - 1);
      var c := counts[n - 1];
      if c > 0 {
        Ratio(c, valid);
      }
      TermNonNegative(ln, c, valid);
    }
  }

  /** Entropy is non-negative whenever the logarithm is non-positive on (0, 1]. */
  lemma EntropyNonNegative(ln: real -> real, col: seq<Byte>)
    requires forall x: real :: 0.0 < x <= 1.0 ==> ln(x) <= 0.0
    ensures Entropy(ln, col) >= 0.0
  {
    if ValidCount(col) > 0 {
      forall k | 0 <= k < AlphabetSize ensures Tally(col)[k] <= ValidCount(col) {
        TallyBelowValid(col, k);
      }
      EntropySumNonNegative(ln, Tally(col), ValidCount(col), AlphabetSize);
    }
  }

  // ---------------------------------------------------------------------
  // Special columns

  lemma {:induction false} AllGapCounts(col: seq<Byte>, k: nat)
    requires forall i | 0 <= i < |col| :: IsGap(col[i])
    ensures GapCount(col) == |col| && ValidCount(col) == 0 && LetterTally(col, k) == 0
  {
    if col != [] {
      AllGapCounts(col[..|col| - 1], k);
    }
  }

  /** A column made only of gaps has gaps 1, identity 0 and entropy 0. */
  lemma AllGapColumn(ln: real -> real, col: seq<Byte>)
    requires |col| > 0
    requires forall i | 0 <= i < |col| :: IsGap(col[i])
    ensures GapFraction(col) == 1.0 && Identity(col) == 0.0 && Entropy(ln, col) == 0.0
  {
    AllGapCounts(col, 0);
    Ratio(|col|, |col|);
  }

  lemma {:induction false} UniformCounts(col: seq<Byte>, k0: nat, k: nat)
    requires forall i | 0 <= i < |col| :: IsLetter(col[i]) && LetterIndex(col[i]) == k0
    ensures ValidCount(col) == |col|
    ensures LetterTally(col, k) == if k == k0 then |col| else 0
  {
    if col != [] {
      LetterClassification(col[|col| - 1]);
      UniformCounts(col[..|col| - 1], k0, k);
    }
  }

  lemma {:induction false} SingleSlotEntropy(ln: real -> real, counts: seq<int>, valid: nat, k0: nat, n: nat)
    requires valid > 0 && n <= |counts| && k0 < |counts|
    requires forall k | 0 <= k < |counts| :: counts[k] == if k == k0 then valid else 0
    requires ln(1.0) == 0.0
    ensures EntropySum(ln, counts, valid, n) == 0.0
  {
    if n > 0 {
      SingleSlotEntropy(ln, counts, valid, k0, n - 1);
      if n - 1 == k0 {
        assert valid as real / valid as real == 1.0;
      }
    }
  }

  /**
   * A column in which every sequence has the same letter (in either case) has
   * no gaps, identity 1 and, since ln(1) = 0, entropy 0.
   */
  lemma UniformColumn(ln: real -> real, col: seq<Byte>)
    requires |col| > 0
    requires IsLetter(col[0])
    requires forall i | 0 <= i < |col| :: IsLetter(col[i]) && LetterIndex(col[i]) == LetterIndex(col[0])
    requires ln(1.0) == 0.0
    ensures GapFraction(col) == 0.0 && Identity(col) == 1.0 && Entropy(ln, col) == 0.0
  {
    var k0 := LetterIndex(col[0]);
    var t := Tally(col);
    forall k | 0 <= k < AlphabetSize ensures t[k] == if k == k0 then |col| else 0 {
      UniformCounts(col, k0, k);
    }
    UniformCounts(col, k0, k0);
    LargestIsSlot(t, k0);
    assert MaxCount(col) == |col|;
    GapsAndLettersBound(col);
    assert GapCount(col) == 0;
    Ratio(|col|, |col|);
    SingleSlotEntropy(ln, t, ValidCount(col), k0, AlphabetSize);
  }

  /** If one slot holds an upper bound of all slots, that slot is the largest. */
  lemma LargestIsSlot(s: seq<int>, k0: nat)
    requires k0 < |s|
    requires forall k | 0 <= k < |s| :: s[k] <= s[k0]
    ensures Largest(s) == s[k0]
  {
  }

  /** Number of non-zero slots among the first n. */
  function Support(counts: seq<int>, n: nat): nat
    requires n <= |counts|
  {
    if n == 0 then 0 else Support(counts, n - 1) + (if counts[n - 1] > 0 then 1 else 0)
  }

  /** Slots that are all 0 or m add up to m per non-zero slot. */
  lemma {:induction false} EqualSlotsSum(counts: seq<int>, m: nat, n: nat)
    requires n <= |counts|
    requires forall k | 0 <= k < |counts| :: counts[k] == 0 || counts[k] == m
    ensures Sum(counts[..n]) == Support(counts, n) * m
  {
    if n > 0 {
      assert counts[..n][..n - 1] == counts[..n - 1];
      EqualSlotsSum(counts, m, n - 1);
      var k := Support(counts, n - 1);
      assert (k + 1) * m == k * m + m;
    }
  }

  /** Over such slots the entropy is one equal summand per non-zero slot. */
  lemma {:induction false} EqualSlotsEntropy(ln: real -> real, counts: seq<int>, valid: nat, m: nat, n: nat)
    requires valid > 0 && m > 0 && n <= |counts|
    requires forall k | 0 <= k < |counts| :: counts[k] == 0 || counts[k] == m
    ensures EntropySum(ln, counts, valid, n) == Support(counts, n) as real * EntropyTerm(ln, m, valid)
  {
    if n > 0 {
      EqualSlotsEntropy(ln, counts, valid, m, n - 1);
      if counts[n - 1] == m {
        OneMore(Support(counts, n - 1) as real, EntropyTerm(ln, m, valid));
      } else {
        assert EntropyTerm(ln, counts[n - 1], valid) == 0.0;
      }
    }
  }

  lemma OneMore(k: real, e: real)
    ensures (k + 1.0) * e == k * e + e
  {
  }

  /**
   * When the K letters present all occur equally often, the entropy is
   * -ln(1/K), that is ln(K).
   */
  lemma EqualFrequencyEntropy(ln: real -> real, col: seq<Byte>, m: nat)
    requires m > 0 && ValidCount(col) > 0
    requires forall k | 0 <= k < AlphabetSize :: LetterTally(col, k) == 0 || LetterTally(col, k) == m
    ensures Support(Tally(col), AlphabetSize) > 0
    ensures Entropy(ln, col) == -ln(1.0 / Support(Tally(col), AlphabetSize) as real)
  {
    var t, v := Tally(col), ValidCount(col);
    assert forall k | 0 <= k < |t| :: t[k] == 0 || t[k] == m;
    EqualSlotsSum(t, m, AlphabetSize);
    ValidIsTallySum(col);
    assert t[..AlphabetSize] == t;
    EqualSlotsLn(ln, t, v, m);
  }

  /** Slots that are all 0 or m, m making up valid: their entropy is -ln(1/K) for K non-zero slots. */
  lemma EqualSlotsLn(ln: real -> real, counts: seq<int>, valid: nat, m: nat)
    requires valid > 0 && m > 0
    requires forall k | 0 <= k < |counts| :: counts[k] == 0 || counts[k] == m
    requires valid == Support(counts, |counts|) * m
    ensures Support(counts, |counts|) > 0
    ensures EntropySum(ln, counts, valid, |counts|) == -ln(1.0 / Support(counts, |counts|) as real)
  {
    EqualSlotsEntropy(ln, counts, valid, m, |counts|);
    EqualShares(ln, Support(counts, |counts|), m, valid, EntropySum(ln, counts, valid, |counts|));
  }

  /** An entropy e of K equal shares m out of v = K * m: K * (-(m/v) * ln(m/v)) = -ln(1/K). */
  lemma EqualShares(ln: real -> real, K: nat, m: nat, v: nat, e: real)
    requires m > 0 && v > 0 && v == K * m
    requires e == K as real * EntropyTerm(ln, m, v)
    ensures K > 0
    ensures e == -ln(1.0 / K as real)
  {
    var kr, mr, vr := K as real, m as real, v as real;
    assert vr == kr * mr;
    assert kr > 0.0;
    var p := mr / vr;
    assert p == 1.0 / kr;
    var l := ln(p);
    assert EntropyTerm(ln, m, v) == -mr / vr * l;
    assert -mr / vr == -p;
    assert kr * (-p * l) == -(kr * p) * l;
    assert kr * p == 1.0;
  }

  // ---------------------------------------------------------------------
  // Edge distance

  /** 0 at both ends, the same for column c and column L-1-c, largest ((L-1)/2) at the middle. */
  lemma EdgeDistanceShape(alignmentLength: nat, column: nat)
    requires column < alignmentLength
    ensures EdgeDistance(alignmentLength, 0) == 0 && EdgeDistance(alignmentLength, alignmentLength - 1) == 0
    ensures EdgeDistance(alignmentLength, alignmentLength - 1 - column) == EdgeDistance(alignmentLength, column)
    ensures EdgeDistance(alignmentLength, column) <= (alignmentLength - 1) / 2
    ensures alignmentLength % 2 == 1 ==>
              EdgeDistance(alignmentLength, (alignmentLength - 1) / 2) == (alignmentLength - 1) / 2
  {
  }
}
