/**
 * Classification of one alignment character: a gap, one of the 26 Latin
 * letters (case-insensitively), or anything else.
 */
module Residues {

  /** One byte of sequence data. The Python model uses the code point of an ASCII character. */
  type Byte = b: int | 0 <= b < 256

  /** The gap symbol '-'. */
  const GapSymbol: Byte := '-' as int

  /** Size of the letter tally: 'Z' - 'A' + 1. */
  const AlphabetSize: nat := 26

  const UpperA: Byte := 'A' as int
  const UpperZ: Byte := 'Z' as int

  /** `toupper` in the C locale (and `str.upper` on ASCII): only 'a'..'z' change. */
  function ToUpper(c: Byte): (u: Byte)
    ensures 'a' as int <= c <= 'z' as int ==> u == c - 32
    ensures !('a' as int <= c <= 'z' as int) ==> u == c
  {
    if 'a' as int <= c <= 'z' as int then c - ('a' as int - 'A' as int) else c
  }

  /** The gap symbol is never tallied as a letter. */
  predicate IsGap(c: Byte)
    ensures IsGap(c) ==> !IsLetter(c)
  {
    c == GapSymbol
  }

  /** A character is tallied iff its upper-case form lies in 'A'..'Z', that is, iff it is an ASCII letter. */
  predicate IsLetter(c: Byte)
    ensures IsLetter(c) <==> ('A' as int <= c <= 'Z' as int || 'a' as int <= c <= 'z' as int)
  {
    UpperA <= ToUpper(c) <= UpperZ
  }

  /** The tally slot a letter increments: `C - 'A'`. */
  function LetterIndex(c: Byte): (k: nat)
    requires IsLetter(c)
    ensures k < AlphabetSize
  {
    ToUpper(c) - UpperA
  }

  /** Letters are exactly the upper- and lower-case ASCII letters; upper and lower case share a slot. */
  lemma LetterClassification(c: Byte)
    ensures IsLetter(c) <==> ('A' as int <= c <= 'Z' as int || 'a' as int <= c <= 'z' as int)
    ensures 'a' as int <= c <= 'z' as int ==> LetterIndex(c) == LetterIndex(c - 32)
    ensures !IsLetter(GapSymbol)
  {
  }
}
