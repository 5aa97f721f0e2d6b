/** The word parse_double assembles before casting it to double. */
module DoubleBits {
  /** parse_double as written: the eight payload bytes are ORed into a
      uint64_t that is never initialised, so the word it casts is the
      payload ORed with whatever that variable held. */
  function DoubleAsWritten(indeterminate: bv64, word: bv64): (bits: bv64)
  {
    indeterminate | word
  }

  /** With the variable initialised to 0, as the other parsers initialise
      theirs, the word is the payload. */
  lemma DoubleAsWrittenZero(word: bv64)
    ensures DoubleAsWritten(0, word) == word
  {
  }

  /** An all-zero payload read over a variable that happened to hold 1
      gives the pattern 1, not 0; NbtDecode.ScalarTag keeps the payload itself. */
  lemma DoubleAsWrittenCounterexample()
    ensures DoubleAsWritten(1, 0) == 1
  {
  }
}
