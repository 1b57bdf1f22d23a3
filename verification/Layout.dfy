/** Sizes of the shared-memory structures on a 64-bit build without debugging canaries. */
module Layout {
  const WORD: nat := 8                 // sizeof(immutable_cache_word_t)
  const SIZE_LIMIT: nat := 0x1_0000_0000_0000_0000  // size_t wraps here
  const HEADER: nat := 1104            // ALIGNWORD(sizeof(sma_header_t)): 17 padded locks, segsize, avail
  const BLOCK: nat := 32               // ALIGNWORD(sizeof(block_t)): four size_t fields
  const MIN_BLOCK: nat := WORD + BLOCK // MINBLOCKSIZE
  const BEST_FIT_LIMIT: nat := 3

  /** Rounds up to the next multiple of the word size (ALIGNWORD and ZEND_MM_ALIGNED_SIZE). */
  function AlignWord(x: nat): (r: nat)
    requires x > 0
    ensures r % WORD == 0 && x <= r < x + WORD
  {
    WORD * (1 + (x - 1) / WORD)
  }
}
