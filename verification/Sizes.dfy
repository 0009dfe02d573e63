/** The two sizes that every layer shares. */
module Sizes {
  /** The bytes of a page. */
  const PAGE_SIZE: nat := 0x1000
  /** Addresses and sizes are 64-bit: sums wrap here. */
  const WORD_LIMIT: nat := 0x1_0000_0000_0000_0000
}
