/**
 The 64-bit words that the frame bitmap and the buddy bitmap are made of.
 A word is modelled by its bits, lowest first, so that `w | 1 << b` is `w[b := true]`.
 */
module Words {

  const WORD_BITS: nat := 64

  type Word = w: seq<bool> | |w| == WORD_BITS witness seq(WORD_BITS, _ => false)

  const NO_BITS: Word := seq(WORD_BITS, _ => false)
  const ALL_BITS: Word := seq(WORD_BITS, _ => true)

  /** Bit `i` of a bitmap stored as words. */
  predicate BitAt(bm: seq<Word>, i: nat)
    requires i < WORD_BITS * |bm|
  {
    bm[i / WORD_BITS][i % WORD_BITS]
  }

  /** The bitmap after one bit of one word has been stored. */
  function StoreBit(bm: seq<Word>, i: nat, bit: bool): (r: seq<Word>)
    requires i < WORD_BITS * |bm|
    ensures |r| == |bm|
    ensures forall j: nat | j < WORD_BITS * |bm| :: BitAt(r, j) <==> if j == i then bit else BitAt(bm, j)
  {
    bm[i / WORD_BITS := bm[i / WORD_BITS][i % WORD_BITS := bit]]
  }

  lemma EmptyWord(w: Word)
    ensures w == NO_BITS <==> forall b :: 0 <= b < WORD_BITS ==> !w[b]
    ensures w == ALL_BITS <==> forall b :: 0 <= b < WORD_BITS ==> w[b]
  {
  }
}
