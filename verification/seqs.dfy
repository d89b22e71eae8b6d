/** Generic facts about sequences, kept apart so that proofs can use them without
    unfolding anything else. */
module Seqs {
  lemma ConcatAssoc<T>(x: seq<T>, y: seq<T>, z: seq<T>)
    ensures x + (y + z) == (x + y) + z
  {
  }
}
