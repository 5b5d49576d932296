/** Small facts about sequences shared by the other modules. */
module Sequences {

  /** Concatenation regroups freely; stated once so that proofs about strings and catalogs stay cheap. */
  lemma AppendAssociative<T>(a: seq<T>, b: seq<T>, c: seq<T>)
    ensures a + b + c == a + (b + c)
  {
  }
}
