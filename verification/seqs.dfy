/** Facts about sequences shared by the lexing and evaluation models. */
module Seqs {
  /** Concatenation is associative; stated once for the proofs that
      regroup token and event sequences. */
  lemma ConcatAssoc<X>(a: seq<X>, b: seq<X>, c: seq<X>)
    ensures a + (b + c) == a + b + c
  {
  }
}
