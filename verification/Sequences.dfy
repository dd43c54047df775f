/** Concatenation is associative; the verifier has to be told where that matters. */
module Sequences {
  lemma Joined<T>(a: seq<T>, b: seq<T>, c: seq<T>)
    ensures a + b + c == a + (b + c)
  {
  }
}
