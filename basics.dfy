/** Small shared definitions: the optional-value datatype (absent headers,
    absent storage writes, partial decoders) and a sequence fact. */
module Basics {

  datatype Option<+T> = None | Some(value: T)

  /** Concatenation is associative; stated once so that proofs over
      accumulated strings and records can regroup their parts. */
  lemma ConcatAssoc<T>(a: seq<T>, b: seq<T>, c: seq<T>)
    ensures (a + b) + c == a + (b + c)
  {
  }
}
