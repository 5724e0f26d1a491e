/** Small shared pieces: an optional value, used for Go's nil and for
    JavaScript's `undefined`, and a step about sequence concatenation that
    several proofs take. */
module Wrappers {

  datatype Option<+T> = None | Some(value: T)

  /** Concatenation regroups freely. */
  lemma Associative<T>(a: seq<T>, b: seq<T>, c: seq<T>)
    ensures a + (b + c) == a + b + c
  {
  }
}
