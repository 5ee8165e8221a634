/** The `Option` type, and the associativity of sequence concatenation, shared by the other modules. */
module Wrappers {

  datatype Option<+T> = None | Some(value: T)

  lemma AppendAssoc<T>(a: seq<T>, b: seq<T>, c: seq<T>)
    ensures a + b + c == a + (b + c)
  {
  }
}
