/** A value that may be missing, and the one law of sequences used everywhere. */
module Wrappers {
  datatype Option<+T> = None | Some(value: T)

  lemma {:induction false} Regroup<T>(a: seq<T>, b: seq<T>, c: seq<T>)
    ensures (a + b) + c == a + (b + c)
  {
  }
}
