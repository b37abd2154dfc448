/** Optional values: a C pointer that may be NULL, a read that may hit end of input. */
module Wrappers {
  datatype Option<+T> = None | Some(value: T)

  /** Regrouping a concatenation, for logs that grow by one entry at a time. */
  lemma AppendAssoc<T>(a: seq<T>, b: seq<T>, c: seq<T>)
    ensures (a + b) + c == a + (b + c)
  {
  }
}
