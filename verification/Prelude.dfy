/** Small result types, and a fact about sets, shared by the whole model. */
module Prelude {
  /** A pointer that may be nil, or a value that may be missing. */
  datatype Option<+T> = None | Some(value: T)

  /** A Go pair of value and error; the error is kept as its text. */
  datatype Result<+T> = Success(value: T) | Failure(text: string)

  lemma CardUnion<T>(a: set<T>, b: set<T>)
    requires a !! b
    ensures |a + b| == |a| + |b|
  {
  }
}
