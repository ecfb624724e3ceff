/** What the other modules share: two failure-carrying datatypes and lists without repetitions. */
module Results {

  datatype Option<+T> = None | Some(value: T)

  /** A source exception is an `Err`; its message text is kept only where a caller reads it. */
  datatype Result<+T, +E> = Ok(value: T) | Err(error: E)

  predicate Distinct<T(==)>(s: seq<T>) {
    forall i, j :: 0 <= i < j < |s| ==> s[i] != s[j]
  }
}
