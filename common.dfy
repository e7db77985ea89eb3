/** Shared vocabulary: optional values, outcomes of operations that can fail (the
    Java exceptions of the search engine become the Err case of a Result), and
    duplicate-free sequences. */
module Common {
  datatype Option<+T> = None | Some(value: T)

  datatype Result<+T, +E> = Ok(value: T) | Err(error: E)

  /** No element occurs twice. */
  predicate NoDuplicates<T(==)>(s: seq<T>) {
    forall i, j :: 0 <= i < j < |s| ==> s[i] != s[j]
  }
}
