/** Small shared helpers: an optional value (a nullable pointer or a std::optional). */
module Wrappers {

  datatype Option<+T> = None | Some(value: T)

  /** The elements of a sequence are pairwise different. */
  predicate Distinct<T(==)>(s: seq<T>)
  {
    forall i, j :: 0 <= i < j < |s| ==> s[i] != s[j]
  }
}
