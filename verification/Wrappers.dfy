/** A value that may be missing, and sequences without repetitions. */
module Wrappers {
  datatype Option<+T> = None | Some(value: T)

  ghost predicate Distinct(q: seq<nat>) {
    forall i, j :: 0 <= i < j < |q| ==> q[i] != q[j]
  }
}
