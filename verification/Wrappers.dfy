/** Optional values and results, shared by all modules. */
module Wrappers {

  datatype Option<+T> = None | Some(value: T)

  /** A result, or the error the source raises. */
  datatype Result<+T> = Done(value: T) | Failed {
    predicate IsFailure() { Failed? }
    function PropagateFailure<U>(): Result<U> requires Failed? { Failed }
    function Extract(): T requires Done? { value }
  }
}

/** Facts about any sequence. */
module Sequences {

  predicate NoRepeats<T(==)>(xs: seq<T>) {
    forall i, j | 0 <= i < j < |xs| :: xs[i] != xs[j]
  }
}
