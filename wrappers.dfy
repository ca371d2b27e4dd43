/** Failure-carrying values: an absent value, and the outcome of an operation that may throw. */
module Wrappers {

  datatype Option<+T> = None | Some(value: T)

  datatype Result<+T, +E> = Success(value: T) | Failure(error: E)

  /** The entry at index `k` of a sequence of externally supplied values, or `default` when the sequence is too short. */
  function At<T>(xs: seq<T>, k: int, default: T): (r: T)
    ensures 0 <= k < |xs| ==> r == xs[k]
    ensures !(0 <= k < |xs|) ==> r == default
  {
    if 0 <= k < |xs| then xs[k] else default
  }
}
