/** Optional values and error-carrying results: the shapes the Ruby code
    expresses with `nil` and with a raised `ArgumentError`. */
module Wrappers {

  /** A value that may be absent (`nil` in Ruby). */
  datatype Option<+T> = None | Some(value: T)

  /** Either a value or the error that the Ruby library would raise instead.
      Usable with `:-`, so a failing step ends the computation. */
  datatype Result<+T, +E> = Success(value: T) | Failure(error: E) {

    predicate IsFailure() {
      Failure?
    }

    function PropagateFailure<U>(): Result<U, E>
      requires Failure?
    {
      Failure(error)
    }

    function Extract(): T
      requires Success?
    {
      value
    }
  }
}
