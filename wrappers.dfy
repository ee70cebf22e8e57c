/** Option and Result, the two failure-carrying shapes the model uses for Go's nil pointers and (value, error) pairs. */
module Wrappers {

  /** A Go pointer or optional field: `None` is nil. */
  datatype Option<T> = None | Some(value: T) {

    /** The value, or `default` when nil. */
    function GetOr(default: T): T {
      if Some? then value else default
    }
  }

  /** A Go `(value, error)` return in which exactly one side is meaningful. */
  datatype Result<T, E> = Success(value: T) | Failure(error: E)
}
