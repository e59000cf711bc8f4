/** Optional values and results with an error, used wherever the Python code
    passes `None` or raises an exception. */
module Wrappers {

  /** `None` models Python's `None`; `Some(v)` a value that is present. */
  datatype Option<+T> = None | Some(value: T)

  /** The outcome of an operation that can raise: either its value or the
      exception it raises. */
  datatype Result<+T, +E> = Success(value: T) | Failure(error: E) {

    predicate IsFailure() {
      Failure?
    }

    function PropagateFailure<U>(): Result<U, E>
      requires Failure?
    {
      Failure(error)
    }

    function Extract(): T
      requires Success?
    {
      value
    }
  }
}

/** The exception classes of the observation client. */
module Errors {

  datatype Error =
    | NoObservationError
    | AuthError
    | ApiError
    | SpatialError
    | ElevationError
    | PercentError
    | MissingArgumentError
      /** Not one of the module's own classes: Python raises it when an
          attribute is read from `None`. */
    | AttributeError
}
