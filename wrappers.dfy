/** Optional values and error-carrying results, used where the Python code
    returns `None` or raises an exception. */
module Wrappers {

  datatype Option<+T> = None | Some(value: T)

  /** The value of a computation that either produces a `value` or raises `error`. */
  datatype Result<+R, +E> = Success(value: R) | Failure(error: E)

  /** The outcome of a computation that returns nothing or raises `error`. */
  datatype Outcome<+E> = Pass | Fail(error: E)
}
