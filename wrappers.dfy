/** Optional values and results with an error channel, used where the Python code
    returns None, relies on a falsy value, or raises. */
module Wrappers {

  datatype Option<+T> = None | Some(value: T)

  datatype Result<+R, +E> = Success(value: R) | Failure(error: E)
}
