/** Optional values and success/failure results. `Option` stands for Python's
    `None`-or-value, `Result` for a call that returns or raises. */
module Wrappers {

  datatype Option<+T> = None | Some(value: T)

  datatype Result<+R, +E> = Success(value: R) | Failure(error: E)
}
