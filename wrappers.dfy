/** Option and Result, the model's stand-ins for `null`/`undefined` and for
    handlers that either answer or reject a request. */
module Wrappers {

  datatype Option<+T> = None | Some(value: T)

  datatype Result<+R, +E> = Success(value: R) | Failure(error: E)
}
