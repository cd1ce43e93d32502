/** The optional value used wherever the JavaScript code returns `null`/`undefined` or a
    record, and the outcome of a call that can throw. */
module Wrappers {

  datatype Option<+T> = None | Some(value: T)

  datatype Result<+T, +E> = Success(value: T) | Failure(error: E)
}
