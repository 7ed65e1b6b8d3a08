/** `Option` stands for Python's `None`, and `Result` for a handler that
    either succeeds or answers its sender with an `error` event. */
module Wrappers {

  datatype Option<+T> = None | Some(value: T)

  datatype Result<+R, +E> = Success(value: R) | Failure(error: E)
}
