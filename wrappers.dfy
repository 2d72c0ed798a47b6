/** Option and Result: the model's stand-ins for `null`/`undefined` and for thrown errors. */
module Wrappers {

  datatype Option<+T> = None | Some(value: T)

  /** `Failure(e)` stands for an exception whose message (or code) is `e`. */
  datatype Result<+T, +E> = Success(value: T) | Failure(error: E)
}
