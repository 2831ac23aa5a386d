/** `Option` and `Result`, shared by every module of the model.
    `Option` doubles as a Java reference that may be `null` (`None`). */
module Wrappers {

  datatype Option<+T> = None | Some(value: T)

  datatype Result<+T, +E> = Success(value: T) | Failure(error: E)
}
