/** Values that may be missing, and results that may be an error instead. */
module Wrappers {
  datatype Option<+T> = None | Some(value: T)

  datatype Result<+T, +E> = Success(value: T) | Error(error: E)
}
