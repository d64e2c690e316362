/** Option and Result values used where the Go code returns a nil pointer, a nil slice or an error. */
module Wrappers {

  datatype Option<+T> = None | Some(value: T)

  /** A value or the text of the error that replaced it. */
  datatype Result<+T> = Success(value: T) | Failure(error: string)
}
