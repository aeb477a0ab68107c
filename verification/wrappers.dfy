/** Option and Outcome values shared by the modules of the layout engine. */
module Wrappers {
  /** A value that may be absent: the C# `null` of a reference result. */
  datatype Option<T> = None | Some(value: T)

  /** The result of an operation that either succeeds with a value or throws. */
  datatype Outcome<T> = Success(value: T) | Failure(error: string)
}
