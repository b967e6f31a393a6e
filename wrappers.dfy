/** Option and Result: an optional reference, and a value or the exception the C# code would throw. */
module Wrappers {
  datatype Option<T> = None | Some(value: T)

  datatype Result<T> = Success(value: T) | Failure(error: string)
}
