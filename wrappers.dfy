/** Failure-carrying values shared by the model's modules. */
module Wrappers {

  datatype Option<T> = None | Some(value: T)

  /** The outcome of an operation that the source may abandon by throwing an Error. */
  datatype Result<T, E> = Success(value: T) | Failure(error: E)
}
