/** Option and Result, the two failure-carrying datatypes the model uses for Java's
    null returns and thrown exceptions. */
module Wrappers {

  datatype Option<+T> = None | Some(value: T)

  /** `Failure` carries the kind of exception the source would throw. */
  datatype Result<+T> = Success(value: T) | Failure(error: string)
}
