/** Option and Result, used for C# null references and for exceptions the source throws. */
module Wrappers {

  /** A nullable reference: None plays the part of C# null. */
  datatype Option<+T> = None | Some(value: T)

  /** The value of an operation that either returns or throws. */
  datatype Result<+T, +E> = Success(value: T) | Failure(error: E)
}
