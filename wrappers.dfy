/** Option and Result values, and the exceptions the modelled code throws. */
module Wrappers {

  /** A Java reference that may be null: `None` stands for null. */
  datatype Option<+T> = None | Some(value: T)

  /** The outcome of a call that either returns a value or throws. */
  datatype Result<+T, +E> = Success(value: T) | Failure(error: E)

  /** The Java exceptions raised by the modelled code, with their messages. */
  datatype Exception = IllegalArgumentException(message: string)
}
