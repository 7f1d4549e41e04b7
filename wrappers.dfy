/** Optional values and error-carrying results shared by every module of the model. */
module Wrappers {
  datatype Option<T> = None | Some(value: T)

  /** An exception raised by the source (KRATOS_ERROR, Python `raise`) is an `Err` carrying its message. */
  datatype Result<T> = Ok(value: T) | Err(message: string)

  /** The outcome of an operation that returns nothing but may raise. */
  datatype Outcome = Completed | Raised(message: string)
}
