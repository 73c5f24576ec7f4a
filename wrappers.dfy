/** Small failure-carrying datatypes shared by every module of the model. */
module Wrappers {

  /** A Java reference that may be `null`. */
  datatype Option<T> = None | Some(value: T)

  /** A value, or the exception that was thrown instead of producing it. */
  datatype Result<T, E> = Ok(value: T) | Err(error: E)

  /** A statement that either completes or throws. */
  datatype Outcome<E> = Pass | Fail(error: E)
}
