/** Failure-carrying results used where the source throws or asserts. */
module Wrappers {

  datatype Option<T> = None | Some(value: T)

  /** The result of a step that either completes or aborts with a message. */
  datatype Outcome = Pass | Fail(message: string)

  /** A value, or the message of the exception that replaced it. */
  datatype Result<T> = Ok(value: T) | Err(message: string)
}
