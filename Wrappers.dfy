/** Option and Result, the values that stand for PHP's null and for a thrown exception. */
module Wrappers {

  datatype Option<+T> = None | Some(value: T)

  /** The outcome of a step that either completes with a value or throws with a message. */
  datatype Result<+T> = Ok(value: T) | Err(message: string)
}
