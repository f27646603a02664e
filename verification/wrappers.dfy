/** The outcome of an operation that can be rejected. */
module Wrappers {

  datatype Result<+T, +E> = Ok(value: T) | Err(error: E)

}
