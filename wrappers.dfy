/** Option and Result values standing in for Java's nulls and exceptions. */
module Wrappers {

  /** A value that may be absent: Java's nullable reference. */
  datatype Option<+T> = None | Some(value: T)

  /** Either a value or the failure that the Java code would throw. */
  datatype Result<+T, +E> = Ok(value: T) | Err(error: E)
}
