/** Failure-carrying datatypes shared by the query builder and the launcher. */
module Wrappers {

  /** A value that may be absent: a TypeScript optional field or a failed read. */
  datatype Option<+T> = None | Some(value: T)

  /** Either a value or the error that a rejected promise or a throw carries. */
  datatype Result<+R, +E> = Success(value: R) | Failure(error: E)
}
