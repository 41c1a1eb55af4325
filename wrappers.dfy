/** Failure-carrying results used by both registries in place of .NET
    exceptions and null references. */
module Wrappers {

  /** A value that may be absent: `None` stands for a .NET null reference. */
  datatype Option<+T> = None | Some(value: T)

  /** Either a value or the exception an operation throws instead. */
  datatype Result<+T, +E> = Ok(value: T) | Err(error: E)

  /** The outcome of a void operation: it returns normally or throws. */
  datatype Outcome<+E> = Pass | Fail(error: E)
}
