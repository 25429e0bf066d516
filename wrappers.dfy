/** Failure-carrying values used in place of Python's None and exceptions. */
module Wrappers {

  /** A nullable value: a database column declared `null=True`, or a dict lookup that may miss. */
  datatype Option<+T> = None | Some(value: T)

  /** The outcome of a step that returns data or raises. */
  datatype Result<+T, +E> = Ok(value: T) | Err(error: E)

  /** The outcome of a step that returns nothing or raises. */
  datatype Outcome<+E> = Pass | Fail(error: E)
}
