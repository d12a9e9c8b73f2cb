/** The failure-carrying results used by both engines. */
module Wrappers {

  /** `None` stands for the exception the source raises (an `IndexError` or `KeyError`). */
  datatype Option<+T> = None | Some(value: T)

  /** Either success or a failure value. */
  datatype Outcome<+E> = Pass | Fail(error: E)
}
