/** Option and Outcome: the failure-compatible values the model returns where
    the source returns an `Option` or fails. */
module Wrappers {

  datatype Option<+T> = None | Some(value: T)

  /** `Pass` when an operation succeeded, `Fail(error)` when it was refused. */
  datatype Outcome<+E> = Pass | Fail(error: E)
}
