// Optional values, and results that may be an error.
module Wrappers {
  datatype Option<+T> = None | Some(value: T)

  datatype Outcome<+T, +E> = Done(value: T) | Fail(error: E)
}
