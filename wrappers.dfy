/** The Option type used for Python's `None` results and for exceptions that end an operation. */
module Wrappers {

  datatype Option<+T> = None | Some(value: T)
}
