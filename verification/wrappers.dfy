/** Failure-compatible wrapper used across the model: a value that may be
    absent, standing for Python's `None` and SQL's `NULL`. */
module Wrappers {

  datatype Option<+T> = None | Some(value: T)
}
