/** The two result shapes the models share. */
module Wrappers {

  /** An optional value: Python's `None`, a failed lookup, or a failed assertion. */
  datatype Option<+T> = None | Some(value: T)
}
