/** The Option type used wherever the scripts use Python's `None`. */
module Wrappers {

  datatype Option<+T> = None | Some(value: T)
}
