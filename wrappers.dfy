/** The optional value used throughout the model (Python's `None` versus a value). */
module Wrappers {

  datatype Option<+T> = None | Some(value: T)
}
