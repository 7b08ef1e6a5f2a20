/** An optional value: the model's stand-in for a Python attribute that may be `None`. */
module Wrappers {

  datatype Option<+T> = None | Some(value: T)
}
