/** The optional value used throughout the model where the operator has a nil pointer or a missing entry. */
module Wrappers {
  datatype Option<+T> = None | Some(value: T)
}
