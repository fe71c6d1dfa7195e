/** The optional value used for absent attributes and for steps that can fail. */
module Wrappers {
  datatype Option<+T> = None | Some(value: T)
}
