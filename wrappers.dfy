/** The optional value used where the source may have nothing to give. */
module Wrappers {
  datatype Option<+T> = None | Some(value: T)
}
