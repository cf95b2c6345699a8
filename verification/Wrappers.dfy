/** A value that may be missing: Python's None, a null pointer, an error return. */
module Wrappers {
  datatype Option<+T> = None | Some(value: T)
}
