/** The optional value used wherever the source stores Python's `None`. */
module Wrappers {
  datatype Option<+T> = None | Some(value: T)
}
