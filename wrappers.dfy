/** The optional value used wherever the helper passes Python's `None`. */
module Wrappers {

  datatype Option<+T> = None | Some(value: T)
}
