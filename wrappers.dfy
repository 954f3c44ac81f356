/** The usual optional value: an empty depth-buffer cell is None. */
module Wrappers {
  datatype Option<+T> = None | Some(value: T)
}
