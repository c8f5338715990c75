/** The optional value used for empty slots, the focus cursor and the host's date. */
module Wrappers {
  datatype Option<+T> = None | Some(value: T)
}
