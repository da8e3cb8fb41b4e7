/** The optional value used for the frame's fields that start out as None. */
module Wrappers {

  datatype Option<+T> = None | Some(value: T)
}
