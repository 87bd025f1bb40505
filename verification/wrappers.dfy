/** The optional value used wherever the source has a variable that may be None. */
module Wrappers {

  datatype Option<+T> = None | Some(value: T)
}
