/** The Some/None datatype that stands for a reference that may be NULL. */
module Wrappers {

  datatype Option<+T> = None | Some(value: T)
}
