/** Values that may be missing, for the source's `None` and for its exceptions. */
module Wrappers {

  datatype Option<+T> = None | Some(value: T)
}
