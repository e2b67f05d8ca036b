/** Shared result types. */
module Wrappers {
  /** A reference or index that may be missing, such as a NULL pointer. */
  datatype Option<+T> = None | Some(value: T)
}
