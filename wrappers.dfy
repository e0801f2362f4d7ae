/** The optional value used for C's nullable pointers and "not stored" results. */
module Wrappers {
  datatype Option<T> = None | Some(value: T)
}
