/** The optional value used for a parse that may fail and for the
    nullable `shape` field. */
module Wrappers {
  datatype Option<+T> = None | Some(value: T)
}
