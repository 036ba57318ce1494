/** An optional value, used for the absent stored record and for an unrecognised mode name. */
module Wrappers {
  datatype Option<+T> = None | Some(value: T)
}
