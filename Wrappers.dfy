/** An optional value, for partial inverses. */
module Wrappers {
  datatype Option<+T> = None | Some(value: T)
}
