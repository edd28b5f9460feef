/** A value that may be absent: an unset field, or a number text that reads as NaN. */
module Wrappers {

  datatype Option<+T> = None | Some(value: T)
}
