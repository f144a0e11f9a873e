/**
  The optional value used for results that may be absent: a line with no
  match, or text that does not read as a clock.
 */
module Wrappers {

  datatype Option<T> = None | Some(value: T)
}
