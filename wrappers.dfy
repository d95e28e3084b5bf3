/** The optional value returned by a matcher: the end of a match, or no match. */
module Wrappers {
  datatype Option<+T> = None | Some(value: T)
}
