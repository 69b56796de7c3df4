/** A value that may be absent: a missing DOM node, a regular expression that did not match. */
module Wrappers {

  datatype Option<+T> = None | Some(value: T)
}
