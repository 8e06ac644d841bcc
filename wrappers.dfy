/** The optional value used for "no expiry" and for answers that may be absent. */
module Wrappers {

  datatype Option<+T> = None | Some(value: T)
}
