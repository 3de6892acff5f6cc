/** The optional value used for JavaScript's `null` and for an awaited call that rejected. */
module Wrappers {

  datatype Option<+T> = None | Some(value: T)
}
