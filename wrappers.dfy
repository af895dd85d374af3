/** The optional value used for JavaScript's "null or undefined" results. */
module Wrappers {

  datatype Option<+T> = None | Some(value: T)
}
