/** The optional value used for Python's "may raise" results. */
module Wrappers {

  datatype Option<+T> = None | Some(value: T)
}
