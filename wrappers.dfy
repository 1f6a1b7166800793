/** Option, for the results of foreign calls that can fail. */
module Wrappers {

  datatype Option<+T> = None | Some(value: T)
}
