/** Option, the usual Some/None wrapper, for values the dashboard only sometimes shows. */
module Wrappers {

  datatype Option<+T> = None | Some(value: T)
}
