/** The optional value used wherever JavaScript yields `undefined` or `null`. */
module Wrappers {

  datatype Option<+T> = None | Some(value: T)
}
