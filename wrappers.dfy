/** The optional value used wherever the components test for `undefined`. */
module Wrappers {

  datatype Option<+T> = None | Some(value: T)
}
