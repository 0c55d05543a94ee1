/** The optional value shared by both presence-detection engines. */
module Wrappers {

  datatype Option<+T> = None | Some(value: T)
}
