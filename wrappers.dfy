/** The optional value shared by the analytics records and the e-mail parser. */
module Wrappers {

  datatype Option<+T> = None | Some(value: T)
}
