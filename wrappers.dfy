/** The optional value used for nullable PHP values and empty fields. */
module Wrappers {

  datatype Option<+T> = None | Some(value: T)

}
