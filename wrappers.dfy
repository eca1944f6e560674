/** The optional value used for nullable fields and missing request data. */
module Wrappers {

  datatype Option<+T> = None | Some(value: T)
}
