/** The optional value used for nullable cells, an optional selection and optional goals. */
module Wrappers {

  datatype Option<+T> = None | Some(value: T)
}
