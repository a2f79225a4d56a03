/** The optional value used where the C code stores a pointer that may be NULL. */
module Wrappers {

  datatype Option<+T> = None | Some(value: T)
}
