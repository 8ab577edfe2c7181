/** The optional value used for lookups that the original program lets fail with an I/O error. */
module Wrappers {

  datatype Option<+T> = None | Some(value: T)
}
