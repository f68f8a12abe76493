/** The optional value used for the lazily built lookup table and for a Kontrol's update handler. */
module Wrappers {

  datatype Option<+T> = None | Some(value: T)
}
