/** The optional value the method registry's decoder returns: `None` when a
    string is not one of the registry's wire strings. */
module Wrappers {

  datatype Option<+T> = None | Some(value: T)
}
