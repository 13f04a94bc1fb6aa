/** The optional value used wherever the program returns `None` or reads a missing key. */
module Wrappers {

  datatype Option<+T> = None | Some(value: T)
}
