/** The optional value used wherever the program works with `None`. */
module Wrappers {
  datatype Option<+T> = None | Some(value: T)
}
