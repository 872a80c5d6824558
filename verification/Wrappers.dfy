/** The optional value used wherever the original returns `Option`. */
module Wrappers {
  datatype Option<+T> = None | Some(value: T)
}
