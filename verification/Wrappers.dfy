/** The usual optional value, used for null pointers and for std::optional results. */
module Wrappers {
  datatype Option<+T> = None | Some(value: T)
}
