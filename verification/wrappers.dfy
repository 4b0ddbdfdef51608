/** Small helper types shared by every module of the model. */
module Wrappers {

  /** A value that may be absent: the model's stand-in for a null pointer,
      an unset `std::optional` or an empty `std::function`. */
  datatype Option<+T> = None | Some(value: T)
}
