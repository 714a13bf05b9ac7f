module Wrappers {
  /** A result that may be missing; `None` also stands for a failed assertion of the source. */
  datatype Option<+T> = None | Some(value: T)
}
