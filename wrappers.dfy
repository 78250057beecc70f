/** Small failure-carrying datatypes shared by the modules of this project. */
module Wrappers {

  /** A value that may be missing: a failed parse, an unset pointer, an empty search. */
  datatype Option<+T> = None | Some(value: T)
}
