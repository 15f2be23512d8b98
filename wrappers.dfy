/** The absent-or-present value that stands for the source's `T | null`. */
module Wrappers {
  datatype Option<+T> = None | Some(value: T)
}
