/** The optional value used wherever the source distinguishes "found" from "absent". */
module Wrappers {
  datatype Option<T> = None | Some(value: T)
}
