/** Stand-in for JavaScript's `null`/`undefined`: a value that may be absent. */
module Wrappers {
  datatype Option<+T> = None | Some(value: T)
}
