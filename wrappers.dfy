/** A value that may be absent: the `null` / `undefined` of the components' data. */
module Wrappers {
  datatype Option<+T> = None | Some(value: T)
}
