/** An optional value: JavaScript's `undefined` or a missing property. */
module Wrappers {
  datatype Option<+T> = None | Some(value: T)
}
