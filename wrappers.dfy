/** An optional value: JavaScript's `null` (or a missing property) versus a present one. */
module Wrappers {

  datatype Option<+T> = None | Some(value: T)
}
