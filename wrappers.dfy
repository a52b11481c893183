/** The optional value used for JavaScript's `number | null` fields. */
module Wrappers {
  datatype Option<+T> = None | Some(value: T)
}
