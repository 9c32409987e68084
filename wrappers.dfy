/** The optional value used where the source gets `None` or a missing row. */
module Wrappers {
  datatype Option<T> = None | Some(value: T)
}
