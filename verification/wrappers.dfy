/**
 * A Java reference that may be null: `None` where the code returns or
 * receives null, `Some` where it holds a value.
 */
module Wrappers {
  datatype Option<T> = None | Some(value: T)
}
