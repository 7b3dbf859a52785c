/** The source's `T | null` return values. */
module Wrappers {
  datatype Option<T> = None | Some(value: T)
}
