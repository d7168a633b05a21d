/** An optional value. */
module Wrappers {
  datatype Optional<T> = None | Some(value: T)
}
