/** A value that may be absent: an unset environment variable, a missing
    header or query parameter. */
module Wrappers {
  datatype Option<T> = None | Some(value: T)
}
