/** A value that may be absent: a NULL pointer, a lookup that found nothing. */
module Wrappers {
  datatype Option<T> = None | Some(value: T)
}
