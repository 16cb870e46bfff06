/** Optional values: a seat, a card slot or an error that may be absent (nil in the Go code). */
module Wrappers {
  datatype Option<T> = None | Some(value: T)
}
