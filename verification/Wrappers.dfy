/** Optional values, standing for the source's `X | None`. */
module Wrappers {
  datatype Option<+T> = None | Some(value: T)
}
