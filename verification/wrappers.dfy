/** Optional values, used for accept (a pending client or none) and for decoders that can fail. */
module Wrappers {
  datatype Option<+T> = None | Some(value: T)
}
