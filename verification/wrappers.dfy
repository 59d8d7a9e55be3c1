/** Optional values, used for the forum's current user and for the messenger's session keys. */
module Wrappers {
  datatype Option<+T> = None | Some(value: T)
}
