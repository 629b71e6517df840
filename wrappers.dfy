/** Optional values: a host reference that may be missing, an argument that may be omitted. */
module Wrappers {

  datatype Option<+T> = None | Some(value: T)
}
