/** Optional values: a JSON field that may be absent, a URL option that may not be given. */
module Wrappers {
  datatype Option<+T> = None | Some(value: T)
}
