/** Optional values: an environment variable that may be unset, a lookup that may miss. */
module Wrappers {

  datatype Option<+T> = None | Some(value: T)
}
