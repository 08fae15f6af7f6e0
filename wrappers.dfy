/** Optional values: JavaScript's `null`/`undefined` results and calls that may throw. */
module Wrappers {

  datatype Option<+T> = None | Some(value: T)
}
