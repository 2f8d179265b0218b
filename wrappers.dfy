/** Optional values: a JavaScript reference or handle that may be `null`. */
module Wrappers {

  datatype Option<+T> = None | Some(value: T)
}
