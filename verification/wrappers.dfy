/** Optional values: a JavaScript value that may be `undefined` (or a file
    that may be absent) is an `Option`. */
module Wrappers {

  datatype Option<+T> = None | Some(value: T)
}
