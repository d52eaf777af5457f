/** Optional values: the `undefined` that `Array.prototype.find` returns when nothing matches. */
module Wrappers {

  datatype Option<+T> = None | Some(value: T)
}
