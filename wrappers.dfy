/** Optional values: a decode or a fetch that may fail. */
module Wrappers {

  datatype Option<+T> = None | Some(value: T)
}
