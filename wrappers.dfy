/** Optional values: a field the CI server may leave out, or a parse that may fail. */
module Wrappers {

  datatype Option<+T> = None | Some(value: T)
}
