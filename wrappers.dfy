/** Optional values, used wherever the source returns None or a query finds no row. */
module Wrappers {

  datatype Option<+T> = None | Some(value: T)
}
