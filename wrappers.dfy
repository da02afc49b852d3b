/** Optional values: a query parameter or a body field that may be absent. */
module Wrappers {

  datatype Option<+T> = None | Some(value: T)
}
