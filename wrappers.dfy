/** Optional values: a field missing from a JSON body, a query that matched nothing. */
module Wrappers {

  datatype Option<+T> = None | Some(value: T)
}
