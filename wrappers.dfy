/** Optional values: an absent form field, a nullable column, an empty session. */
module Wrappers {

  datatype Option<+T> = None | Some(value: T)

}
