/** Optional values: Ruby's `nil` for a reference that may be absent. */
module Wrappers {

  datatype Option<T> = None | Some(value: T)

}
