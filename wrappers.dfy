/** Optional values, as Python's `None`-or-value attributes and return values are used below. */
module Wrappers {

  datatype Option<+T> = None | Some(value: T)

}
