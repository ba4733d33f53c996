/** Optional values: JavaScript's `undefined` results (a missing array
    element, a missing cookie, a failed lookup) are `None`. */
module Wrappers {

  datatype Option<+T> = None | Some(value: T)
}
