/** Optional values, for a record cell that may hold Python's None and for
    the scanners that may or may not find a match. */
module Wrappers {

  datatype Option<+T> = None | Some(value: T)

}
