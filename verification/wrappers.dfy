/** Optional values, used for the regex match that may fail and for the
    report that may never be opened. */
module Wrappers {

  datatype Option<+T> = None | Some(value: T)
}
