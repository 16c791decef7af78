/** Optional values, used for absent registry entries, absent response values and
    for "the call has not returned yet". */
module Wrappers {

  datatype Option<+T> = None | Some(value: T)
}
