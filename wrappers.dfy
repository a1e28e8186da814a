/** Optional values: an absent DOM attribute (`getAttribute` returning null)
    or a failed parse. */
module Wrappers {

  datatype Option<+T> = None | Some(value: T)
}
