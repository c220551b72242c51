/** Optional values, used for the captures of the two ticket patterns and for
    the branch name that the version-control backend may fail to supply. */
module Wrappers {

  datatype Option<+T> = None | Some(value: T)
}
