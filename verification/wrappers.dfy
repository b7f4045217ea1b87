/** Optional values, used where the game code returns "no move" or raises. */
module Wrappers {

  datatype Option<+T> = None | Some(value: T)
}
