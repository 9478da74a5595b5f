/** Optional values, used for the fields a TypeScript record may leave `undefined`. */
module Wrappers {
  datatype Option<+T> = None | Some(value: T)
}
