/** Optional values, standing in for the `undefined` of TypeScript's optional properties. */
module Wrappers {

  datatype Option<+T> = None | Some(value: T)
}
