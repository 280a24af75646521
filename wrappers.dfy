/** Optional values: a JavaScript `undefined`/`null`, or a Date that failed to parse. */
module Wrappers {

  datatype Option<+T> = None | Some(value: T)
}
