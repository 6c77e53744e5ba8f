/** Option, for values that may be absent (a missing document, a JavaScript `undefined`). */
module Wrappers {

  datatype Option<+T> = None | Some(value: T)
}
