/** The optional value used throughout the model: a JavaScript `null` or
    `undefined` where the source allows one. */
module Wrappers {

  datatype Option<+T> = None | Some(value: T)
}
