/** The optional value used wherever the JavaScript source tests a field for
    `undefined`/`null` before using it. */
module Wrappers {

  datatype Option<+T> = None | Some(value: T)

}
