/** The optional value used wherever the scripts test for `null`, `undefined`
    or a failed match. */
module Wrappers {

  datatype Option<+T> = None | Some(value: T)
}
