/** The optional value used for the source's `null`/`undefined` fields and results. */
module Wrappers {

  datatype Option<+T> = None | Some(value: T)
}
