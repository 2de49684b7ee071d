/** The optional value used wherever the source yields `undefined`, `null`
    or nothing at all. */
module Wrappers {

  datatype Option<T> = None | Some(value: T)
}
