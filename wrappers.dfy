/** A value that may be absent: a missing request field, an unset optional
    profile attribute, or an empty query result. */
module Wrappers {

  datatype Option<+T> = None | Some(value: T)

}
