/** The stand-in for a value that may be absent: a NULL column, an omitted field. */
module Wrappers {

  datatype Option<+T> = None | Some(value: T)
}
