/** The optional value used for query arguments that may be absent and for table cells that may be missing. */
module Wrappers {

  datatype Option<+T> = None | Some(value: T)
}
