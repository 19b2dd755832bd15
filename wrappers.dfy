/** The optional value used wherever the Go code returns a value or nothing. */
module Wrappers {

  datatype Option<+T> = None | Some(value: T)

}
