/** The "absent or present" wrapper used for a nullable pointer of the C source. */
module Wrappers {

  datatype Option<+T> = None | Some(value: T)
}
