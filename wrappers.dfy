/** The optional value used by the checked (`_opt`) operations. */
module Wrappers {

  datatype Option<+T> = None | Some(value: T)
}
