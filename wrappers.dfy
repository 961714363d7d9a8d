/** The optional value used wherever the source has `None` or a lookup that may miss. */
module Wrappers {

  datatype Option<+T> = None | Some(value: T)
}
