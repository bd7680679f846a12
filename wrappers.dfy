/** The optional value used wherever the scripts return `None` or a regex finds nothing. */
module Wrappers {

  datatype Option<+T> = None | Some(value: T)
}
