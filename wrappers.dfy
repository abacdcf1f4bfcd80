/** The optional value used wherever the modelled code returns `null`, `undefined` or nothing. */
module Wrappers {

  datatype Option<+T> = None | Some(value: T)
}
