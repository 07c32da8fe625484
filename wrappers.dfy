/** An optional value, for optional record fields and for "no action". */
module Wrappers {

  datatype Option<+T> = None | Some(value: T)
}
