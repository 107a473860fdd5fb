/** The optional value used wherever the source returns `None` or raises and the caller catches it. */
module Wrappers {

  datatype Option<+T> = None | Some(value: T)

}
