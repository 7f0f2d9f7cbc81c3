/** The optional value used wherever the marksheet may have nothing to show. */
module Wrappers {

  datatype Option<T> = None | Some(value: T)
}
