/** The optional value used wherever the source tests `'x' in d` or catches a missing entry. */
module Wrappers {

  datatype Option<T> = None | Some(value: T)

}
