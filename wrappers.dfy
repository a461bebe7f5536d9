/** The optional value that stands for a query's `.first()` returning `None`. */
module Wrappers {

  datatype Option<T> = None | Some(value: T)
}
