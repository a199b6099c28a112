/** The optional value shared by the client and server models: a null URI, an
    absent response or an absent query parameter is None. */
module Wrappers {
  datatype Option<T> = None | Some(value: T)
}
