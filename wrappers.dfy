/** The optional value shared by the pages: a score that may be missing, a route id that may be absent, a parse that may fail. */
module Wrappers {

  datatype Option<T> = None | Some(value: T)
}
