/** The option type used for lookups and for values a caller may leave out. */
module Wrappers {
  datatype Option<+T> = None | Some(value: T)
}
