// Optional values, for reads the source leaves undefined when out of range.
module Wrappers {
  datatype Option<T> = None | Some(value: T)
}
