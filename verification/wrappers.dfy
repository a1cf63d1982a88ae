/** The Some/None datatype used for absent values (JavaScript `undefined`
    or `null`) and for operations that may fail without throwing. */
module Wrappers {
  datatype Option<+T> = None | Some(value: T)
}
