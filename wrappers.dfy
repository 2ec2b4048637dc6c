/** Small helper datatype for values that may be absent (a Java null). */
module Wrappers {

  datatype Option<+T> = None | Some(value: T)
}
