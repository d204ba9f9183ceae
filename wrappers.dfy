/** Option: a value that may be absent (a failed parse, a route not found). */
module Wrappers {

  datatype Option<+T> = None | Some(value: T)

}
