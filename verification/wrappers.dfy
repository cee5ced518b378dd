/** Option, the value-or-nothing type used where the daemon uses `null`. */
module Wrappers {

  datatype Option<+T> = None | Some(value: T)
}
