/** The Option type used for "maybe absent" results (a found subwindow, a write that happened). */
module Wrappers {
  datatype Option<+T> = None | Some(value: T)
}
