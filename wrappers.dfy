/** The optional value used for every "may be absent" result of the watchdog. */
module Wrappers {

  datatype Option<+T> = None | Some(value: T)
}
