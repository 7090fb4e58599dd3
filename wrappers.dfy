/** An optional value: a JSON field that may be absent, an optional form input. */
module Wrappers {

  datatype Option<+T> = None | Some(value: T)
}
