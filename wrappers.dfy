/** An optional value: a JavaScript `null` / `undefined` field or state. */
module Wrappers {

  datatype Option<+T> = None | Some(value: T)
}
