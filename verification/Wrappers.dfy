/** A value that may be absent: what Python spells `None` and JavaScript `undefined`. */
module Wrappers {
  datatype Option<+T> = None | Some(value: T)
}
