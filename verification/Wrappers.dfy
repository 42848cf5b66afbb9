/** Values that may be absent: a missing Redis key, an SQL NULL, a JavaScript null. */
module Wrappers {
  datatype Option<+T> = None | Some(value: T)
}
