/** An absent row, lease, cursor or slot. */
module Wrappers {
  datatype Option<+T> = None | Some(value: T)
}
