/** The optional value used for the game's `?`-fields and `| undefined` results. */
module Wrappers {
  datatype Option<+T> = None | Some(value: T)
}
