/** The optional value that `Game.Play` returns: `Some` snapshot on a win, `None` when abandoned. */
module Wrappers {

  datatype Option<+T> = None | Some(value: T)

}
