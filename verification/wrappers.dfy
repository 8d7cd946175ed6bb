/** The optional value used for JavaScript's `null`/`NaN` inputs of the game. */
module Wrappers {

  /** `None` stands for an absent value (`null`, or a `NaN` produced by `parseInt`). */
  datatype Option<+T> = None | Some(value: T)
}
