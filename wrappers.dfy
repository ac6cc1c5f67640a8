/** The optional value used throughout the model for lookups that may find nothing. */
module Wrappers {

  datatype Option<+T> = None | Some(value: T)

  /** The pair of what a handler answers and the store state it leaves behind. */
  datatype Step<+R, +S> = Step(response: R, state: S)
}
