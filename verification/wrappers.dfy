/** Small failure-carrying datatypes shared by the model. */
module Wrappers {

  /** A value that may be absent: C#'s `null`. */
  datatype Option<+T> = None | Some(value: T)

  /** The outcome of a call that either returns a value or lets an exception escape. */
  datatype Fallible<+T> = Returned(value: T) | Threw
}
