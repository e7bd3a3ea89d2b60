/** Failure-carrying datatypes shared by the two services. */
module Wrappers {

  /** The conventional Some/None datatype, used for JavaScript's `null`/`undefined`. */
  datatype Option<+T> = None | Some(value: T)

  /** The outcome of one step that may throw: a value, or the thrown error's `message`. */
  datatype Attempt<+T> = Done(value: T) | Threw(message: string)
}
