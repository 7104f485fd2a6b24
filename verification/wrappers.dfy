/** The optional and may-throw outcomes shared by every module of the model. */
module Wrappers {

  /** An optional value: `None` stands for JavaScript's `null`/`undefined`. */
  datatype Option<+T> = None | Some(value: T) {

    function GetOr(default: T): T {
      match this
      case Some(v) => v
      case None => default
    }
  }

  /** The outcome of a step that may throw: its value, or the message of what it threw. */
  datatype Attempt<+T> = Done(value: T) | Threw(message: string)
}
