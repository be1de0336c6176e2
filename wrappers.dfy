/** Small value wrappers shared by the other modules. */
module Wrappers {

  /** A value that may be absent: JavaScript's `null`/`undefined`, or `NaN` for a number. */
  datatype Option<+T> = None | Some(value: T)

  /**
   * How an awaited promise ends up: fulfilled with a value, rejected (the `await`
   * throws), or pending forever (the `await` never resumes).
   */
  datatype Promise<+T> = Fulfilled(value: T) | Rejected | Pending
}
