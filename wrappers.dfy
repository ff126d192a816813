/** Option and Outcome: the "value or nothing" and "returned or threw" shapes of the simulation's results. */
module Wrappers {

  /** `null`/`undefined` in the source: an id that may be absent, a lookup that may miss. */
  datatype Option<+T> = None | Some(value: T)

  /** A call that either returns normally (`Pass`) or throws an error carrying a message (`Fail`). */
  datatype Outcome<+E> = Pass | Fail(error: E)
}
