/** Optional values and the pass/fail outcome of an operation that can report an error. */
module Wrappers {

  datatype Option<+T> = None | Some(value: T)

  /** The outcome of a handler: it either completes or reports an error message. */
  datatype Outcome = Pass | Fail(message: string)
}
