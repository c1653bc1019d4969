/** Optional values (lookups that may miss, parses that may fail) and check verdicts. */
module Wrappers {

  datatype Option<+T> = None | Some(value: T)

  /** The verdict of a check: it passes, or fails with an error. */
  datatype Outcome<+E> = Pass | Fail(error: E)
}
