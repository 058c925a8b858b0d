/** Optional values, for lookups that may find nothing. */
module Wrappers {

  /**
   * A cache lookup's answer, or a strategy's: `None` is what the worker's
   * promise resolves to when it has nothing (JavaScript's `undefined`).
   */
  datatype Option<+T> = None | Some(value: T)
}
