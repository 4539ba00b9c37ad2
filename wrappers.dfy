/**
 * Optional values, for Python's `None`: the genetic loop's last recorded
 * bin count, which is absent until the first generation has been scored.
 */
module Wrappers {

  datatype Option<T> = None | Some(value: T)
}
