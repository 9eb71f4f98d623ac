/** The optional value used for results that may be missing: Python's `None`
    versus a value, a regex search that finds nothing versus a match, and a
    JSON decode that fails versus the decoded value. */
module Wrappers {

  datatype Option<+T> = None | Some(value: T)
}
