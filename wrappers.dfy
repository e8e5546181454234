/** An optional value, standing for JavaScript's `undefined` where the source
    tests for it (`queue.shift()` on an empty array, a missing pull request). */
module Wrappers {

  datatype Option<+T> = None | Some(value: T)
}
