/** Optional values and pass/fail outcomes.

    Go's nil-able pointers (`*string`, `*bool`, `*RepoLocation`) become
    `Option`, and a Go function returning `error` (nil on success) becomes
    a function returning `Outcome`.
 */
module Wrappers {

  /** `None` stands for a nil pointer, `Some(v)` for a pointer to `v`. */
  datatype Option<+T> = None | Some(value: T)

  /** `Pass` stands for a nil `error`, `Fail(e)` for a returned error. */
  datatype Outcome<+E> = Pass | Fail(error: E)
}
