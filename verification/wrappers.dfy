/** Failure-compatible wrappers shared by the other modules.
    - Option<T>: a lookup that may find nothing (a tag that is absent, a regex with no match).
    - Result<T, E>: a computation that may raise (Python's float() on a malformed literal). */
module Wrappers {

  datatype Option<+T> = None | Some(value: T)

  datatype Result<+T, +E> = Ok(value: T) | Err(error: E) {

    predicate IsFailure() {
      Err?
    }

    function PropagateFailure<U>(): Result<U, E>
      requires Err?
    {
      Err(error)
    }

    function Extract(): T
      requires Ok?
    {
      value
    }
  }
}
