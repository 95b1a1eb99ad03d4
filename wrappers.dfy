/** Optional values and results, used for pandas' missing cells and raised exceptions. */
module Wrappers {

  /** `None` stands for a missing value (pandas NaN / NA). */
  datatype Option<+T> = None | Some(value: T)

  /** `Err` stands for an exception the pandas code would raise. */
  datatype Result<+T, +E> = Ok(value: T) | Err(error: E) {

    predicate IsFailure() {
      Err?
    }

    function PropagateFailure<U>(): Result<U, E>
      requires Err?
    {
      Err(error)
    }

    function Extract(): T
      requires Ok?
    {
      value
    }
  }
}
