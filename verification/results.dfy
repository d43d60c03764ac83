/** Failure-compatible wrappers shared by every module of the model. */
module Results {

  datatype Option<+T> = None | Some(value: T)

  /** Either a value or the reason the source would not complete normally. */
  datatype Result<+T, +E> = Ok(value: T) | Err(error: E) {

    predicate IsFailure() {
      Err?
    }

    function PropagateFailure<U>(): Result<U, E>
      requires Err?
    {
      Err(error)
    }

    function Extract(): T
      requires Ok?
    {
      value
    }
  }
}
