/** Failure-carrying values shared by the whole model: `Option` for a lookup or
    parse that may find nothing, `Result` for an operation that may raise. */
module Results {

  datatype Option<+T> = None | Some(value: T)

  /** `Err` stands for a Python exception escaping the operation. */
  datatype Result<+T, +E> = Ok(value: T) | Err(error: E) {

    predicate IsFailure() {
      Err?
    }

    function PropagateFailure<U>(): Result<U, E>
      requires Err?
    {
      Err(error)
    }

    function Extract(): T
      requires Ok?
    {
      value
    }
  }
}
