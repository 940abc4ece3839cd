/** Failure-compatible wrappers used by the parser and the validation engine. */
module Results {

  /** A value that may be absent, e.g. the outcome of Python's int() or float() on a token. */
  datatype Option<+T> = None | Some(value: T) {

    /** Turns an absent value into the given error. */
    function ToResult<E>(error: E): Result<T, E> {
      match this
      case Some(v) => Ok(v)
      case None => Err(error)
    }
  }

  /** Either a computed value or the error that stopped the computation. */
  datatype Result<+T, +E> = Ok(value: T) | Err(error: E) {

    predicate IsFailure() {
      Err?
    }

    function PropagateFailure<U>(): Result<U, E>
      requires Err?
    {
      Err(error)
    }

    function Extract(): T
      requires Ok?
    {
      value
    }
  }
}
