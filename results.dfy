/** Option and Result, the two failure-carrying types the source uses
    (`Option<T>` and `Result<T, E>` in Rust). Result supports `:-`, which
    plays the role of Rust's `?` operator. */
module Results {

  datatype Option<+T> = None | Some(value: T)

  datatype Result<+T, +E> = Ok(value: T) | Err(error: E) {
    predicate IsFailure() { Err? }

    function PropagateFailure<U>(): Result<U, E>
      requires Err?
    {
      Err(error)
    }

    function Extract(): T
      requires Ok?
    {
      value
    }
  }
}
