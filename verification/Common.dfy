/** The two result types shared by the modules of this project. */
module Common {

  datatype Option<+T> = None | Some(value: T)

  /** A source exception is an Err; its text is not modelled, its cause is the error value. */
  datatype Result<+T, +E> = Ok(value: T) | Err(error: E)
  {
    predicate IsFailure() { Err? }
    function PropagateFailure<U>(): Result<U, E> requires Err? { Err(error) }
    function Extract(): T requires Ok? { value }
  }
}
