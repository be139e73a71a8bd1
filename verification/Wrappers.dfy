/** Results of operations that the TypeScript code reports by returning null or by throwing. */
module Wrappers {

  datatype Option<+T> = None | Some(value: T) {
    predicate IsFailure() {
      None?
    }

    function PropagateFailure<U>(): Option<U>
      requires None?
    {
      None
    }

    function Extract(): T
      requires Some?
    {
      value
    }
  }

  datatype Result<+T, +E> = Ok(value: T) | Err(error: E)

  /** A check of a total function: None stands for the exception it would throw. */
  function Need(condition: bool): Option<()> {
    if condition then Some(()) else None
  }
}
