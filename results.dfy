/** Failure-compatible wrappers shared by every module of the model.

    The Java code reports errors by throwing; each exception that one of the
    modelled operations can throw becomes a `Failure`, and an operation that
    can throw returns a `Result`. */
module Results {

  /** The Java exceptions the modelled code raises, by class. */
  datatype Failure =
    | IllegalArgument(message: string)   // IllegalArgumentException with its message
    | IndexOutOfBounds                    // Array- or StringIndexOutOfBoundsException
    | NullPointer                         // NullPointerException
    | ClassCast                           // ClassCastException

  datatype Option<+T> = None | Some(value: T)

  datatype Result<+T> = Ok(value: T) | Err(failure: Failure) {

    predicate IsFailure() {
      Err?
    }

    function PropagateFailure<U>(): Result<U>
      requires Err?
    {
      Err(failure)
    }

    function Extract(): T
      requires Ok?
    {
      value
    }
  }
}
