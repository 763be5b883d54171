/** Failure-carrying results shared by every stage of the infusion engine. */
module Results {

  /** The ways the engine can refuse its input. */
  datatype Error =
    | EmptyToken               // a token with no first character to inspect
    | ParseError(text: string) // the numeric part of a token is not an integer
    | DomainError              // no candidate is brighter than the base item

  datatype Option<+T> = None | Some(value: T)

  datatype Result<+T> = Ok(value: T) | Err(error: Error) {

    predicate IsFailure() {
      Err?
    }

    function PropagateFailure<U>(): Result<U>
      requires Err?
    {
      Err(error)
    }

    function Extract(): T
      requires Ok?
    {
      value
    }
  }
}
