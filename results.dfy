/** Failure values shared by the whole model: every way the C++ code can stop
    without producing its result. */
module Results {

  datatype Option<+T> = None | Some(value: T)

  /** The failures of the loading engine, one variant per kind. */
  datatype Error =
      /** std::runtime_error thrown by the library with this message */
    | RuntimeError(message: string)
      /** std::out_of_range thrown by std::string::substr or std::stoi */
    | OutOfRange(operation: string)
      /** an assert() of a debug build that does not hold */
    | AssertionFailed(condition: string)
      /** the C++ would read or erase outside a buffer; the model stops here */
    | UndefinedBehaviour(what: string)

  datatype Result<+T> = Ok(value: T) | Err(error: Error) {
    predicate IsFailure() {
      Err?
    }

    function PropagateFailure<U>(): Result<U>
      requires Err?
    {
      Err(error)
    }

    function Extract(): T
      requires Ok?
    {
      value
    }
  }

  /** The outcome of an operation on a stream together with how many bytes it consumed. */
  datatype Step<+T> = Step(result: Result<T>, consumed: nat)
}
