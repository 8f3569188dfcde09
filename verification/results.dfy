/**
 * Result and failure values shared by the scheduler modules: `RxResult` (success
 * or failure of an action), `Option`, and the fatal conditions that end the process.
 */
module Results {

  /** Stand-in for the Swift `ErrorType` carried by a failed result. */
  datatype ErrorType = ErrorType(code: int)

  datatype RxResult<+T> = Success(value: T) | Failure(error: ErrorType)

  datatype Option<+T> = None | Some(value: T)

  /** What brings the process down instead of returning. */
  datatype Fault =
    | Raised(name: string, reason: string, error: ErrorType)  // NSException(...).raise()
    | AbstractMethodCalled                                   // abstractMethod()
    | IntegerOverflow                                        // trapping Swift `+`

  /** A call that returns a value, or one that never returns because of a fatal fault. */
  datatype Outcome<+T> = Returns(value: T) | Crashes(fault: Fault)
}
