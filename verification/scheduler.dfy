/**
 * The scheduler abstraction: the abstract `Scheduler` base whose members must be
 * overridden, and the policy applied to the result of every scheduled action.
 */
module Scheduler {
  import opened Results
  import opened Disposables

  const SuccessResult: RxResult<()> := Success(())

  const ScheduledActionErrorName: string := "ScheduledActionError"
  const ScheduledActionErrorReason: string := "Error happened during scheduled action execution"

  /**
   * Raises the `ScheduledActionError` exception carrying `error`. The raise never
   * returns, so the `SuccessResult` written after it is unreachable.
   */
  function ErrorDuringScheduledAction(error: ErrorType): (r: Outcome<RxResult<()>>)
    ensures r.Crashes? && r.fault.Raised?
    ensures r.fault.name == ScheduledActionErrorName && r.fault.error == error
  {
    Crashes(Raised(ScheduledActionErrorName, ScheduledActionErrorReason, error))
  }

  /**
   * Scheduled-action error policy: a success passes through as `SuccessResult`,
   * a failure is escalated to a fatal exception. A failure value is never returned.
   */
  function EnsureScheduledSuccessfully(result: RxResult<()>): (r: Outcome<RxResult<()>>)
    ensures r.Returns? <==> result.Success?
    ensures r.Returns? ==> r.value == SuccessResult
    ensures result.Failure? ==> r == ErrorDuringScheduledAction(result.error)
  {
    match result
    case Failure(error) => ErrorDuringScheduledAction(error)
    case Success(_) => Returns(SuccessResult)
  }

  /** The abstract base; `init` stores nothing. */
  datatype SchedulerBase = SchedulerBase {

    /** `now` without an override. */
    function Now<Time>(): (r: Outcome<Time>)
      ensures r == Crashes(AbstractMethodCalled)
    {
      AbstractMethod()
    }

    /** `schedule(state, action)` without an override; the action is never run. */
    function Schedule<State>(state: State): (r: Outcome<RxResult<Disposable>>)
      ensures r == Crashes(AbstractMethodCalled)
    {
      AbstractMethod()
    }

    /** `scheduleRelative(state, dueTime, action)` without an override. */
    function ScheduleRelative<State, TimeInterval>(state: State, dueTime: TimeInterval): (r: Outcome<RxResult<Disposable>>)
      ensures r == Crashes(AbstractMethodCalled)
    {
      AbstractMethod()
    }
  }

  /** `abstractMethod()`: a fatal error that stands in for any value type. */
  function AbstractMethod<T>(): Outcome<T> {
    Crashes(AbstractMethodCalled)
  }
}
