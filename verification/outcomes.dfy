/** Fatal outcomes of the adapter.

    The adapter never reports a programming error to its caller: a failed
    RELEASE_ASSERT, a failed debug ASSERT or a dereference of a null output
    pointer ends the process. The model represents such an end as `Abort`,
    carrying which check failed, so that every operation stays total. */
module Outcomes {

  /** Which check ended the process. */
  datatype Violation =
    | BadEventMask           // activate() called with an empty or unsupported event set
    | ScheduleAlreadyArmed   // accumulator empty but the activation callback already armed
    | ScheduleNotArmed       // activation callback not armed after activate()
    | EmptyAccumulator       // scheduled callback ran with nothing injected
    | InvalidArgument        // the foreign layer answered VPPCOM_EINVAL
    | InvalidSession         // close() on an invalid session handle
    | NoWorker               // the calling thread has no worker index
    | AlreadyListener        // listen() on a listener
    | WorkerMismatch         // listen() from a worker that does not own the session
    | NotListener            // accept() on a non-listener
    | NullDereference        // an output pointer the code writes through is null

  /** Either the value an operation returns, or the check that aborted it. */
  datatype Checked<+T> = Ok(value: T) | Abort(violation: Violation) {

    predicate IsFailure() {
      Abort?
    }

    function PropagateFailure<U>(): Checked<U>
      requires Abort?
    {
      Abort(violation)
    }

    function Extract(): T
      requires Ok?
    {
      value
    }
  }
}
