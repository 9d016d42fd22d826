/** How a step of the driver can end.

    Every file effect, shell command and kernel call may succeed, raise an exception that the
    caller's handlers see, or never return because the process (or the node) stopped there.
 */
module Outcomes {

  datatype Option<+T> = None | Some(value: T)

  datatype Outcome = Done | Raised | Crashed {
    /** `:- Effect();` stops the calling method unless the effect was done, as an exception does. */
    predicate IsFailure() {
      !Done?
    }

    function PropagateFailure(): Outcome
      requires IsFailure()
    {
      this
    }
  }
}
