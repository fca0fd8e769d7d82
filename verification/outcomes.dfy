/** The failures a query of the resolver can end in, and the result type
    that carries them. */
module Outcomes {

  datatype Error =
    /** A chain that is empty was indexed at [0] (Python's IndexError). */
    | EmptyChain
    /** The two chains do not start at the same center (`_connect`). */
    | NoCommonCenter
    /** `observe` needs both chains to start at the barycenter, code 0. */
    | NotBarycentric
    /** Ten light-time rounds passed without convergence. */
    | LightTimeDivergence

  datatype Result<+T> = Success(value: T) | Failure(error: Error) {
    predicate IsFailure()
    {
      Failure?
    }

    function PropagateFailure<U>(): Result<U>
      requires Failure?
    {
      Failure(error)
    }

    function Extract(): T
      requires Success?
    {
      value
    }
  }
}
