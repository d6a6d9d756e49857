/** Values shared by every stage of the report-to-ticket pipeline. */
module Base {

  datatype Option<T> = None | Some(value: T)

  /** The fatal conditions of the pipeline. On each, the script prints a
      diagnostic and stops with exit status 1. */
  datatype Error =
    | MalformedReport  // a key missing or an occurrence list empty while ranking the report
    | MalformedMarker  // a marker whose `msg`, `pos[0].cols` or `pos[0].rows` pair is incomplete

  datatype Result<T> = Success(value: T) | Failure(error: Error) {
    predicate IsFailure() { Failure? }

    function PropagateFailure<U>(): Result<U>
      requires Failure?
    {
      Failure(error)
    }

    function Extract(): T
      requires Success?
    {
      value
    }
  }
}
