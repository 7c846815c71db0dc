/** Option and Result, the failure-compatible wrappers the model uses for
    Rust's `Option` and `Result<_, anyhow::Error>`. */
module Wrappers {

  datatype Option<+T> = None | Some(value: T)

  datatype Result<+T, +E> = Success(value: T) | Failure(error: E) {

    predicate IsFailure() {
      Failure?
    }

    function PropagateFailure<U>(): Result<U, E>
      requires Failure?
    {
      Failure(error)
    }

    function Extract(): T
      requires Success?
    {
      value
    }
  }

  /** Rust's `Option::context` from anyhow: a missing value becomes the given error. */
  function Context<T, E>(o: Option<T>, e: E): (r: Result<T, E>)
    ensures r.Success? <==> o.Some?
    ensures o.Some? ==> r.value == o.value
    ensures o.None? ==> r.error == e
  {
    match o
    case Some(v) => Success(v)
    case None => Failure(e)
  }
}
