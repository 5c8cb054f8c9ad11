/** Optional values and the outcome of a service operation. */
module Wrappers {

  /** `java.util.Optional`: a value that may be absent. */
  datatype Option<T> = None | Some(value: T)

  /**
   * What a service operation produces: a value, or the exception it throws.
   * - NotFound: `RecursoNoEncontradoException` with its message;
   * - IllegalArgument: `IllegalArgumentException` with its message;
   * - DataIntegrityViolation: the persistence layer refused a row because it
   *   breaks a uniqueness constraint.
   * The type is failure-compatible, so `:-` propagates an exception the way
   * Java does when a call throws.
   */
  datatype Outcome<T> =
    | Success(value: T)
    | NotFound(message: string)
    | IllegalArgument(message: string)
    | DataIntegrityViolation
  {
    predicate IsFailure() {
      !Success?
    }

    /** The same exception, as the outcome of a caller with another result type. */
    function PropagateFailure<U>(): (r: Outcome<U>)
      requires IsFailure()
      ensures r.IsFailure()
    {
      match this
      case NotFound(m) => NotFound(m)
      case IllegalArgument(m) => IllegalArgument(m)
      case DataIntegrityViolation => DataIntegrityViolation
    }

    function Extract(): T
      requires Success?
    {
      value
    }
  }
}
