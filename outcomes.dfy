/** Values shared by the whole authorization pipeline: the optional value, the
    authorization error the service raises, and the outcome of a step, which is
    a value, a raised authorization error, or an exception the pipeline never
    catches. */
module Outcomes {

  datatype Option<+T> = None | Some(value: T)

  /** HTTP status codes used by the pipeline. */
  const Unauthorized: nat := 401
  const BadRequest: nat := 400

  /** An `AuthError`: the error body (`code`, `description`) and its HTTP status. */
  datatype AuthError = AuthError(code: string, description: string, statusCode: nat)

  /** The result of one step. `Uncaught` names the Python exception that escapes
      the decorator without being turned into an `AuthError`. */
  datatype Outcome<+T> = Ok(value: T) | Raised(error: AuthError) | Uncaught(exception: string) {

    predicate IsFailure() {
      !Ok?
    }

    function PropagateFailure<U>(): Outcome<U>
      requires !Ok?
    {
      if Raised? then Raised(error) else Uncaught(exception)
    }

    function Extract(): T
      requires Ok?
    {
      value
    }
  }
}
