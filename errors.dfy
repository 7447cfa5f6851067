/**
 * The error model of the binding server (server/errors.go) and the Go `error`
 * values that the core passes around.
 *
 * A Go `error` is either nil or a value of some dynamic type.  In this model a
 * non-nil error is an `Error`: an `ApplicationError` (the only kind that is
 * meant to reach an end user) or an `Internal` error of any other type (a
 * storage failure, a failed random read, a parse error), whose text is opaque.
 * A nil error is the `Ok`/`Pass` side of `Result` and `Outcome`.
 */
module Errors {

  /** A Go pointer that may be nil. */
  datatype Option<+T> = None | Some(value: T)

  /** A structured error; the first three decimal digits of `errorCode` are the HTTP status it stands for. */
  datatype ApplicationError = ApplicationError(errorCode: int, message: string) {

    /** The `error` interface method: the message, unchanged. */
    function Error(): (s: string)
      ensures s == message
    {
      message
    }
  }

  /** The constructor the core uses for every user-facing error. */
  function NewApplicationError(errorCode: int, message: string): (e: ApplicationError)
    ensures e.errorCode == errorCode
    ensures e.message == message
  {
    ApplicationError(errorCode, message)
  }

  /** A non-nil Go `error`. */
  datatype Error = App(app: ApplicationError) | Internal(detail: string) {

    /** `errors.As(err, &ApplicationError{})`: the dynamic type is ApplicationError. */
    predicate IsApplicationError() {
      App?
    }

    /** `err.Error()` */
    function Message(): string {
      match this
      case App(a) => a.Error()
      case Internal(d) => d
    }
  }

  /** A Go `(value, error)` pair in which exactly one side is meaningful. */
  datatype Result<+T> = Ok(value: T) | Err(error: Error) {

    /** The error half of the pair, nil on success. */
    function ErrorOrNil(): (e: Option<Error>)
      ensures e.Some? <==> Err?
    {
      match this
      case Ok(_) => None
      case Err(e) => Some(e)
    }
  }

  /** A Go function that returns only an `error`: `Pass` is nil. */
  datatype Outcome = Pass | Fail(error: Error)
}
