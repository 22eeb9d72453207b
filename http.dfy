/** What a handler sends back: a status with a body, a status with a message, or 400 with field errors. */
module Http {

  datatype Location = Body | Query | Params

  /** One entry of express-validator's `errors.array()`. */
  datatype FieldError = FieldError(location: Location, path: string, msg: string)

  datatype Response<T> =
    | Done(status: int, body: T)
    | Error(status: int, message: string)
    | Invalid(errors: seq<FieldError>)
  {
    /** The HTTP status code sent. */
    function Status(): int {
      match this
      case Done(s, _) => s
      case Error(s, _) => s
      case Invalid(_) => 400
    }
  }
}
