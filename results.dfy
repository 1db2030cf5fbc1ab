/** Outcomes of the calculator: the Bad Request failures the service throws, as values. */
module Results {

  datatype Option<T> = None | Some(value: T)

  /** Every failure the service reports; each becomes an HTTP 400 "Bad Request". */
  datatype ErrorKind = InvalidExpression | DivisionByZero | InvalidOperator | Unexpected
  {
    /** The `message` field of the exception body. */
    function Message(): string
    {
      match this
      case InvalidExpression => "Invalid expression provided"
      case DivisionByZero => "Division by zero"
      case InvalidOperator => "Invalid operator"
      case Unexpected => "An unexpected error occurred"
    }
  }

  /** The body every BadRequestException of the service carries. */
  datatype BadRequestBody = BadRequestBody(statusCode: int, message: string, error: string)

  function Body(kind: ErrorKind): BadRequestBody
  {
    BadRequestBody(400, kind.Message(), "Bad Request")
  }

  /** A computed number, or the failure that was thrown instead. */
  datatype Result<T> = Success(value: T) | Failure(error: ErrorKind)
}
