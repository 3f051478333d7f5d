/** The HTTP errors the backend raises, as values, and the result type that
    carries either a value or the error that was raised. */
module Exceptions {

  /** An `HTTPException`: status code, detail message, and whether it carries
      the `WWW-Authenticate: Bearer` header. */
  datatype HttpError = HttpError(status: int, detail: string, bearerChallenge: bool)

  /** A function that returns `Err(e)` stands for Python code that raises `e`. */
  datatype Result<+T> = Ok(value: T) | Err(error: HttpError) {

    predicate IsFailure() {
      Err?
    }

    function PropagateFailure<U>(): Result<U>
      requires Err?
    {
      Err(error)
    }

    function Extract(): T
      requires Ok?
    {
      value
    }
  }

  /** 401 raised for a bad password, a token that does not verify, or a token without subject. */
  const CredentialsException := HttpError(401, "Could not validate credentials", true)

  /** 401 raised for a token whose `exp` has passed. */
  const TokenExpireException := HttpError(401, "Token expired.", true)
}
