/**
 * The JSON responses the handlers send. Every handler answers with
 * `res.status(code).json(body)` or, for code 200, just `res.json(body)`;
 * `success` in the body is `false` exactly for the two error shapes.
 */
module Http {

  /** One entry of express-validator's `errors.array()`: the field and its message. */
  datatype FieldError = FieldError(path: string, msg: string)

  datatype Body =
    | ValidationFailed(errors: seq<FieldError>)                   // { success: false, errors }
    | Failure(error: string)                                      // { success: false, error }
    | ChallengeIssued(challenge: string, expiresInSeconds: int)   // /auth/challenge
    | TokenIssued(token: string, accountId: string, expiresIn: string) // /auth/verify
    | TokenValid(accountId: string, publicKey: string)            // /auth/validate, valid: true
    | TokenRefreshed(token: string, expiresIn: string)            // /auth/refresh

  datatype Response = Response(status: int, body: Body) {
    /** The `success` flag of the JSON body. */
    predicate Success() {
      !body.ValidationFailed? && !body.Failure?
    }
  }

  function Ok(body: Body): Response {
    Response(200, body)
  }

  function Fail(status: int, error: string): Response {
    Response(status, Failure(error))
  }
}
