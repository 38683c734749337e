/**
 * The request gate of src/middleware/auth.js: it reads the `Authorization`
 * header, strips a `Bearer ` prefix when there is one (RFC 6750, section 2.1,
 * plus a bare token), verifies the token, and either fills `req.user` and
 * calls `next()` or answers 401 with one of three messages.
 */
module Middleware {
  import opened Wrappers
  import opened JsBuiltins
  import opened Http
  import opened Jwt

  const BearerPrefix: string := "Bearer "
  const NoHeaderMessage: string := "No authorization header provided"
  const ExpiredMessage: string := "Token expired"
  const InvalidMessage: string := "Invalid token"

  /** The token part of a header: what follows a case-sensitive `Bearer `, or the whole header. */
  function ExtractToken(header: string): (token: string)
    ensures StartsWith(header, BearerPrefix) ==> header == BearerPrefix + token
    ensures !StartsWith(header, BearerPrefix) ==> token == header
  {
    if StartsWith(header, BearerPrefix) then header[|BearerPrefix|..] else header
  }

  /** The message for an error `jwt.verify` threw: only `TokenExpiredError` is singled out. */
  function RejectionMessage(error: JwtError): (message: string)
    ensures message == ExpiredMessage <==> error == TokenExpiredError
    ensures message != ExpiredMessage ==> message == InvalidMessage
  {
    if error == TokenExpiredError then ExpiredMessage else InvalidMessage
  }

  /** What the gate does with a request: pass it on with a user, or answer it. */
  datatype GateOutcome = Next(user: Claims) | Reject(response: Response)

  /** The gate's decision for an `Authorization` header at a clock reading. */
  function Authenticate(authorization: Option<string>, jwt: Signer, now: int): (gate: GateOutcome)
    ensures gate.Next? <==> Truthy(authorization) && jwt.verify(ExtractToken(authorization.value), now).Decoded?
    ensures gate.Reject? ==> gate.response.status == 401 && gate.response.body.Failure?
  {
    if !Truthy(authorization) then Reject(Fail(401, NoHeaderMessage))
    else
      match jwt.verify(ExtractToken(authorization.value), now)
      case Decoded(payload) => Next(ClaimsOf(payload))
      case Thrown(error) => Reject(Fail(401, RejectionMessage(error)))
  }

  /** An incoming request: its `Authorization` header and the `req.user` the gate fills. */
  class Request {
    const authorization: Option<string>
    var user: Option<Claims>

    constructor (authorization: Option<string>)
      ensures this.authorization == authorization && user == None
    {
      this.authorization := authorization;
      user := None;
    }
  }

  /**
   * `authMiddleware(req, res, next)`: `Next` stands for the one call of
   * `next()`, made after `req.user` is set; `Reject` for the 401 sent instead.
   */
  method AuthMiddleware(req: Request, jwt: Signer, now: int) returns (outcome: GateOutcome)
    modifies req
    ensures outcome == Authenticate(req.authorization, jwt, now)
    ensures req.user == if outcome.Next? then Some(outcome.user) else old(req.user)
  {
    var authHeader := req.authorization;
    if !Truthy(authHeader) {
      return Reject(Fail(401, NoHeaderMessage));
    }
    var token := ExtractToken(authHeader.value);
    var decoded := jwt.verify(token, now);
    match decoded {
      case Thrown(error) =>
        return Reject(Fail(401, RejectionMessage(error)));
      case Decoded(payload) =>
        req.user := Some(Claims(payload.accountId, payload.publicKey));
        return Next(req.user.value);
    }
  }

  // ---------------------------------------------------------------------------
  // Properties of the gate
  // ---------------------------------------------------------------------------

  /** `Bearer ` followed by any token yields exactly that token. */
  lemma ExtractBearer(token: string)
    ensures ExtractToken(BearerPrefix + token) == token
  {
    assert (BearerPrefix + token)[..|BearerPrefix|] == BearerPrefix;
  }

  /** The prefix is case-sensitive and needs its space: such headers are used whole. */
  lemma ExtractWholeHeader()
    ensures ExtractToken("bearer x") == "bearer x"
    ensures ExtractToken("Bearer") == "Bearer"
    ensures ExtractToken("BEARER abc") == "BEARER abc"
  {
    assert "bearer x"[..7] != BearerPrefix by { assert "bearer x"[0] == 'b'; }
    assert "BEARER abc"[..7] != BearerPrefix by { assert "BEARER abc"[1] == 'E'; }
  }

  /** A missing or empty header is refused before any token is looked at. */
  lemma MissingHeaderRejected(authorization: Option<string>, jwt1: Signer, jwt2: Signer, now: int)
    requires !Truthy(authorization)
    ensures Authenticate(authorization, jwt1, now) == Reject(Fail(401, NoHeaderMessage))
    ensures Authenticate(authorization, jwt1, now) == Authenticate(authorization, jwt2, now)
  {
  }

  /**
   * Passing is exactly a present header whose token decodes, and the user is
   * exactly the decoded `accountId` and `publicKey`.
   */
  lemma AdmitsExactlyDecoded(authorization: Option<string>, jwt: Signer, now: int)
    ensures Authenticate(authorization, jwt, now).Next? <==>
      Truthy(authorization) && jwt.verify(ExtractToken(authorization.value), now).Decoded?
    ensures Authenticate(authorization, jwt, now).Next? ==>
      Authenticate(authorization, jwt, now).user
        == ClaimsOf(jwt.verify(ExtractToken(authorization.value), now).payload)
  {
  }

  /** Every refusal is a 401; "Token expired" exactly for an expired token, "Invalid token" for other errors. */
  lemma RejectionsClassified(authorization: Option<string>, jwt: Signer, now: int)
    requires Authenticate(authorization, jwt, now).Reject?
    ensures Authenticate(authorization, jwt, now).response.status == 401
    ensures !Authenticate(authorization, jwt, now).response.Success()
    ensures Authenticate(authorization, jwt, now).response == Fail(401, ExpiredMessage) <==>
      Truthy(authorization) && jwt.verify(ExtractToken(authorization.value), now) == Thrown(TokenExpiredError)
    ensures Truthy(authorization) && jwt.verify(ExtractToken(authorization.value), now).Thrown?
            && jwt.verify(ExtractToken(authorization.value), now).error != TokenExpiredError
        ==> Authenticate(authorization, jwt, now).response == Fail(401, InvalidMessage)
  {
  }

  /** A token minted at `t`, sent as `Bearer <token>` before its lifetime is over, lets its claims in. */
  lemma FreshBearerTokenAdmitted(jwt: Signer, lifetime: int, claims: Claims, t: int, t': int)
    requires MintThenVerify(jwt, lifetime)
    requires jwt.sign(claims, t).Some?
    requires t <= t' < t + lifetime
    ensures Authenticate(Some(BearerPrefix + jwt.sign(claims, t).value), jwt, t') == Next(claims)
  {
    ExtractBearer(jwt.sign(claims, t).value);
  }

  /** The same token sent bare is accepted too, unless it itself begins with `Bearer `. */
  lemma FreshBareTokenAdmitted(jwt: Signer, lifetime: int, claims: Claims, t: int, t': int)
    requires MintThenVerify(jwt, lifetime)
    requires jwt.sign(claims, t).Some? && jwt.sign(claims, t).value != ""
    requires !StartsWith(jwt.sign(claims, t).value, BearerPrefix)
    requires t <= t' < t + lifetime
    ensures Authenticate(Some(jwt.sign(claims, t).value), jwt, t') == Next(claims)
  {
  }

  /** Once a token's lifetime is over, the gate answers "Token expired". */
  lemma StaleTokenRejected(jwt: Signer, lifetime: int, claims: Claims, t: int, t': int)
    requires MintThenExpire(jwt, lifetime)
    requires jwt.sign(claims, t).Some?
    requires t + lifetime <= t'
    ensures Authenticate(Some(BearerPrefix + jwt.sign(claims, t).value), jwt, t') == Reject(Fail(401, ExpiredMessage))
  {
    ExtractBearer(jwt.sign(claims, t).value);
  }
}
