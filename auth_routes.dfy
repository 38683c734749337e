/**
 * The four handlers of src/routes/auth.js over the shared challenge store.
 * Each handler is specified by a step function from the records before the
 * request to the response and the records after it; the methods of
 * `AuthRouter` run the handlers' early-return sequences against a `TtlCache`
 * object and are proved to agree with those functions.
 */
module AuthRoutes {
  import opened Wrappers
  import opened JsBuiltins
  import opened Http
  import opened Jwt
  import opened Hedera
  import opened ChallengeCache
  import opened Middleware

  /** The environment variables the routes read. */
  datatype Env = Env(challengeExpiration: Option<string>, jwtExpiresIn: Option<string>)

  /** The body fields `/challenge` reads (`undefined` when absent). */
  datatype ChallengeRequest = ChallengeRequest(accountId: Option<string>)

  /** The body fields `/verify` reads. */
  datatype VerifyRequest = VerifyRequest(accountId: Option<string>, signature: Option<string>, publicKey: Option<string>)

  /** A response together with the records of the store after the request. */
  datatype Outcome = Outcome(response: Response, data: map<string, Entry>)

  const InvalidAccountMessage: string := "Invalid Hedera account ID format"
  const NotFoundMessage: string := "Challenge not found or expired. Please request a new challenge."
  const InvalidSignatureMessage: string := "Invalid signature"
  const VerifyFailedMessage: string := "Failed to verify signature"
  const RefreshFailedMessage: string := "Failed to refresh token"

  /**
   * `parseInt(process.env.CHALLENGE_EXPIRATION) || 300`: an unset variable
   * reads as the string "undefined", and `NaN` and 0 both fall back to 300.
   */
  function ChallengeTtl(challengeExpiration: Option<string>): (ttl: int)
    ensures ttl != 0
    ensures ParseInt(challengeExpiration.GetOr("undefined")) !in {None, Some(0)}
            ==> Some(ttl) == ParseInt(challengeExpiration.GetOr("undefined"))
    ensures ParseInt(challengeExpiration.GetOr("undefined")) in {None, Some(0)} ==> ttl == 300
  {
    match ParseInt(challengeExpiration.GetOr("undefined"))
    case Some(n) => if n != 0 then n else 300
    case None => 300
  }

  /** `process.env.JWT_EXPIRES_IN || '24h'`, echoed in the token responses. */
  function TokenExpiresIn(env: Env): (expiresIn: string)
    ensures expiresIn != ""
    ensures Truthy(env.jwtExpiresIn) ==> expiresIn == env.jwtExpiresIn.value
    ensures !Truthy(env.jwtExpiresIn) ==> expiresIn == "24h"
  {
    OrElse(env.jwtExpiresIn, "24h")
  }

  /** express-validator's `notEmpty()` on one body field: an error unless the field is a non-empty string. */
  function Required(field: Option<string>, path: string, msg: string): (errors: seq<FieldError>)
    ensures errors == [] <==> Truthy(field)
  {
    if Truthy(field) then [] else [FieldError(path, msg)]
  }

  function ChallengeErrors(body: ChallengeRequest): seq<FieldError> {
    Required(body.accountId, "accountId", "Account ID is required")
  }

  /** 1 for a field `notEmpty()` rejects, 0 otherwise. */
  function Missing(field: Option<string>): nat {
    if Truthy(field) then 0 else 1
  }

  /** The three checks of `/verify`, reported in declaration order. */
  function VerifyErrors(body: VerifyRequest): (errors: seq<FieldError>)
    ensures errors == [] <==> Truthy(body.accountId) && Truthy(body.signature) && Truthy(body.publicKey)
    ensures FieldError("accountId", "Account ID is required") in errors <==> !Truthy(body.accountId)
    ensures FieldError("signature", "Signature is required") in errors <==> !Truthy(body.signature)
    ensures FieldError("publicKey", "Public key is required") in errors <==> !Truthy(body.publicKey)
    ensures |errors| == Missing(body.accountId) + Missing(body.signature) + Missing(body.publicKey)
  {
    Required(body.accountId, "accountId", "Account ID is required")
    + Required(body.signature, "signature", "Signature is required")
    + Required(body.publicKey, "publicKey", "Public key is required")
  }

  /**
   * POST /auth/challenge: reject a missing or malformed account id; otherwise
   * store a fresh challenge under the id and return it with its TTL.
   */
  function ChallengeStep(data: map<string, Entry>, env: Env, sdk: Sdk, body: ChallengeRequest,
                         timestamp: nat, random36: string, now: int): (o: Outcome)
    ensures o.response.Success() <==> Truthy(body.accountId) && ValidateAccountId(sdk, body.accountId.value)
    ensures o.response.status == if o.response.Success() then 200 else 400
    ensures !o.response.Success() ==> o.data == data
    ensures o.response.Success() ==>
      && o.data.Keys == data.Keys + {body.accountId.value}
      && o.response.body.ChallengeIssued?
      && o.data[body.accountId.value].value == o.response.body.challenge
      && o.response.body.expiresInSeconds == ChallengeTtl(env.challengeExpiration)
  {
    var errors := ChallengeErrors(body);
    if errors != [] then Outcome(Response(400, ValidationFailed(errors)), data)
    else
      var accountId := body.accountId.value;
      if !ValidateAccountId(sdk, accountId) then Outcome(Fail(400, InvalidAccountMessage), data)
      else
        var ttl := ChallengeTtl(env.challengeExpiration);
        var challenge := GenerateChallenge(accountId, timestamp, random36);
        Outcome(Ok(ChallengeIssued(challenge, ttl)), data[accountId := Entry(challenge, ExpiryFor(ttl, now))])
  }

  /**
   * POST /auth/verify: look the challenge up (lazily expiring it), check the
   * signature over its text, and only then delete it and sign a token for
   * `{ accountId, publicKey }`. A throwing `jwt.sign` gives 500 after the
   * deletion.
   */
  function VerifyStep(data: map<string, Entry>, env: Env, sdk: Sdk, jwt: Signer,
                      body: VerifyRequest, now: int): (o: Outcome)
    ensures o.response.status in {200, 400, 401, 500}
    ensures o.response.Success() <==> o.response.status == 200
    ensures forall k :: k in o.data ==> k in data && o.data[k] == data[k]
    ensures o.response.status != 400 ==> VerifyErrors(body) == [] && Truthy(Lookup(data, body.accountId.value, now))
    ensures o.response.status == 401 ==> body.accountId.value in o.data
    ensures o.response.status in {200, 500} ==> body.accountId.value !in o.data
    ensures o.response.Success() ==>
      o.response.body.TokenIssued? && o.response.body.accountId == body.accountId.value
      && o.response.body.expiresIn == TokenExpiresIn(env)
  {
    var errors := VerifyErrors(body);
    if errors != [] then Outcome(Response(400, ValidationFailed(errors)), data)
    else
      var accountId, signature, publicKey := body.accountId.value, body.signature.value, body.publicKey.value;
      var challenge := Lookup(data, accountId, now);
      var looked := AfterGet(data, accountId, now);
      if !Truthy(challenge) then Outcome(Fail(400, NotFoundMessage), looked)
      else if !VerifySignature(sdk, accountId, challenge.value, signature, publicKey) then
        Outcome(Fail(401, InvalidSignatureMessage), looked)
      else
        var consumed := looked - {accountId};
        match jwt.sign(Claims(accountId, publicKey), now)
        case None => Outcome(Fail(500, VerifyFailedMessage), consumed)
        case Some(token) => Outcome(Ok(TokenIssued(token, accountId, TokenExpiresIn(env))), consumed)
  }

  /** GET /auth/validate behind the gate: echo the gated user. */
  function ValidateStep(authorization: Option<string>, jwt: Signer, now: int): (r: Response)
    ensures r.Success() <==> Authenticate(authorization, jwt, now).Next?
    ensures r.status == if r.Success() then 200 else 401
  {
    match Authenticate(authorization, jwt, now)
    case Reject(response) => response
    case Next(user) => Ok(TokenValid(user.accountId, user.publicKey))
  }

  /** POST /auth/refresh behind the gate: sign a new token for the gated user's claims. */
  function RefreshStep(authorization: Option<string>, env: Env, jwt: Signer, now: int): (r: Response)
    ensures r.status in {200, 401, 500}
    ensures r.Success() <==> r.status == 200
    ensures r.status == 401 <==> Authenticate(authorization, jwt, now).Reject?
    ensures r.Success() ==> r.body.TokenRefreshed? && r.body.expiresIn == TokenExpiresIn(env)
  {
    match Authenticate(authorization, jwt, now)
    case Reject(response) => response
    case Next(user) =>
      match jwt.sign(Claims(user.accountId, user.publicKey), now)
      case None => Fail(500, RefreshFailedMessage)
      case Some(token) => Ok(TokenRefreshed(token, TokenExpiresIn(env)))
  }

  /** The router: the module-level challenge store, the Hedera service, the JWT library and the environment. */
  class AuthRouter {
    const cache: TtlCache
    const hedera: HederaService
    const jwt: Signer
    const env: Env

    /** The store's standard TTL is the same `parseInt(...) || 300` the responses report. */
    ghost predicate Valid() {
      cache.stdTTL == ChallengeTtl(env.challengeExpiration)
    }

    constructor (env: Env, hedera: HederaService, jwt: Signer)
      ensures Valid() && fresh(cache) && cache.data == map[]
      ensures this.env == env && this.hedera == hedera && this.jwt == jwt
    {
      this.env := env;
      this.hedera := hedera;
      this.jwt := jwt;
      cache := new TtlCache(ChallengeTtl(env.challengeExpiration));
    }

    method Challenge(body: ChallengeRequest, timestamp: nat, random36: string, now: int)
      returns (response: Response)
      requires Valid()
      modifies cache
      ensures Outcome(response, cache.data)
           == ChallengeStep(old(cache.data), env, hedera.sdk, body, timestamp, random36, now)
    {
      var errors := ChallengeErrors(body);
      if errors != [] {
        return Response(400, ValidationFailed(errors));
      }
      var accountId := body.accountId.value;
      if !ValidateAccountId(hedera.sdk, accountId) {
        return Fail(400, InvalidAccountMessage);
      }
      var challenge := GenerateChallenge(accountId, timestamp, random36);
      cache.Set(accountId, challenge, now);
      return Ok(ChallengeIssued(challenge, ChallengeTtl(env.challengeExpiration)));
    }

    method Verify(body: VerifyRequest, now: int) returns (response: Response)
      modifies cache
      ensures Outcome(response, cache.data) == VerifyStep(old(cache.data), env, hedera.sdk, jwt, body, now)
    {
      var errors := VerifyErrors(body);
      if errors != [] {
        return Response(400, ValidationFailed(errors));
      }
      var accountId, signature, publicKey := body.accountId.value, body.signature.value, body.publicKey.value;
      var challenge := cache.Get(accountId, now);
      if !Truthy(challenge) {
        return Fail(400, NotFoundMessage);
      }
      var isValid := VerifySignature(hedera.sdk, accountId, challenge.value, signature, publicKey);
      if !isValid {
        return Fail(401, InvalidSignatureMessage);
      }
      cache.Del(accountId);
      var token := jwt.sign(Claims(accountId, publicKey), now);
      if token.None? {
        return Fail(500, VerifyFailedMessage);
      }
      return Ok(TokenIssued(token.value, accountId, TokenExpiresIn(env)));
    }

    method Validate(req: Request, now: int) returns (response: Response)
      modifies req
      ensures response == ValidateStep(req.authorization, jwt, now)
      ensures var gate := Authenticate(req.authorization, jwt, now);
        req.user == if gate.Next? then Some(gate.user) else old(req.user)
      ensures unchanged(cache)
    {
      var gate := AuthMiddleware(req, jwt, now);
      if gate.Reject? {
        return gate.response;
      }
      return Ok(TokenValid(req.user.value.accountId, req.user.value.publicKey));
    }

    method Refresh(req: Request, now: int) returns (response: Response)
      modifies req
      ensures response == RefreshStep(req.authorization, env, jwt, now)
      ensures var gate := Authenticate(req.authorization, jwt, now);
        req.user == if gate.Next? then Some(gate.user) else old(req.user)
      ensures unchanged(cache)
    {
      var gate := AuthMiddleware(req, jwt, now);
      if gate.Reject? {
        return gate.response;
      }
      var token := jwt.sign(Claims(req.user.value.accountId, req.user.value.publicKey), now);
      if token.None? {
        return Fail(500, RefreshFailedMessage);
      }
      return Ok(TokenRefreshed(token.value, TokenExpiresIn(env)));
    }
  }
}
