/**
 * The `jsonwebtoken` library, configured with the server's `JWT_SECRET` and
 * `JWT_EXPIRES_IN`, as an oracle: `sign` may throw (an unset secret, an
 * unreadable lifetime), `verify` either decodes the payload or throws one of
 * the library's three named errors. Its cryptography (RFC 7519, RFC 7518
 * section 3.2) is not modelled; what the routes rely on is stated as the
 * predicates `MintThenVerify` and `MintThenExpire`.
 */
module Jwt {
  import opened Wrappers

  /** The identity claims the server puts into every token. */
  datatype Claims = Claims(accountId: string, publicKey: string)

  /** A decoded token: the claims plus the `iat` and `exp` the library adds. */
  datatype Payload = Payload(accountId: string, publicKey: string, iat: int, exp: int)

  /** The `name` of an error thrown by `jwt.verify`. */
  datatype JwtError = TokenExpiredError | JsonWebTokenError | NotBeforeError

  datatype Verified = Decoded(payload: Payload) | Thrown(error: JwtError)

  /**
   * `jwt.sign(claims, JWT_SECRET, { expiresIn })` at a clock reading (`None`
   * when it throws) and `jwt.verify(token, JWT_SECRET)` at a clock reading.
   */
  datatype Signer = Signer(sign: (Claims, int) -> Option<string>, verify: (string, int) -> Verified)

  /** The identity part of a payload, which is what the server copies into `req.user`. */
  function ClaimsOf(p: Payload): Claims {
    Claims(p.accountId, p.publicKey)
  }

  /**
   * A token minted at `t` decodes to its claims at any `t'` in `[t, t + lifetime)`.
   * The library stamps `iat` in whole seconds, rounding `t` down, so the real
   * library meets this only with a `lifetime` up to one second shorter than
   * the one `MintThenExpire` holds with; no lemma assumes both.
   */
  ghost predicate MintThenVerify(jwt: Signer, lifetime: int) {
    forall c: Claims, t: int, t': int | t <= t' < t + lifetime && jwt.sign(c, t).Some? ::
      jwt.verify(jwt.sign(c, t).value, t').Decoded?
      && ClaimsOf(jwt.verify(jwt.sign(c, t).value, t').payload) == c
  }

  /** A token minted at `t` is reported expired from `t + lifetime` on. */
  ghost predicate MintThenExpire(jwt: Signer, lifetime: int) {
    forall c: Claims, t: int, t': int | t + lifetime <= t' && jwt.sign(c, t).Some? ::
      jwt.verify(jwt.sign(c, t).value, t') == Thrown(TokenExpiredError)
  }
}
