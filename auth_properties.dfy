/**
 * What the challenge-response protocol of src/routes/auth.js guarantees,
 * proved of the step functions that specify the `AuthRouter` methods: input
 * rejection without side effects, the overwrite on `/challenge`, lazy expiry
 * that looks like "never issued", the signature checked over exactly the
 * stored text, a bad signature that keeps the challenge for a retry, single
 * use, and the token flow through `/validate` and `/refresh`.
 */
module AuthProperties {
  import opened Wrappers
  import opened JsBuiltins
  import opened Http
  import opened Jwt
  import opened Hedera
  import opened ChallengeCache
  import opened Middleware
  import opened AuthRoutes

  /** A `/verify` body with all three fields present. */
  function Submission(accountId: string, signature: string, publicKey: string): VerifyRequest {
    VerifyRequest(Some(accountId), Some(signature), Some(publicKey))
  }

  // ---------------------------------------------------------------------------
  // Configuration
  // ---------------------------------------------------------------------------

  lemma ParseIntZero()
    ensures ParseInt("0") == Some(0)
  {
    assert DecimalString(0) == "0";
    ParseIntDecimal(0);
  }

  lemma ParseIntNegativeZero()
    ensures ParseInt("-0") == Some(0)
  {
    assert "-" + DecimalString(0) == "-0" by { assert DecimalString(0) == "0"; }
    ParseIntNegated(0);
  }

  lemma ParseIntEmpty()
    ensures ParseInt("") == None
  {
    assert TrimStart("") == "" && Unsigned("") == "";
    assert LeadingDigits(IntBody(""), IntRadix("")) == "";
  }

  // The next three lemmas only split the evaluation of the literal `0x10` into
  // steps small enough for the solver; one lemma doing all of it runs out of
  // resource.

  lemma HexLiteralSplits()
    ensures "0x10" == "0x" + "10" + ""
  {
  }

  lemma HexLiteralDigits()
    ensures AllDigits("10", 16) && DigitsValue("10", 16) == 16
  {
    assert "10"[..1] == "1";
    assert "1"[..0] == "";
  }

  lemma ParseIntHexLiteral()
    ensures ParseInt("0x" + "10" + "") == Some(DigitsValue("10", 16))
  {
    HexLiteralDigits();
    ParseIntHex("10", "");
  }

  /** `0x10` is read in radix 16. */
  lemma ParseIntHexPrefix()
    ensures ParseInt("0x10") == Some(16)
  {
    HexLiteralSplits();
    HexLiteralDigits();
    ParseIntHexLiteral();
  }

  /** An unset, empty, zero or non-numeric `CHALLENGE_EXPIRATION` gives the default of 300 seconds. */
  lemma ChallengeTtlDefaults()
    ensures ChallengeTtl(None) == 300
    ensures ChallengeTtl(Some("")) == 300
    ensures ChallengeTtl(Some("0")) == 300
    ensures ChallengeTtl(Some("-0")) == 300
    ensures ChallengeTtl(Some("five")) == 300
  {
    ParseIntNaN("undefined");
    ParseIntNaN("five");
    ParseIntZero();
    ParseIntNegativeZero();
    ParseIntEmpty();
  }

  /**
   * Any `CHALLENGE_EXPIRATION` whose first character is neither white space, a
   * sign nor a digit is `NaN` to `parseInt`, so the TTL is the default of 300.
   */
  lemma ChallengeTtlNonNumeric(s: string)
    requires |s| > 0 && !IsStrWhiteSpace(s[0])
    requires s[0] != '-' && s[0] != '+' && !IsDigit(s[0], 10)
    ensures ChallengeTtl(Some(s)) == 300
  {
    ParseIntNaN(s);
  }

  /** A positive decimal `CHALLENGE_EXPIRATION` is the TTL, in the store and in the response. */
  lemma ChallengeTtlReadsDecimal(n: nat)
    requires n > 0
    ensures ChallengeTtl(Some(DecimalString(n))) == n
  {
    ParseIntDecimal(n);
  }

  /**
   * `parseInt` is lenient: white space before the number and any text after
   * its last digit are ignored, so ` 60` and `600s` are 60 and 600 seconds.
   */
  lemma ChallengeTtlLenient(n: nat, space: string, tail: string)
    requires n > 0 && forall i | 0 <= i < |space| :: IsStrWhiteSpace(space[i])
    requires tail == "" || !IsDigit(tail[0], 10)
    ensures ChallengeTtl(Some(space + DecimalString(n) + tail)) == n
  {
    assert space + DecimalString(n) + tail == space + (DecimalString(n) + tail);
    ParseIntSkipsWhiteSpaceRun(space, DecimalString(n) + tail);
    ParseIntDecimalPrefix(n, tail);
  }

  /**
   * A `0x` prefix switches to hex: a non-zero run of hex digits, followed by
   * anything that is not a hex digit, is the TTL in seconds.
   */
  lemma ChallengeTtlHex(z: string, tail: string)
    requires |z| > 0 && AllDigits(z, 16) && DigitsValue(z, 16) != 0
    requires tail == "" || !IsDigit(tail[0], 16)
    ensures ChallengeTtl(Some("0x" + z + tail)) == DigitsValue(z, 16)
  {
    ParseIntHex(z, tail);
  }

  /** `0x10` is 16 seconds. */
  lemma ChallengeTtlHexExample()
    ensures ChallengeTtl(Some("0x10")) == 16
  {
    ParseIntHexPrefix();
  }

  // ---------------------------------------------------------------------------
  // POST /auth/challenge
  // ---------------------------------------------------------------------------

  /** A missing, empty or unparsable account id is a 400 and the store is untouched. */
  lemma ChallengeRejectsBadAccount(data: map<string, Entry>, env: Env, sdk: Sdk, body: ChallengeRequest,
                                   timestamp: nat, random36: string, now: int)
    requires !Truthy(body.accountId) || !ValidateAccountId(sdk, body.accountId.value)
    ensures var o := ChallengeStep(data, env, sdk, body, timestamp, random36, now);
      && o.response.status == 400 && !o.response.Success() && o.data == data
      && (!Truthy(body.accountId) ==>
            o.response.body == ValidationFailed([FieldError("accountId", "Account ID is required")]))
      && (Truthy(body.accountId) ==> o.response == Fail(400, InvalidAccountMessage))
  {
  }

  /**
   * A valid `/challenge` stores the generated text under the id with expiry
   * `now + ttl * 1000`, replacing any earlier entry, leaves every other key as
   * it was, and returns that text with `expiresIn` equal to the TTL.
   */
  lemma ChallengeStoresFreshText(data: map<string, Entry>, env: Env, sdk: Sdk, accountId: string,
                                 timestamp: nat, random36: string, now: int)
    requires accountId != "" && ValidateAccountId(sdk, accountId)
    ensures var o := ChallengeStep(data, env, sdk, ChallengeRequest(Some(accountId)), timestamp, random36, now);
      var ttl := ChallengeTtl(env.challengeExpiration);
      var text := GenerateChallenge(accountId, timestamp, random36);
      && o.response == Ok(ChallengeIssued(text, ttl))
      && accountId in o.data && o.data[accountId] == Entry(text, ExpiryFor(ttl, now))
      && o.data.Keys == data.Keys + {accountId}
      && (forall k :: k in data && k != accountId ==> o.data[k] == data[k])
  {
  }

  /**
   * The issued challenge reads back until exactly `now + ttl * 1000`. A
   * negative TTL (`parseInt("-300")` is kept) makes it stale at once, and an
   * expiry that lands on 0 makes it permanent.
   */
  lemma IssuedChallengeLiveForTtl(data: map<string, Entry>, env: Env, sdk: Sdk, accountId: string,
                                  timestamp: nat, random36: string, now: int, later: int)
    requires accountId != "" && ValidateAccountId(sdk, accountId)
    ensures var o := ChallengeStep(data, env, sdk, ChallengeRequest(Some(accountId)), timestamp, random36, now);
      var expiry := now + ChallengeTtl(env.challengeExpiration) * 1000;
      Lookup(o.data, accountId, later)
        == if expiry == 0 || later <= expiry
           then Some(GenerateChallenge(accountId, timestamp, random36)) else None
  {
    LookupAfterSet(data, accountId, GenerateChallenge(accountId, timestamp, random36),
                   ChallengeTtl(env.challengeExpiration), now, later);
  }

  /**
   * A second `/challenge` for the same id supersedes the first: whenever the
   * two calls read different clocks or draw different nonces, only the new
   * text is stored and the old one no longer reads back.
   */
  lemma SecondChallengeSupersedes(data: map<string, Entry>, env: Env, sdk: Sdk, accountId: string,
                                  ts1: nat, r1: string, t1: int, ts2: nat, r2: string, t2: int, later: int)
    requires accountId != "" && ValidateAccountId(sdk, accountId)
    requires ts1 != ts2 || Nonce(r1) != Nonce(r2)
    ensures var o1 := ChallengeStep(data, env, sdk, ChallengeRequest(Some(accountId)), ts1, r1, t1);
      var o2 := ChallengeStep(o1.data, env, sdk, ChallengeRequest(Some(accountId)), ts2, r2, t2);
      && o2.data[accountId].value == GenerateChallenge(accountId, ts2, r2)
      && Lookup(o2.data, accountId, later) != Some(GenerateChallenge(accountId, ts1, r1))
  {
    ChallengeInjectiveForAccount(accountId, ts1, r1, ts2, r2);
  }

  // ---------------------------------------------------------------------------
  // POST /auth/verify
  // ---------------------------------------------------------------------------

  /** A body missing any of the three fields is a 400 listing what is missing, and the store is untouched. */
  lemma VerifyRejectsIncompleteBody(data: map<string, Entry>, env: Env, sdk: Sdk, jwt: Signer,
                                    body: VerifyRequest, now: int)
    requires !(Truthy(body.accountId) && Truthy(body.signature) && Truthy(body.publicKey))
    ensures var o := VerifyStep(data, env, sdk, jwt, body, now);
      o.response == Response(400, ValidationFailed(VerifyErrors(body))) && VerifyErrors(body) != [] && o.data == data
  {
  }

  /**
   * Without a live challenge for the id, `/verify` answers 400 "not found or
   * expired", mints nothing, and neither the signature check nor the signer
   * has any say in the outcome.
   */
  lemma VerifyWithoutChallenge(data: map<string, Entry>, env: Env, sdk1: Sdk, jwt1: Signer,
                               sdk2: Sdk, jwt2: Signer, accountId: string, signature: string,
                               publicKey: string, now: int)
    requires accountId != "" && signature != "" && publicKey != ""
    requires Lookup(data, accountId, now).None?
    ensures var o := VerifyStep(data, env, sdk1, jwt1, Submission(accountId, signature, publicKey), now);
      && o.response == Fail(400, NotFoundMessage)
      && o.data == data - {accountId}
      && o == VerifyStep(data, env, sdk2, jwt2, Submission(accountId, signature, publicKey), now)
  {
  }

  /** An expired challenge is indistinguishable from one never issued. */
  lemma ExpiredLikeNeverIssued(data: map<string, Entry>, env: Env, sdk: Sdk, jwt: Signer,
                               body: VerifyRequest, now: int)
    requires Truthy(body.accountId) && Truthy(body.signature) && Truthy(body.publicKey)
    requires body.accountId.value in data && Expired(data[body.accountId.value], now)
    ensures VerifyStep(data, env, sdk, jwt, body, now) == VerifyStep(data - {body.accountId.value}, env, sdk, jwt, body, now)
  {
  }

  /**
   * With a live challenge, the signature is checked over exactly the stored
   * text: the answer is 401 precisely when `verifySignature` rejects that
   * text, and then the challenge stays where it was.
   */
  lemma VerifyChecksStoredText(data: map<string, Entry>, env: Env, sdk: Sdk, jwt: Signer,
                               accountId: string, signature: string, publicKey: string, now: int)
    requires accountId != "" && signature != "" && publicKey != ""
    requires Truthy(Lookup(data, accountId, now))
    ensures var o := VerifyStep(data, env, sdk, jwt, Submission(accountId, signature, publicKey), now);
      && (o.response.status == 401 <==> !VerifySignature(sdk, accountId, data[accountId].value, signature, publicKey))
      && (o.response.status == 401 ==> o.response == Fail(401, InvalidSignatureMessage) && o.data == data)
      && (o.response.status != 401 ==> o.data == data - {accountId})
  {
  }

  /**
   * A success burns only this account's challenge, and the token is the
   * signer's token for exactly `{ accountId, publicKey }`.
   */
  lemma VerifySuccessMintsClaims(data: map<string, Entry>, env: Env, sdk: Sdk, jwt: Signer,
                                 body: VerifyRequest, now: int)
    requires VerifyStep(data, env, sdk, jwt, body, now).response.Success()
    ensures var o := VerifyStep(data, env, sdk, jwt, body, now);
      && Truthy(body.accountId) && Truthy(body.publicKey)
      && body.accountId.value in data
      && jwt.sign(Claims(body.accountId.value, body.publicKey.value), now).Some?
      && o.response == Ok(TokenIssued(jwt.sign(Claims(body.accountId.value, body.publicKey.value), now).value,
                                      body.accountId.value, TokenExpiresIn(env)))
      && o.data == data - {body.accountId.value}
  {
  }

  /** Single use: once `/verify` has succeeded, every further `/verify` for the id is a 400. */
  lemma ChallengeSingleUse(data: map<string, Entry>, env: Env, sdk: Sdk, jwt: Signer, body: VerifyRequest,
                           now: int, sdk': Sdk, jwt': Signer, signature': string, publicKey': string, later: int)
    requires VerifyStep(data, env, sdk, jwt, body, now).response.Success()
    requires signature' != "" && publicKey' != ""
    ensures var o := VerifyStep(data, env, sdk, jwt, body, now);
      VerifyStep(o.data, env, sdk', jwt', Submission(body.accountId.value, signature', publicKey'), later).response
        == Fail(400, NotFoundMessage)
  {
    VerifySuccessMintsClaims(data, env, sdk, jwt, body, now);
  }

  /**
   * A bad signature is a 401 that keeps the challenge, so a correct
   * signature sent later, while the challenge is still live, succeeds.
   */
  lemma RetryAfterBadSignature(data: map<string, Entry>, env: Env, sdk: Sdk, jwt: Signer,
                               accountId: string, badSignature: string, goodSignature: string,
                               publicKey: string, t1: int, t2: int)
    requires accountId != "" && badSignature != "" && goodSignature != "" && publicKey != ""
    requires Truthy(Lookup(data, accountId, t1)) && Truthy(Lookup(data, accountId, t2))
    requires !VerifySignature(sdk, accountId, data[accountId].value, badSignature, publicKey)
    requires VerifySignature(sdk, accountId, data[accountId].value, goodSignature, publicKey)
    requires jwt.sign(Claims(accountId, publicKey), t2).Some?
    ensures var o1 := VerifyStep(data, env, sdk, jwt, Submission(accountId, badSignature, publicKey), t1);
      var o2 := VerifyStep(o1.data, env, sdk, jwt, Submission(accountId, goodSignature, publicKey), t2);
      && o1.response == Fail(401, InvalidSignatureMessage) && o1.data == data
      && o2.response == Ok(TokenIssued(jwt.sign(Claims(accountId, publicKey), t2).value, accountId, TokenExpiresIn(env)))
      && o2.data == data - {accountId}
  {
  }

  /**
   * The code deletes the challenge before signing the token, so a throwing
   * `jwt.sign` still burns it: a 500 with the challenge gone.
   */
  lemma SignFailureBurnsChallenge(data: map<string, Entry>, env: Env, sdk: Sdk, jwt: Signer,
                                  accountId: string, signature: string, publicKey: string, now: int)
    requires accountId != "" && signature != "" && publicKey != ""
    requires Truthy(Lookup(data, accountId, now))
    requires VerifySignature(sdk, accountId, data[accountId].value, signature, publicKey)
    requires jwt.sign(Claims(accountId, publicKey), now).None?
    ensures var o := VerifyStep(data, env, sdk, jwt, Submission(accountId, signature, publicKey), now);
      o.response == Fail(500, VerifyFailedMessage) && o.data == data - {accountId}
  {
  }

  // ---------------------------------------------------------------------------
  // GET /auth/validate and POST /auth/refresh
  // ---------------------------------------------------------------------------

  /** `/validate` succeeds exactly when the gate lets the request through, and echoes the gated user. */
  lemma ValidateEchoesGatedUser(authorization: Option<string>, jwt: Signer, now: int)
    ensures ValidateStep(authorization, jwt, now).Success() <==> Authenticate(authorization, jwt, now).Next?
    ensures Authenticate(authorization, jwt, now).Next? ==>
      var user := Authenticate(authorization, jwt, now).user;
      ValidateStep(authorization, jwt, now) == Ok(TokenValid(user.accountId, user.publicKey))
    ensures Authenticate(authorization, jwt, now).Reject? ==>
      ValidateStep(authorization, jwt, now).status == 401
  {
  }

  /**
   * `/refresh` re-signs the gated user's claims: while the new token is fresh,
   * `/validate` with it reports the same account and key as the request that
   * refreshed it.
   */
  lemma RefreshKeepsClaims(authorization: Option<string>, env: Env, jwt: Signer, lifetime: int,
                           t: int, t': int)
    requires MintThenVerify(jwt, lifetime)
    requires RefreshStep(authorization, env, jwt, t).Success()
    requires t <= t' < t + lifetime
    ensures var token := RefreshStep(authorization, env, jwt, t).body.token;
      ValidateStep(Some(BearerPrefix + token), jwt, t') == ValidateStep(authorization, jwt, t)
  {
    var user := Authenticate(authorization, jwt, t).user;
    FreshBearerTokenAdmitted(jwt, lifetime, Claims(user.accountId, user.publicKey), t, t');
  }

  // ---------------------------------------------------------------------------
  // The whole exchange
  // ---------------------------------------------------------------------------

  /**
   * Challenge, sign, verify, use: a challenge issued at `t0`, a signature the
   * key accepts over its text sent at `t1` within the TTL, and the token sent
   * to `/validate` at `t2` within its lifetime, report the account and key;
   * replaying the signature afterwards is a 400.
   */
  lemma EndToEnd(env: Env, sdk: Sdk, jwt: Signer, lifetime: int, data: map<string, Entry>,
                 accountId: string, timestamp: nat, random36: string, signature: string,
                 publicKey: string, t0: int, t1: int, t2: int)
    requires accountId != "" && signature != "" && publicKey != ""
    requires ValidateAccountId(sdk, accountId)
    requires ChallengeTtl(env.challengeExpiration) > 0 && 0 <= t0 <= t1
    requires t1 <= t0 + ChallengeTtl(env.challengeExpiration) * 1000
    requires VerifySignature(sdk, accountId, GenerateChallenge(accountId, timestamp, random36), signature, publicKey)
    requires MintThenVerify(jwt, lifetime) && jwt.sign(Claims(accountId, publicKey), t1).Some?
    requires t1 <= t2 < t1 + lifetime
    ensures var o0 := ChallengeStep(data, env, sdk, ChallengeRequest(Some(accountId)), timestamp, random36, t0);
      var o1 := VerifyStep(o0.data, env, sdk, jwt, Submission(accountId, signature, publicKey), t1);
      && o1.response.Success()
      && ValidateStep(Some(BearerPrefix + o1.response.body.token), jwt, t2) == Ok(TokenValid(accountId, publicKey))
      && VerifyStep(o1.data, env, sdk, jwt, Submission(accountId, signature, publicKey), t1).response
           == Fail(400, NotFoundMessage)
  {
    IssuedChallengeLiveForTtl(data, env, sdk, accountId, timestamp, random36, t0, t1);
    FreshBearerTokenAdmitted(jwt, lifetime, Claims(accountId, publicKey), t1, t2);
  }
}
