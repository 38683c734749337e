# hedera-auth-demo: challenge–response login, modelled in Dafny

The server lets an Unreal Engine client log in with a Hedera account. Logging in takes three steps:

1. The client asks `POST /auth/challenge` for a text to sign.
2. The client signs that text with the account's key and sends the signature to `POST /auth/verify`.
3. `/verify` answers with a JSON Web Token. The token is later presented to `GET /auth/validate` and `POST /auth/refresh` through an authentication middleware.

Challenges live in an in-memory `node-cache` store, keyed by account id. Each one has a time to live, and expiry is checked lazily on `get`.

This project models:

- the challenge store and the four handlers of `src/routes/auth.js`;
- the request gate of `src/middleware/auth.js`;
- the parts of `src/utils/hedera.js` the handlers depend on: the network choice, the challenge template, and the two total wrappers around the Hedera SDK;
- the CORS origin rule and the two fallbacks of `src/server.js`.

Each step is a Dafny function from the records before a request to the response and the records after it. The store and the router are also written as classes with methods, which are proved to agree with those functions. The protocol's guarantees are proved as lemmas about the functions.

Files and modules:

- `wrappers.dfy`: `Option`.
- `js_builtins.dfy`: the JavaScript built-ins the code uses, with ECMAScript semantics: truthiness and `||` defaults, `startsWith`, `substring`, `split` on one character with its inverse `join`, `parseInt` without a radix, and the decimal rendering of an integer.
- `node_buffer.dfy`: `Buffer.from(s, 'utf8')` with a strict decoder as its inverse, and Node's lenient `Buffer.from(s, 'hex')` over Latin-1 text with a lower-case encoder as its inverse.
- `http.dfy`: the JSON response shapes.
- `jwt.dfy`: `jsonwebtoken` as an oracle. A `Signer` value holds `sign` and `verify`. What the routes rely on from the library is stated as the hypotheses `MintThenVerify` and `MintThenExpire`: a freshly minted token decodes to its claims until its lifetime ends, and is reported expired afterwards. The library rounds `iat` down to whole seconds, so a token can be reported expired up to 999 ms before `t + JWT_EXPIRES_IN`. The real library therefore meets `MintThenVerify` only with a lifetime up to a second shorter than the one `MintThenExpire` uses. No lemma assumes both.
- `hedera.dfy`: `HederaService`, with the SDK as an oracle `Sdk` (`AccountId.fromString`, `PublicKey.fromString`, `publicKey.verify`, each of which may throw). It also holds `validateAccountId`, `verifySignature` and `generateChallenge`.
- `middleware.dfy`: `authMiddleware` over a `Request` object whose `user` field it fills.
- `challenge_cache.dfy`: the `node-cache` store. Each record holds a value and an absolute expiry in milliseconds, where 0 means never. `set` stamps a record with `now + stdTTL * 1000`. `get` drops a record whose expiry lies strictly in the past.
- `auth_routes.dfy`: the step functions `ChallengeStep`, `VerifyStep`, `ValidateStep` and `RefreshStep`, and the `AuthRouter` class.
- `auth_properties.dfy`: the protocol's properties and an end-to-end lemma.
- `server.dfy`: the `origin` callback, the 404 fallback and the error handler.

Inputs the code reads from the world are parameters of the model:

- the clock (`now`, in milliseconds);
- `Date.now()` and the base-36 rendering of `Math.random()` inside `generateChallenge`;
- the environment variables, where `None` means unset;
- the SDK and the JWT library, as oracles.

Two behaviours of the code are worth knowing:

- `/verify` deletes the challenge *before* it calls `jwt.sign`. A throwing `sign` therefore answers 500 after the challenge is gone. This is stated by `SignFailureBurnsChallenge`.
- `verifySignature` never looks at the account id, so nothing ties the key to the account. This is stated by `VerifySignatureIgnoresAccountId`.

## Model

| member | source | states |
|---|---|---|
| JsBuiltins.Substring | src/utils/hedera.js:69 | `substring(start, end)` clamps both indices into the string and swaps them when reversed: the slice between in-range indices, the rest of the string from `start` when `end` lies past the end (either order), and empty when both are at or below 0 |
| JsBuiltins.SubstringSymmetric | src/utils/hedera.js:69 | swapping the two indices of `substring` gives the same result |
| JsBuiltins.Split | src/server.js:13 | `split(',')` yields at least one part and no part contains the separator |
| JsBuiltins.JoinSplit | src/server.js:13 | joining the parts of a split with the separator gives back the original string |
| JsBuiltins.SplitJoin | src/server.js:13 | splitting a join of separator-free parts gives back exactly those parts |
| JsBuiltins.TrimStart | src/routes/auth.js:10 | the white space `parseInt` skips is a prefix of ECMAScript white space characters, and what remains starts with a non-space |
| JsBuiltins.LeadingDigits | src/routes/auth.js:10 | the longest prefix of radix digits: a prefix, all digits, followed by a non-digit or the end |
| JsBuiltins.ParseInt | src/routes/auth.js:10 | `parseInt` gives `NaN` exactly when no digit follows the optional white space, sign and `0x` prefix |
| JsBuiltins.DecimalString | src/utils/hedera.js:70 | the rendering of a timestamp is a non-empty string of decimal digits without a leading zero |
| JsBuiltins.DecimalValue | src/utils/hedera.js:70 | reading the rendered digits gives back the number |
| JsBuiltins.DecimalStringInjective | src/utils/hedera.js:70 | distinct timestamps render differently |
| JsBuiltins.ParseUnsigned | src/routes/auth.js:10 | after the sign, no number is read exactly when no digit of the chosen radix follows the `0x` prefix |
| JsBuiltins.ParseIntPlain | src/routes/auth.js:10 | an input starting with neither white space nor a sign is read as it stands |
| JsBuiltins.ParseUnsignedDecimal | src/routes/auth.js:10 | a positive rendered number followed by a non-digit, or a rendered number alone, is read back as that number (`0` followed by `x1` is hex, so it is excluded) |
| JsBuiltins.ParseIntDecimal | src/routes/auth.js:10 | `parseInt` reads back any rendered non-negative integer |
| JsBuiltins.ParseIntDecimalPrefix | src/routes/auth.js:10 | `parseInt` stops at the first non-digit after a positive decimal number |
| JsBuiltins.ParseIntMinusSign | src/routes/auth.js:10 | a leading `-` negates what `parseInt` reads from a rest that does not begin with white space or a sign (`-0x10` is -16, `-12abc` is -12; `- 5` is `NaN` although ` 5` is 5), and a rest that is `NaN` stays `NaN` |
| JsBuiltins.ParseIntNegated | src/routes/auth.js:10 | a `-` before a rendered non-negative integer gives its negation |
| JsBuiltins.ParseUnsignedHex | src/routes/auth.js:10 | after the sign, a `0x` prefix makes the following run of hex digits the magnitude |
| JsBuiltins.ParseIntHex | src/routes/auth.js:10 | `0x` followed by hex digits and then a non-hex character or the end is read in radix 16 |
| JsBuiltins.ParseIntSkipsWhiteSpace | src/routes/auth.js:10 | one leading white-space character does not change the result |
| JsBuiltins.TrimStartSkipsRun | src/routes/auth.js:10 | the white-space skip removes a whole leading run of white space, whatever its length |
| JsBuiltins.ParseIntSkipsWhiteSpaceRun | src/routes/auth.js:10 | any run of leading white space, of any length, does not change the result |
| JsBuiltins.ParseIntNaN | src/routes/auth.js:10 | a first character that is not white space, a sign or a digit gives `NaN` |
| NodeBuffer.HexDecode | src/utils/hedera.js:40 | `Buffer.from(hex)` never fails and yields at most one byte per two characters |
| NodeBuffer.HexEncode | src/utils/hedera.js:40 | the hex rendering has two hex digits per byte |
| NodeBuffer.HexDecodeEncodeAppend | src/utils/hedera.js:40 | decoding a hex rendering followed by anything yields the bytes, then the decoding of the rest |
| NodeBuffer.HexRoundTrip | src/utils/hedera.js:40 | hex decoding inverts hex encoding |
| NodeBuffer.HexDecodeIgnoresJunk | src/utils/hedera.js:40 | text after well-formed hex that does not start with a hex pair is dropped |
| NodeBuffer.Utf8Char | src/utils/hedera.js:39 | one scalar value encodes to 1–4 bytes, and to 1 byte, itself, exactly when it is ASCII |
| NodeBuffer.Utf8Encode | src/utils/hedera.js:39 | the UTF-8 encoding is between one and four bytes per character |
| NodeBuffer.Utf8Append | src/utils/hedera.js:39 | the encoding of a concatenation is the concatenation of the encodings |
| NodeBuffer.Utf8DecodeOneChar | src/utils/hedera.js:39 | the strict decoder reads the first encoded character back with its byte count |
| NodeBuffer.Utf8RoundTrip | src/utils/hedera.js:39 | strict decoding inverts `Buffer.from(s, 'utf8')` |
| NodeBuffer.Utf8Injective | src/utils/hedera.js:39 | distinct messages give distinct message bytes |
| Hedera.HederaService.constructor | src/utils/hedera.js:4-8 | the network is `HEDERA_NETWORK`, or `testnet` when that is unset or empty, and the client is built for it at construction |
| Hedera.HederaService.InitializeClient | src/utils/hedera.js:10-18 | the client is the one `SelectNetwork` picks for the configured name; only `client` changes |
| Hedera.SelectNetwork | src/utils/hedera.js:12-18 | only `mainnet` selects mainnet and only `previewnet` selects previewnet; SelectNetworkCases adds that every other name selects testnet |
| Hedera.SelectNetworkCases | src/utils/hedera.js:12-18 | `mainnet` selects mainnet, `previewnet` previewnet, and exactly every other name testnet |
| Hedera.DefaultNetworkIsTestnet | src/utils/hedera.js:5 | an unset or empty `HEDERA_NETWORK` selects testnet |
| Hedera.ValidateAccountId | src/utils/hedera.js:26-33 | true if and only if `AccountId.fromString` does not throw |
| Hedera.VerifySignature | src/utils/hedera.js:35-48 | a true verdict means the key parsed and accepted the UTF-8 bytes of the message with the hex-decoded signature; VerifySignatureTotal gives the converse and the `false` for every throw |
| Hedera.VerifySignatureTotal | src/utils/hedera.js:35-48 | an unparsable key gives false; true exactly when the parsed key returns true for the UTF-8 message bytes and the hex-decoded signature; every throw is false |
| Hedera.VerifySignatureIgnoresAccountId | src/utils/hedera.js:35-42 | the verdict does not depend on the account id |
| Hedera.VerifySignatureIgnoresHexJunk | src/utils/hedera.js:40-42 | a hex signature followed by text not starting with a hex pair verifies like the bare signature |
| Hedera.VerifiedBytesDetermineMessage | src/utils/hedera.js:39-42 | distinct challenge texts reach the key as distinct bytes |
| Hedera.Nonce | src/utils/hedera.js:69 | the nonce is at most 13 characters: characters 2..15 of a long rendering, everything after `0.` in a rendering of 15 characters or fewer, and empty for a rendering of 2 characters or fewer |
| Hedera.GenerateChallenge | src/utils/hedera.js:67-71 | the challenge text is never empty, and its length is the sum of the template's pieces |
| Hedera.ChallengeEmbeds | src/utils/hedera.js:70 | the text is the fixed prefix, then the id, `. Timestamp: `, the timestamp, `. Nonce: ` and the nonce, each at its fixed place |
| Hedera.ChallengeDistinctNonces | src/utils/hedera.js:70 | for a fixed id and timestamp, distinct nonces give distinct texts |
| Hedera.ChallengeDistinctTimestamps | src/utils/hedera.js:70 | for a fixed id and nonce, distinct timestamps give distinct texts |
| Hedera.ChallengeInjectiveForAccount | src/utils/hedera.js:68-70 | two challenges for one account differ whenever their timestamps or their nonces differ |
| Hedera.ChallengeDistinctAccounts | src/utils/hedera.js:70 | for a fixed timestamp and nonce, distinct ids give distinct texts |
| Middleware.ExtractToken | src/middleware/auth.js:14-16 | a header starting with `Bearer ` is that prefix followed by the token; any other header is the token itself |
| Middleware.RejectionMessage | src/middleware/auth.js:27-37 | "Token expired" exactly for `TokenExpiredError`, "Invalid token" for every other error |
| Middleware.Request.constructor | src/middleware/auth.js:5 | a request carries its `Authorization` header and has no user yet |
| Middleware.Authenticate | src/middleware/auth.js:5-38 | the gate passes exactly when a header is present and `jwt.verify` decodes its token, and every refusal is a failing 401; AdmitsExactlyDecoded and RejectionsClassified pin the claims and the messages |
| Middleware.AuthMiddleware | src/middleware/auth.js:3-39 | the outcome is the gate's decision; `req.user` becomes the decoded claims exactly when `next` is called, and is not touched otherwise |
| Middleware.ExtractBearer | src/middleware/auth.js:14-15 | for every token t, the header `Bearer ` + t yields t |
| Middleware.ExtractWholeHeader | src/middleware/auth.js:14-16 | `bearer x`, `Bearer` and `BEARER abc` are used whole |
| Middleware.MissingHeaderRejected | src/middleware/auth.js:7-12 | an absent or empty header is a 401 "No authorization header provided", whatever the verifier would say |
| Middleware.AdmitsExactlyDecoded | src/middleware/auth.js:18-25 | the gate passes exactly when the header is present and its token decodes, and the user is exactly the decoded `accountId` and `publicKey` |
| Middleware.RejectionsClassified | src/middleware/auth.js:26-38 | every refusal is a failing 401; "Token expired" if and only if the verifier threw `TokenExpiredError`; "Invalid token" for other errors |
| Middleware.FreshBearerTokenAdmitted | src/middleware/auth.js:14-25 | a token sent as `Bearer <token>` within its lifetime lets exactly its claims in |
| Middleware.FreshBareTokenAdmitted | src/middleware/auth.js:14-25 | the same token sent bare is admitted too, unless it itself starts with `Bearer ` |
| Middleware.StaleTokenRejected | src/middleware/auth.js:27-32 | after its lifetime the token is refused with "Token expired" |
| ChallengeCache.Lookup | src/routes/auth.js:70 | `get` returns a value exactly when the key has a record that is not stale, and then it is that record's value |
| ChallengeCache.AfterGet | src/routes/auth.js:70 | `get` removes only a stale record for its key and leaves every other record as it was |
| ChallengeCache.TtlCache.constructor | src/routes/auth.js:9-11 | a new store is empty and keeps its standard TTL |
| ChallengeCache.TtlCache.Set | src/routes/auth.js:36 | `set` replaces the key's record with the value and the expiry `now + stdTTL * 1000` (0 for no TTL), nothing else |
| ChallengeCache.TtlCache.Get | src/routes/auth.js:70 | `get` returns `Lookup` and leaves the records `AfterGet` gives |
| ChallengeCache.TtlCache.Del | src/routes/auth.js:92 | `del` removes the key's record and nothing else |
| ChallengeCache.LookupAfterSet | src/routes/auth.js:9-11 | with any non-zero TTL, a value set at `t0` reads back exactly while `t1 <= t0 + stdTTL * 1000`, and at every time when that expiry lands on 0 |
| ChallengeCache.SetLeavesOtherKeys | src/routes/auth.js:36 | setting one key changes what no other key reads |
| ChallengeCache.ExpiredStaysExpired | src/routes/auth.js:70 | a stale record stays stale |
| ChallengeCache.AfterGetInvisible | src/routes/auth.js:70 | the deletion inside `get` changes no later read of any key |
| ChallengeCache.DeleteIdempotent | src/routes/auth.js:92 | deleting twice is deleting once, and the key then reads as absent |
| AuthRoutes.ChallengeTtl | src/routes/auth.js:9-11 | the TTL is never 0; it is `parseInt(CHALLENGE_EXPIRATION)` when that is a non-zero number, and 300 otherwise |
| AuthRoutes.Required | src/routes/auth.js:14 | `notEmpty()` reports no error exactly when the field is a non-empty string |
| AuthRoutes.VerifyErrors | src/routes/auth.js:55-57 | no errors exactly when all three fields are present and non-empty; each field's error, with its message, is listed exactly when that field is missing or empty, and there is one error per such field |
| AuthRoutes.TokenExpiresIn | src/routes/auth.js:101-110 | `expiresIn` is `JWT_EXPIRES_IN` when it is set and non-empty, else `24h`, and never empty |
| AuthRoutes.ChallengeStep | src/routes/auth.js:13-52 | `/challenge` succeeds with 200 exactly when the id is present and parses, and otherwise answers 400 with the store untouched; a success adds exactly the id's key, stores the text it returns and reports the TTL; ChallengeRejectsBadAccount and ChallengeStoresFreshText give the messages and the other keys |
| AuthRoutes.VerifyStep | src/routes/auth.js:54-120 | `/verify` answers 200, 400, 401 or 500; it never adds or changes a record; any answer but 400 needs a complete body and a live challenge; a 401 keeps the id's record and a 200 or 500 has removed it; a success carries a token for that account; VerifyChecksStoredText, VerifySuccessMintsClaims and SignFailureBurnsChallenge give the rest |
| AuthRoutes.ValidateStep | src/routes/auth.js:122-131 | `/validate` succeeds with 200 exactly when the gate passes, and answers 401 otherwise; ValidateEchoesGatedUser gives the echoed claims |
| AuthRoutes.RefreshStep | src/routes/auth.js:133-160 | `/refresh` answers 200, 401 or 500, with 401 exactly when the gate refuses; a success carries a new token and the `expiresIn` setting; RefreshKeepsClaims gives the claims it carries |
| AuthRoutes.AuthRouter.constructor | src/routes/auth.js:9-11 | the store starts empty with the same standard TTL the responses report (`ChallengeTtl`) |
| AuthRoutes.AuthRouter.Challenge | src/routes/auth.js:13-52 | the `/challenge` handler's response and new store are those of `ChallengeStep` |
| AuthRoutes.AuthRouter.Verify | src/routes/auth.js:54-120 | the `/verify` handler's response and new store are those of `VerifyStep` |
| AuthRoutes.AuthRouter.Validate | src/routes/auth.js:122-131 | the `/validate` response is `ValidateStep`'s; `req.user` becomes the gate's claims when it passes and is untouched otherwise; the challenge store is unchanged |
| AuthRoutes.AuthRouter.Refresh | src/routes/auth.js:133-160 | the `/refresh` response is `RefreshStep`'s; `req.user` becomes the gate's claims when it passes and is untouched otherwise; the challenge store is unchanged |
| AuthProperties.ChallengeTtlDefaults | src/routes/auth.js:10 | an unset, empty, `0` or `-0` `CHALLENGE_EXPIRATION` gives 300, and so does the non-numeric example `five` |
| AuthProperties.ChallengeTtlNonNumeric | src/routes/auth.js:10 | any `CHALLENGE_EXPIRATION` whose first character is not white space, a sign or a digit gives 300 |
| AuthProperties.ChallengeTtlReadsDecimal | src/routes/auth.js:10 | a positive decimal `CHALLENGE_EXPIRATION` is the TTL |
| AuthProperties.ChallengeTtlLenient | src/routes/auth.js:10 | any run of white space before a positive number and any text after its last digit are ignored (` 60` is 60, `600s` is 600) |
| AuthProperties.ChallengeTtlHex | src/routes/auth.js:10 | after `0x`, a non-zero run of hex digits followed by a non-hex character or the end is the TTL, read in radix 16 |
| AuthProperties.ChallengeTtlHexExample | src/routes/auth.js:10 | `0x10` gives a TTL of 16 |
| AuthProperties.ChallengeRejectsBadAccount | src/routes/auth.js:14-32 | a missing, empty or unparsable account id is a failing 400 with the matching message, and the store is unchanged |
| AuthProperties.ChallengeStoresFreshText | src/routes/auth.js:34-44 | a valid request stores the generated text under the id with expiry `now + ttl * 1000`, overwrites any earlier record, leaves every other key unchanged, and returns the text with `expiresIn` = ttl |
| AuthProperties.IssuedChallengeLiveForTtl | src/routes/auth.js:9-11 | for every TTL `parseInt` yields, negative ones included, the issued challenge reads back exactly until `now + ttl * 1000`, and forever when that expiry is 0 |
| AuthProperties.SecondChallengeSupersedes | src/routes/auth.js:34-36 | a second challenge for the same id, at a different clock reading or with a different nonce, replaces the first, which no longer reads back |
| AuthProperties.VerifyRejectsIncompleteBody | src/routes/auth.js:54-66 | a body missing any field is a 400 listing the missing fields, and the store is unchanged |
| AuthProperties.VerifyWithoutChallenge | src/routes/auth.js:70-76 | with no live challenge the answer is 400 "Challenge not found or expired…", no token is minted, and the SDK and signer cannot change the outcome |
| AuthProperties.ExpiredLikeNeverIssued | src/routes/auth.js:70-76 | an expired challenge gives the same outcome as no challenge at all |
| AuthProperties.VerifyChecksStoredText | src/routes/auth.js:78-92 | with a live challenge, the answer is 401 exactly when the signature fails over the stored text; then the challenge is kept, and otherwise it is deleted |
| AuthProperties.VerifySuccessMintsClaims | src/routes/auth.js:92-112 | a success deletes only that account's challenge and returns the signer's token for exactly `{accountId, publicKey}` |
| AuthProperties.ChallengeSingleUse | src/routes/auth.js:92 | after a success, every further `/verify` for the account is a 400 |
| AuthProperties.RetryAfterBadSignature | src/routes/auth.js:85-92 | a bad signature is a 401 that keeps the challenge, so a good signature later within the TTL succeeds |
| AuthProperties.SignFailureBurnsChallenge | src/routes/auth.js:92-119 | a throwing `jwt.sign` after a good signature is a 500 "Failed to verify signature" with the challenge already deleted |
| AuthProperties.ValidateEchoesGatedUser | src/routes/auth.js:122-131 | `/validate` succeeds exactly when the gate passes, and echoes the gated user's account and key |
| AuthProperties.RefreshKeepsClaims | src/routes/auth.js:133-144 | the refreshed token, used within its lifetime, validates to the same account and key as the request that refreshed it |
| AuthProperties.EndToEnd | src/routes/auth.js:34-112 | challenge, then a good signature within the TTL, then validate within the token's lifetime reports the account and key; replaying the signature is a 400 |
| Server.AllowedOrigins | src/server.js:12-14 | an unset or empty `CORS_ORIGINS` gives `['*']`; otherwise the comma-free entries whose join is the variable |
| Server.OriginAllowed | src/server.js:16 | a wildcard entry admits every origin; without one, a non-empty origin is admitted exactly when it is an entry |
| Server.CorsOrigin | src/server.js:11-21 | the callback allows exactly when the rule admits the origin under the parsed `CORS_ORIGINS`, and refuses with an error carrying no status and the message `Not allowed by CORS`; ListedOriginsExactly and CommaOriginNeedsWildcard state it for every list |
| Server.NotFound | src/server.js:67-72 | an unmatched route is a failing 404 with error `Endpoint not found` |
| Server.ErrorHandler | src/server.js:74-80 | the error handler always answers with a failure |
| Server.UnsetCorsAllowsEveryOrigin | src/server.js:12-17 | with `CORS_ORIGINS` unset or empty, every origin is allowed |
| Server.MissingOriginAllowed | src/server.js:16 | a request without an origin is always allowed |
| Server.ListedOriginsExactly | src/server.js:12-20 | for a non-empty comma-joined list, a non-empty origin is allowed if and only if the list holds `*` or that origin |
| Server.SplitDoesNotTrim | src/server.js:13-20 | with `a, b` the origin `b` is refused and ` b` is allowed |
| Server.CommaOriginNeedsWildcard | src/server.js:13-20 | an origin containing a comma is allowed if and only if the list holds `*` |
| Server.CorsRejectionAnswers500 | src/server.js:74-80 | a refused origin reaches the error handler as a 500 "Not allowed by CORS" |
| Server.ErrorHandlerDefaults | src/server.js:76-79 | the status is `err.status` when set and non-zero, else 500; the message is `err.message` when non-empty, else "Internal server error" |

## Left out

- Express routing, body parsing and `express-validator` internals are not modelled. A handler receives its body fields as optional strings, so JSON bodies with non-string fields are not modelled.
- The 500 "Failed to generate challenge" branch of `/challenge` is unreachable in the model. Nothing in that `try` block throws on string inputs.
- Concurrency is not modelled. `/verify` does a `get`, then an `await`, then a `del`, which is not an atomic take. The model is sequential and says nothing about racing requests.
- The cryptography of `jsonwebtoken` and of `@hashgraph/sdk` is not modelled. Both are oracles, and the ms-style lifetime string of `JWT_EXPIRES_IN` becomes a plain `lifetime`.
- `getAccountInfo`, the `/user` routes, the `/` and `/health` routes, logging and `app.listen` are not modelled. They are network I/O, output, or constant JSON.
- NodeBuffer.HexDecode: modelled for Latin-1 text only (characters up to U+00FF). Node's decoder reads UTF-16 code units, which a Dafny string of Unicode scalar values does not represent. Beyond Latin-1, Node may decode a character through its code unit, and an astral character is two code units there. So `VerifySignatureIgnoresHexJunk` holds of the modelled decoder, not of every junk string Node receives.
- Hedera.HederaService.InitializeClient: does not model a throwing `Client.forMainnet()`/`forPreviewnet()`/`forTestnet()` and its re-throw (src/utils/hedera.js:20-23). A client is always built, because the SDK's client construction is not part of this model.
- The `checkperiod` sweep of `node-cache` is not modelled. It only removes records that `get` would already treat as absent.
- ChallengeTtl: uses unbounded integers, so does not model `parseInt` rounding digit strings past 2^53 or giving `Infinity`.
- DecimalString: does not model exponent notation for timestamps of 10^21 and above.
- Utf8Encode: encodes only Unicode scalar values, so does not model how lone surrogates in a string are encoded.
- `Date.now()`, `Math.random()` and the request clock are parameters, and so are the environment variables.
- The shape of a decoded token is not modelled. It is always the `{ accountId, publicKey, iat, exp }` object this server signs; tokens with other payloads are not modelled.
