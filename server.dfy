/**
 * The two parts of src/server.js that decide a response: the `origin` rule
 * handed to the `cors` middleware, and the two fallbacks mounted after the
 * routers (the 404 for an unmatched route, and the error handler that turns
 * an error passed to `next` into a JSON failure).
 */
module Server {
  import opened Wrappers
  import opened JsBuiltins
  import opened Http

  const Wildcard: string := "*"
  const CorsRejectedMessage: string := "Not allowed by CORS"
  const NotFoundMessage: string := "Endpoint not found"
  const InternalErrorMessage: string := "Internal server error"

  /** An error reaching the error handler: its `status` and `message` properties, when set. */
  datatype HttpError = HttpError(status: Option<int>, message: Option<string>)

  /** What the `origin` callback reports: `callback(null, true)` or `callback(new Error(...))`. */
  datatype CorsDecision = Allow | Deny(error: HttpError)

  /**
   * The list the rule consults: `CORS_ORIGINS` split on commas, untrimmed, or
   * `['*']` when the variable is unset or empty.
   */
  function AllowedOrigins(corsOrigins: Option<string>): (allowed: seq<string>)
    ensures |allowed| >= 1
    ensures forall i :: 0 <= i < |allowed| ==> ',' !in allowed[i]
    ensures !Truthy(corsOrigins) ==> allowed == [Wildcard]
    ensures Truthy(corsOrigins) ==> Join(allowed, ',') == corsOrigins.value
  {
    if Truthy(corsOrigins) then
      JoinSplit(corsOrigins.value, ',');
      Split(corsOrigins.value, ',')
    else
      [Wildcard]
  }

  /** The test of the callback: a wildcard entry, a missing or empty origin, or an entry equal to it. */
  predicate OriginAllowed(allowed: seq<string>, origin: Option<string>)
    ensures Wildcard in allowed ==> OriginAllowed(allowed, origin)
    ensures Truthy(origin) && Wildcard !in allowed ==> (OriginAllowed(allowed, origin) <==> origin.value in allowed)
  {
    Wildcard in allowed || !Truthy(origin) || origin.value in allowed
  }

  /** `corsOptions.origin(origin, callback)` under a given `CORS_ORIGINS`. */
  function CorsOrigin(corsOrigins: Option<string>, origin: Option<string>): (decision: CorsDecision)
    ensures decision == Allow <==> OriginAllowed(AllowedOrigins(corsOrigins), origin)
    ensures decision.Deny? ==> decision.error == HttpError(None, Some(CorsRejectedMessage))
  {
    if OriginAllowed(AllowedOrigins(corsOrigins), origin) then Allow
    else Deny(HttpError(None, Some(CorsRejectedMessage)))
  }

  /** The response for a request no route matched. */
  function NotFound(): (r: Response)
    ensures r.status == 404 && !r.Success()
    ensures r.body == Failure("Endpoint not found")
  {
    Fail(404, NotFoundMessage)
  }

  /**
   * The error handler: `err.status || 500` and `err.message || 'Internal
   * server error'`, so a status of 0 and an empty message count as unset.
   */
  function ErrorHandler(err: HttpError): (r: Response)
    ensures !r.Success()
  {
    var status := if err.status.Some? && err.status.value != 0 then err.status.value else 500;
    Fail(status, OrElse(err.message, InternalErrorMessage))
  }

  // ---------------------------------------------------------------------------
  // Properties of the origin rule and the fallbacks
  // ---------------------------------------------------------------------------

  /** With `CORS_ORIGINS` unset or empty, every origin is allowed. */
  lemma UnsetCorsAllowsEveryOrigin(corsOrigins: Option<string>, origin: Option<string>)
    requires !Truthy(corsOrigins)
    ensures CorsOrigin(corsOrigins, origin) == Allow
  {
  }

  /** A request without an `Origin` header (or with an empty one) is always allowed. */
  lemma MissingOriginAllowed(corsOrigins: Option<string>, origin: Option<string>)
    requires !Truthy(origin)
    ensures CorsOrigin(corsOrigins, origin) == Allow
  {
  }

  /**
   * When `CORS_ORIGINS` is the comma-joined list of comma-free entries, an
   * origin is allowed exactly when the list holds the wildcard or that very
   * origin.
   */
  lemma ListedOriginsExactly(entries: seq<string>, origin: string)
    requires |entries| >= 1
    requires forall i :: 0 <= i < |entries| ==> ',' !in entries[i]
    requires Join(entries, ',') != "" && origin != ""
    ensures CorsOrigin(Some(Join(entries, ',')), Some(origin)) == Allow
        <==> Wildcard in entries || origin in entries
  {
    var s := Join(entries, ',');
    assert AllowedOrigins(Some(s)) == entries by {
      assert Truthy(Some(s));
      SplitJoin(entries, ',');
    }
  }

  /** The split does not trim: with `"a, b"` the origin `b` is refused and ` b` is allowed. */
  lemma SplitDoesNotTrim()
    ensures CorsOrigin(Some("a, b"), Some("b")).Deny?
    ensures CorsOrigin(Some("a, b"), Some(" b")) == Allow
  {
    var entries := ["a", " b"];
    assert Join(entries, ',') == "a, b" by {
      assert entries[1..] == [" b"];
    }
    ListedOriginsExactly(entries, "b");
    ListedOriginsExactly(entries, " b");
  }

  /** A non-empty origin containing a comma can only get through the wildcard. */
  lemma CommaOriginNeedsWildcard(corsOrigins: Option<string>, origin: string)
    requires ',' in origin
    ensures CorsOrigin(corsOrigins, Some(origin)) == Allow <==> Wildcard in AllowedOrigins(corsOrigins)
  {
  }

  /** A refused origin ends in the error handler as a 500 carrying the CORS message. */
  lemma CorsRejectionAnswers500(corsOrigins: Option<string>, origin: Option<string>)
    requires CorsOrigin(corsOrigins, origin).Deny?
    ensures ErrorHandler(CorsOrigin(corsOrigins, origin).error) == Fail(500, CorsRejectedMessage)
  {
  }

  /** The handler keeps a set, non-zero status and a non-empty message, and substitutes each otherwise. */
  lemma ErrorHandlerDefaults(err: HttpError)
    ensures err.status.Some? && err.status.value != 0 ==> ErrorHandler(err).status == err.status.value
    ensures err.status.None? || err.status == Some(0) ==> ErrorHandler(err).status == 500
    ensures Truthy(err.message) ==> ErrorHandler(err).body == Failure(err.message.value)
    ensures !Truthy(err.message) ==> ErrorHandler(err).body == Failure(InternalErrorMessage)
  {
  }
}
