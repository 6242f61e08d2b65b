// The decision require_api_key makes for one request, as a pure function of the request, the
// result of looking its key up, the clock and the handler's fate; the imperative pipeline that
// carries it out against the key store and the tables is Middleware.RequireApiKey.
module Gate {
  import opened Wrappers
  import opened Clock
  import opened Values
  import opened Text
  import opened KeyPolicy
  import Url
  import Database
  import Models

  /** What the guard reads from the Flask request. */
  datatype Request = Request(
    apiKey: Option<string>,
    endpoint: string,
    httpMethod: string,
    path: string,
    remoteAddr: Option<string>,
    origin: Option<string>,
    referer: Option<string>)

  /** Where the pipeline stops. */
  datatype Outcome =
    | MissingKey
    | UnknownKey
    | Rejected(message: string)
    | OriginDenied(host: string)
    | AddressDenied(ip: Option<string>)
    | InternalError(error: string)
    | Admitted(key: KeyRecord)
    | HandlerFailed(key: KeyRecord, error: string)

  /** What the client receives: a JSON error with a status, or the wrapped view's own response. */
  datatype Response = JsonError(status: int, error: string) | ViewResponse

  /** `x or y` on optional strings: the first that is present and non-empty. */
  function Or(x: Option<string>, y: Option<string>): Option<string> {
    if x.Some? && x.value != "" then x else y
  }

  /** X-API-Key, where a missing or empty header counts as no key. */
  function KeyHeader(req: Request): (r: Option<string>)
    ensures r.Some? ==> r.value != ""
  {
    if req.apiKey.Some? && req.apiKey.value != "" then req.apiKey else None
  }

  /** The secret looked up when a key was sent. */
  function Secret(req: Request): string {
    req.apiKey.GetOr("")
  }

  /** request.endpoint without its blueprint prefix. */
  function EndpointName(req: Request): string {
    LastSegment(req.endpoint)
  }

  /** `Origin or Referer`, kept only when non-empty (the guard tests it for truth). */
  function OriginHeader(req: Request): (r: Option<string>)
    ensures r.Some? ==> r.value != ""
  {
    var h := Or(req.origin, req.referer);
    if h.Some? && h.value != "" then h else None
  }

  /** The origin host: urlparse(...).hostname of the header; None without a header or on a parse error. */
  function OriginHostOf(req: Request): Option<string> {
    match OriginHeader(req)
    case None => None
    case Some(h) => Url.OriginHost(h)
  }

  /** The message of an invalid key, in priority order; note the missing `hit_limit > 0` guard. */
  function RejectionMessage(k: KeyRecord): string {
    if k.hitsUsed >= k.hitLimit then "API key has exceeded usage limits"
    else if !k.active then "API key has been deactivated"
    else "API key has expired"
  }

  /** The decision of require_api_key, step by step, stopping at the first failing step. */
  function Decide(req: Request, lookup: Result<Option<KeyRecord>>, now: DateTime,
                  handlerError: Option<string>): Outcome
  {
    if KeyHeader(req).None? then MissingKey
    else match lookup
      case Failure(e) => InternalError(e)
      case Success(None) => UnknownKey
      case Success(Some(k)) => DecideKey(req, k, now, handlerError)
  }

  /** The steps after a key was found: validity, then the origin, then admission. */
  function DecideKey(req: Request, k: KeyRecord, now: DateTime, handlerError: Option<string>): Outcome {
    match Denial(req, k, now)
    case Some(refusal) => refusal
    case None => Admission(k, handlerError)
  }

  /** The refusal of a found key, if it has one: is_valid first, then the origin step. */
  function Denial(req: Request, k: KeyRecord, now: DateTime): (r: Option<Outcome>)
    ensures r.Some? ==> r.value.Rejected? || r.value.OriginDenied? || r.value.AddressDenied?
  {
    if !IsValid(k, now) then Some(Rejected(RejectionMessage(k)))
    else OriginCheck(k.allowedOrigins, OriginHostOf(req), req.remoteAddr)
  }

  /**
   * The origin step on a key's list: skipped when the list is empty; else the origin host must be
   * listed when one was read, and the remote address otherwise.
   */
  function OriginCheck(origins: seq<string>, host: Option<string>, addr: Option<string>): Option<Outcome> {
    if |origins| == 0 then None
    else match host
      case Some(h) => if h in origins then None else Some(OriginDenied(h))
      case None => if addr.Some? && addr.value in origins then None else Some(AddressDenied(addr))
  }

  /** The key reaches the view with one more hit; the view returns or raises. */
  function Admission(k: KeyRecord, handlerError: Option<string>): Outcome {
    var used := k.(hitsUsed := k.hitsUsed + 1);
    match handlerError
    case None => Admitted(used)
    case Some(e) => HandlerFailed(used, e)
  }

  /** Python's str() of an optional string, as the f-string prints it. */
  function Show(s: Option<string>): string {
    match s
    case None => "None"
    case Some(v) => v
  }

  /** The error text log_api_failure records for an outcome that is not an admission. */
  function FailureMessage(o: Outcome): string {
    match o
    case MissingKey => "API key is required"
    case UnknownKey => "Invalid API key"
    case Rejected(m) => m
    case OriginDenied(h) => "Origin " + h + " is not allowed for this API key"
    case AddressDenied(ip) => "IP " + Show(ip) + " is not allowed for this API key"
    case InternalError(e) => "Internal server error: " + e
    case Admitted(_) => ""
    case HandlerFailed(_, e) => "Internal server error: " + e
  }

  /** The response the client receives. */
  function ResponseOf(o: Outcome): Response {
    match o
    case MissingKey => JsonError(401, FailureMessage(o))
    case UnknownKey => JsonError(401, FailureMessage(o))
    case Rejected(_) => JsonError(403, FailureMessage(o))
    case OriginDenied(_) => JsonError(403, FailureMessage(o))
    case AddressDenied(_) => JsonError(403, FailureMessage(o))
    case InternalError(_) => JsonError(500, "Internal server error")
    case Admitted(_) => ViewResponse
    case HandlerFailed(_, _) => JsonError(500, "Internal server error")
  }

  /** The key that reached the handler, if any. */
  predicate Passed(o: Outcome) {
    o.Admitted? || o.HandlerFailed?
  }

  /** The success flags register_request(success, endpoint) hands to update_stats: none for captcha. */
  function Counted(endpoint: Option<string>, success: bool): seq<bool> {
    if endpoint == Some(Models.CaptchaEndpoint) then [] else [success]
  }

  /**
   * The success flags of every register_request call the pipeline makes, in order: the rejections
   * and the admission pass the endpoint, the exception handler passes none.
   */
  function StatsEffects(o: Outcome, endpoint: string): seq<bool> {
    match o
    case InternalError(_) => Counted(None, false)
    case Admitted(_) => Counted(Some(endpoint), true)
    case HandlerFailed(_, _) => Counted(Some(endpoint), true) + Counted(None, false)
    case _ => Counted(Some(endpoint), false)
  }

  /** A str-or-None value as it lands in the details dict. */
  function OptionalText(s: Option<string>): Value {
    match s
    case None => Null
    case Some(v) => Str(v)
  }

  /** The details' origin: `Origin or Referer or remote_addr or 'unknown'`. */
  function DetailsOrigin(req: Request): string {
    Or(Or(Or(req.origin, req.referer), req.remoteAddr), Some("unknown")).GetOr("unknown")
  }

  /** The details of an admitted request. */
  function AdmitDetails(req: Request): (d: map<string, Value>)
    ensures !Database.HasName(d)
  {
    map["endpoint" := Str(req.endpoint), "method" := Str(req.httpMethod), "path" := Str(req.path),
        "remote_addr" := OptionalText(req.remoteAddr), "origin" := Str(DetailsOrigin(req))]
  }

  /** The details log_api_failure passes along with the error text. */
  function FailureDetails(req: Request, message: string): (d: map<string, Value>)
    ensures !Database.HasName(d)
  {
    AdmitDetails(req)["error" := Str(message)]
  }

  // ---------------------------------------------------------------------------
  // What the pipeline promises.

  /** Where the request comes from is acceptable to the key: the origin host if one was read, else the address. */
  predicate OriginAllowed(k: KeyRecord, req: Request) {
    |k.allowedOrigins| == 0 ||
    match OriginHostOf(req)
    case Some(h) => h in k.allowedOrigins
    case None => req.remoteAddr.Some? && req.remoteAddr.value in k.allowedOrigins
  }

  /**
   * The handler runs exactly when a key was sent, found, valid and allowed from where the request
   * came; the key it runs with has exactly one more hit; it fails only with a handler error.
   */
  lemma PassedIff(req: Request, lookup: Result<Option<KeyRecord>>, now: DateTime, handlerError: Option<string>)
    ensures var o := Decide(req, lookup, now, handlerError);
      && (Passed(o) <==>
            && KeyHeader(req).Some? && lookup.Success? && lookup.value.Some?
            && IsValid(lookup.value.value, now) && OriginAllowed(lookup.value.value, req))
      && (Passed(o) ==> o.key == lookup.value.value.(hitsUsed := lookup.value.value.hitsUsed + 1))
      && (o.HandlerFailed? <==> Passed(o) && handlerError.Some?)
  {
  }

  /** Each step fails with its own outcome: no key, an unknown key, a lookup that raised, an invalid key. */
  lemma EarlySteps(req: Request, lookup: Result<Option<KeyRecord>>, now: DateTime, handlerError: Option<string>)
    ensures var o := Decide(req, lookup, now, handlerError);
      && (o == MissingKey <==> KeyHeader(req).None?)
      && (o == UnknownKey <==> KeyHeader(req).Some? && lookup == Success(None))
      && (o.InternalError? <==> KeyHeader(req).Some? && lookup.Failure?)
      && (o.Rejected? <==>
            && KeyHeader(req).Some? && lookup.Success? && lookup.value.Some?
            && !IsValid(lookup.value.value, now))
  {
  }

  /** With an origin host read and a non-empty list, only the host is checked: the address plays no part. */
  lemma HostnameOnlyChecked(req: Request, k: KeyRecord, now: DateTime, handlerError: Option<string>,
                            addr: Option<string>)
    requires |k.allowedOrigins| > 0 && OriginHostOf(req).Some?
    ensures Decide(req.(remoteAddr := addr), Success(Some(k)), now, handlerError)
      == Decide(req, Success(Some(k)), now, handlerError)
    ensures KeyHeader(req).Some? && IsValid(k, now) && OriginHostOf(req).value !in k.allowedOrigins ==>
      Decide(req, Success(Some(k)), now, handlerError) == OriginDenied(OriginHostOf(req).value)
  {
    assert OriginHostOf(req.(remoteAddr := addr)) == OriginHostOf(req);
  }

  /** Without an origin host the remote address must be listed; a missing address never is. */
  lemma AddressFallback(req: Request, k: KeyRecord, now: DateTime, handlerError: Option<string>)
    requires KeyHeader(req).Some? && IsValid(k, now)
    requires |k.allowedOrigins| > 0 && OriginHostOf(req).None?
    ensures var o := Decide(req, Success(Some(k)), now, handlerError);
      && (Passed(o) <==> req.remoteAddr.Some? && req.remoteAddr.value in k.allowedOrigins)
      && (!Passed(o) ==> o == AddressDenied(req.remoteAddr))
  {
  }

  /** An empty allowed_origins skips the origin step: a valid key passes from anywhere. */
  lemma EmptyListSkipsOriginCheck(req: Request, k: KeyRecord, now: DateTime, handlerError: Option<string>)
    requires KeyHeader(req).Some? && IsValid(k, now) && |k.allowedOrigins| == 0
    ensures forall origin, referer, addr ::
      Passed(Decide(req.(origin := origin, referer := referer, remoteAddr := addr), Success(Some(k)), now, handlerError))
  {
  }

  /** The rejection message names the first failing rule in the order quota, deactivation, expiry. */
  lemma RejectionPriority(k: KeyRecord, now: DateTime)
    requires !IsValid(k, now)
    ensures RejectionMessage(k) == "API key has exceeded usage limits" <==> k.hitsUsed >= k.hitLimit
    ensures RejectionMessage(k) == "API key has been deactivated" <==> k.hitsUsed < k.hitLimit && !k.active
    ensures RejectionMessage(k) == "API key has expired" <==>
      && k.hitsUsed < k.hitLimit && k.active
      && (ParseExpiry(k.expiryDate).None? || Expired(ParseExpiry(k.expiryDate).value, now))
  {
  }

  /**
   * With hit_limit == 0 the quota never invalidates, yet the message test has no `> 0` guard: an
   * unlimited key that is invalid for any other reason (deactivated, expired) is reported as over
   * its limit.
   */
  lemma ZeroLimitReportedExceeded(k: KeyRecord, now: DateTime)
    requires k.hitLimit == 0 && k.hitsUsed >= 0 && !IsValid(k, now)
    ensures !OverQuota(k)
    ensures RejectionMessage(k) == "API key has exceeded usage limits"
  {
  }

  /** The status of each outcome, and the exception text never reaching the client. */
  lemma Responses(o: Outcome, e: string)
    ensures ResponseOf(o) == ViewResponse <==> o.Admitted?
    ensures ResponseOf(o).JsonError? && ResponseOf(o).status == 401 <==> o == MissingKey || o == UnknownKey
    ensures ResponseOf(o).JsonError? && ResponseOf(o).status == 403 <==>
      o.Rejected? || o.OriginDenied? || o.AddressDenied?
    ensures ResponseOf(o).JsonError? && ResponseOf(o).status == 500 <==> o.InternalError? || o.HandlerFailed?
    ensures o.InternalError? ==>
      && ResponseOf(o) == ResponseOf(InternalError(e))
      && FailureMessage(o) == "Internal server error: " + o.error
  {
  }

  /**
   * Exactly-once counting: off the captcha endpoint each request is counted once, as a success
   * exactly when it reached the handler, plus one failure when the handler raised.
   */
  lemma CountedOnce(o: Outcome, endpoint: string)
    requires endpoint != Models.CaptchaEndpoint
    ensures |StatsEffects(o, endpoint)| == if o.HandlerFailed? then 2 else 1
    ensures multiset(StatsEffects(o, endpoint))[true] == if Passed(o) then 1 else 0
  {
  }

  /** On the captcha endpoint only the exception handler counts, because it passes no endpoint. */
  lemma CaptchaCountsOnlyErrors(o: Outcome)
    ensures StatsEffects(o, Models.CaptchaEndpoint) ==
      if o.InternalError? || o.HandlerFailed? then [false] else []
  {
  }
}
