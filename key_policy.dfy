// The validity rules of an API key (APIKey.is_valid and can_access_from_origin), as
// predicates over the key's fields and an explicit "now".
module KeyPolicy {
  import opened Wrappers
  import opened Clock

  /** The fields of an APIKey, as its to_dict() lists them. */
  datatype KeyRecord = KeyRecord(
    id: string,
    key: string,
    ownerName: string,
    expiryDate: string,
    hitLimit: int,
    hitsUsed: int,
    allowedOrigins: seq<string>,
    createdAt: string,
    active: bool)

  /**
   * The expiry instant: first read as "%Y-%m-%d %I:%M:%S %p"; if that fails, as "%Y-%m-%d",
   * which means midnight at the start of that day; None when neither format reads it.
   */
  function ParseExpiry(s: string): (r: Option<DateTime>)
    ensures r.Some? ==> ValidDateTime(r.value)
  {
    match ParseStamp(s)
    case Some(t) => Some(t)
    case None =>
      match ParseDay(s)
      case Some(d) => Some(Midnight(d))
      case None => None
  }

  /** Past its expiry: the expiry instant is strictly before now. */
  predicate Expired(e: DateTime, now: DateTime) {
    Before(e, now)
  }

  /** The quota is used up; a limit of 0 (or less) means no limit. */
  predicate OverQuota(k: KeyRecord) {
    k.hitLimit > 0 && k.hitsUsed >= k.hitLimit
  }

  /** APIKey.is_valid(): active, an expiry that reads and has not passed, and within quota. */
  predicate IsValid(k: KeyRecord, now: DateTime) {
    if !k.active then false
    else match ParseExpiry(k.expiryDate)
      case None => false
      case Some(e) => !Expired(e, now) && !OverQuota(k)
  }

  /** APIKey.can_access_from_origin(origin). */
  predicate CanAccessFromOrigin(k: KeyRecord, origin: string) {
    |k.allowedOrigins| == 0 || origin in k.allowedOrigins
  }

  // ---------------------------------------------------------------------------
  // What the rules promise.

  /** A deactivated key is never valid, whatever its expiry and usage. */
  lemma InactiveNeverValid(k: KeyRecord, now: DateTime)
    requires !k.active
    ensures !IsValid(k, now)
  {
  }

  /** Fail closed: an expiry text neither format reads makes the key invalid. */
  lemma UnreadableExpiryInvalid(k: KeyRecord, now: DateTime)
    requires ParseExpiry(k.expiryDate) == None
    ensures !IsValid(k, now)
  {
  }

  /** A key whose expiry was written as a full stamp is valid up to and including that second. */
  lemma StampExpiry(k: KeyRecord, e: DateTime, now: DateTime)
    requires ValidDateTime(e) && 1000 <= e.date.year && e.micro == 0
    requires k.expiryDate == FormatStamp(e)
    ensures IsValid(k, now) <==> k.active && !Before(e, now) && !OverQuota(k)
  {
    ParseStampOfFormat(e);
    assert e.(micro := 0) == e;
  }

  /** A date-only expiry is read as midnight at the start of that day. */
  lemma DayExpiryIsMidnight(k: KeyRecord, d: Date, now: DateTime)
    requires ValidDate(d) && 1000 <= d.year
    requires k.expiryDate == FormatDay(d)
    ensures ParseExpiry(k.expiryDate) == Some(Midnight(d))
    ensures IsValid(k, now) <==> k.active && !Before(Midnight(d), now) && !OverQuota(k)
  {
    ParseStampOfDay(d);
    ParseDayOfFormat(d);
  }

  /** Expiry is strict: at the very instant of expiry the key is still valid. */
  lemma ValidAtExpiryInstant(k: KeyRecord, e: DateTime)
    requires k.active && !OverQuota(k)
    requires ParseExpiry(k.expiryDate) == Some(e)
    ensures IsValid(k, e)
    ensures forall later: DateTime :: Before(e, later) ==> !IsValid(k, later)
  {
    BeforeIrreflexive(e);
  }

  /** With a positive limit the quota invalidates exactly when hits_used reaches hit_limit. */
  lemma QuotaBoundary(k: KeyRecord, now: DateTime)
    requires k.hitLimit > 0 && k.active
    requires ParseExpiry(k.expiryDate).Some? && !Before(ParseExpiry(k.expiryDate).value, now)
    ensures IsValid(k, now) <==> k.hitsUsed < k.hitLimit
  {
  }

  /** With hit_limit == 0 (or below) no amount of usage invalidates the key. */
  lemma ZeroLimitNeverExhausts(k: KeyRecord, n: int, now: DateTime)
    requires k.hitLimit <= 0
    ensures IsValid(k.(hitsUsed := n), now) == IsValid(k, now)
  {
  }

  /** Usage only ever takes validity away: a key valid after one more hit was valid before it. */
  lemma UsageMonotone(k: KeyRecord, now: DateTime)
    requires IsValid(k.(hitsUsed := k.hitsUsed + 1), now)
    ensures IsValid(k, now)
  {
  }

  /** Time only ever takes validity away. */
  lemma {:induction false} ExpiryMonotone(k: KeyRecord, earlier: DateTime, later: DateTime)
    requires Before(earlier, later) && IsValid(k, later)
    ensures IsValid(k, earlier)
  {
    var e := ParseExpiry(k.expiryDate).value;
    NotBeforeEarlier(e, earlier, later);
  }

  /** An empty allowed_origins admits every origin; otherwise only the listed ones. */
  lemma OriginRule(k: KeyRecord, origin: string)
    ensures |k.allowedOrigins| == 0 ==> CanAccessFromOrigin(k, origin)
    ensures |k.allowedOrigins| > 0 ==> (CanAccessFromOrigin(k, origin) <==> origin in k.allowedOrigins)
  {
  }
}
