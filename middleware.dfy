// require_api_key and log_api_failure as they run against the key store and the tables: each
// step's effect on the counters, the api_keys row and the cache, proved to carry out
// Gate.Decide. The Flask request is a Gate.Request; the wrapped view is represented by whether it
// raises.
module Middleware {
  import opened Wrappers
  import opened Clock
  import opened KeyPolicy
  import opened Database
  import opened Models
  import opened Gate

  /** The paths whose failures log_api_failure never logs. */
  const CaptchaPaths: seq<string> := ["/api/captcha", "/get_captcha"]

  /** One register_request call, read as a batch of counted flags. */
  lemma CountedEffect(s: StatsSnapshot, now: DateTime, endpoint: Option<string>, success: bool)
    requires ValidDateTime(now)
    ensures AfterRequests(s, now, Counted(endpoint, success)) ==
      if endpoint == Some(CaptchaEndpoint) then s
      else StatsSnapshot(Bump(s.totals, success),
        Upsert(s.daily, FormatDay(now.date), success), Upsert(s.hourly, FormatHour(now), success))
  {
    AfterOneRequest(s, now, success);
  }

  /**
   * log_api_failure(api_key, error_message): outside the captcha paths it hands the failure to
   * add_activity, whose details carry no nameEn, so no row is ever written.
   */
  method LogApiFailure(db: Db, req: Request, apiKey: Option<string>, message: string, now: DateTime)
      returns (attempted: bool)
    requires db.Valid() && ValidDateTime(now)
    modifies db
    ensures attempted <==> req.path !in CaptchaPaths
    ensures db.keys == old(db.keys) && db.Stats() == old(db.Stats())
    ensures db.activities == old(db.activities) && db.lastActivityId == old(db.lastActivityId)
    ensures db.Valid()
  {
    if req.path in CaptchaPaths {
      return false;
    }
    var _ := AddActivity(db, apiKey, EndpointName(req), FailureDetails(req, message), false, "N/A", now);
    attempted := true;
  }

  /** A failing step: register_request(success=False, endpoint), then log_api_failure. */
  method CountFailure(db: Db, req: Request, endpoint: Option<string>, apiKey: Option<string>,
                      message: string, now: DateTime)
    requires db.Valid() && ValidDateTime(now)
    modifies db
    ensures db.Stats() == AfterRequests(old(db.Stats()), now, Counted(endpoint, false))
    ensures db.keys == old(db.keys)
    ensures db.activities == old(db.activities) && db.lastActivityId == old(db.lastActivityId)
    ensures db.Valid()
  {
    CountedEffect(db.Stats(), now, endpoint, false);
    RegisterRequest(db, false, endpoint, now);
    var _ := LogApiFailure(db, req, apiKey, message, now);
  }

  /**
   * require_api_key around a view that raises handlerError (None: it returns normally). The
   * outcome is Gate.Decide on the table as it stood; the counters take exactly the register_request
   * calls of Gate.StatsEffects; only a request that reaches the view rewrites its key's row and
   * cache entry, with one more hit; no activity row is written.
   */
  method RequireApiKey(store: KeyStore, req: Request, now: DateTime, handlerError: Option<string>)
      returns (o: Outcome, response: Response)
    requires store.Valid() && ValidDateTime(now)
    modifies store, store.db
    ensures o == Decide(req, LookupSecret(old(store.db.keys), Secret(req)), now, handlerError)
    ensures response == ResponseOf(o)
    ensures store.db.Stats() == AfterRequests(old(store.db.Stats()), now, StatsEffects(o, EndpointName(req)))
    ensures Passed(o) ==>
      && o.key.id in old(store.db.keys)
      && store.db.keys == old(store.db.keys)[o.key.id := RowOf(o.key)]
      && store.keys == old(store.keys)[o.key.id := o.key]
    ensures !Passed(o) ==> store.db.keys == old(store.db.keys) && store.keys == old(store.keys)
    ensures store.db.activities == old(store.db.activities)
    ensures store.db.lastActivityId == old(store.db.lastActivityId)
    ensures store.Valid()
  {
    ghost var lookup := LookupSecret(store.db.keys, Secret(req));
    if KeyHeader(req).None? {
      o := MissingKey;
    } else {
      var secret := req.apiKey.value;
      var found := store.GetKey(secret, secret);
      if found.Success? && found.value.Some? {
        var keyObj := found.value.value;
        LookupSecretFound(store.db.keys, secret);
        assert keyObj.Record() == lookup.value.value;
        var refusal := Denial(req, keyObj.Record(), now);
        o := Screen(store, keyObj, req, refusal, now, handlerError);
        assert o == DecideKey(req, lookup.value.value, now, handlerError);
        return o, ResponseOf(o);
      }
      o := if found.Failure? then InternalError(found.error) else UnknownKey;
    }
    Refuse(store.db, req, o, now);
    response := ResponseOf(o);
  }

  /**
   * A request turned away before a key was found: counted as in CountFailure, except that the
   * handler of an internal error passes no endpoint, and the log entry of a missing key carries
   * no key.
   */
  method Refuse(db: Db, req: Request, o: Outcome, now: DateTime)
    requires db.Valid() && ValidDateTime(now)
    requires o.MissingKey? || o.UnknownKey? || o.InternalError?
    modifies db
    ensures db.Stats() == AfterRequests(old(db.Stats()), now, StatsEffects(o, EndpointName(req)))
    ensures db.keys == old(db.keys)
    ensures db.activities == old(db.activities) && db.lastActivityId == old(db.lastActivityId)
    ensures db.Valid()
  {
    var endpoint := if o.InternalError? then None else Some(EndpointName(req));
    var apiKey := if o.MissingKey? then None else req.apiKey;
    CountFailure(db, req, endpoint, apiKey, FailureMessage(o), now);
  }

  /**
   * The steps after get_key found the key: a refusal (from is_valid or the origin check) is counted
   * as in CountFailure; otherwise the key is admitted.
   */
  method Screen(store: KeyStore, keyObj: ApiKey, req: Request, refusal: Option<Outcome>, now: DateTime,
                handlerError: Option<string>)
      returns (o: Outcome)
    requires store.Valid() && ValidDateTime(now)
    requires keyObj.id in store.db.keys
    requires store.db.keys[keyObj.id].key == keyObj.key
    requires store.db.keys[keyObj.id].createdAt == keyObj.createdAt
    requires refusal.Some? ==> refusal.value.Rejected? || refusal.value.OriginDenied? || refusal.value.AddressDenied?
    modifies store, store.db, keyObj
    ensures o == match refusal case Some(r) => r case None => Admission(old(keyObj.Record()), handlerError)
    ensures store.db.Stats() == AfterRequests(old(store.db.Stats()), now, StatsEffects(o, EndpointName(req)))
    ensures Passed(o) ==>
      && store.db.keys == old(store.db.keys)[o.key.id := RowOf(o.key)]
      && store.keys == old(store.keys)[o.key.id := o.key]
    ensures !Passed(o) ==> store.db.keys == old(store.db.keys) && store.keys == old(store.keys)
    ensures store.db.activities == old(store.db.activities)
    ensures store.db.lastActivityId == old(store.db.lastActivityId)
    ensures store.Valid()
  {
    if refusal.None? {
      o := Admit(store, keyObj, req, now, handlerError);
      return o;
    }
    o := refusal.value;
    CountFailure(store.db, req, Some(EndpointName(req)), req.apiKey, FailureMessage(o), now);
  }

  /** register_request(success=True, endpoint) on admission. */
  method CountSuccess(db: Db, endpoint: Option<string>, now: DateTime)
    requires db.Valid() && ValidDateTime(now)
    modifies db
    ensures db.Stats() == AfterRequests(old(db.Stats()), now, Counted(endpoint, true))
    ensures db.keys == old(db.keys)
    ensures db.activities == old(db.activities) && db.lastActivityId == old(db.lastActivityId)
    ensures db.Valid()
  {
    CountedEffect(db.Stats(), now, endpoint, true);
    RegisterRequest(db, true, endpoint, now);
  }

  /**
   * `key_obj.hits_used += 1; key_store.add_key(key_obj)` on a key read from its own row: the
   * UPDATE succeeds, so the row and the cache entry both hold the key with one more hit.
   */
  method SaveHit(store: KeyStore, keyObj: ApiKey) returns (used: KeyRecord)
    requires store.Valid()
    requires keyObj.id in store.db.keys
    requires store.db.keys[keyObj.id].key == keyObj.key
    requires store.db.keys[keyObj.id].createdAt == keyObj.createdAt
    modifies store, store.db, keyObj
    ensures used == old(keyObj.Record()).(hitsUsed := old(keyObj.hitsUsed) + 1)
    ensures store.db.keys == old(store.db.keys)[used.id := RowOf(used)]
    ensures store.keys == old(store.keys)[used.id := used]
    ensures store.db.Stats() == old(store.db.Stats())
    ensures store.db.activities == old(store.db.activities)
    ensures store.db.lastActivityId == old(store.db.lastActivityId)
    ensures store.Valid()
  {
    keyObj.hitsUsed := keyObj.hitsUsed + 1;
    used := keyObj.Record();
    AddKeyUpdates(store.db.keys, used);
    assert used.(createdAt := store.db.keys[used.id].createdAt) == used;
    var saved := store.AddKey(keyObj);
  }

  /** add_activity for an admitted request: its details carry no nameEn, so nothing is written. */
  method LogAdmission(db: Db, req: Request, secret: string, now: DateTime)
    requires db.Valid() && ValidDateTime(now)
    modifies db
    ensures db.keys == old(db.keys) && db.Stats() == old(db.Stats())
    ensures db.activities == old(db.activities) && db.lastActivityId == old(db.lastActivityId)
    ensures db.Valid()
  {
    var _ := AddActivity(db, Some(secret), EndpointName(req), AdmitDetails(req), true, "N/A", now);
  }

  /**
   * The admission step: enter the key (Enter), then run the view; a view that raises is caught as
   * an internal error and counted once more, without an endpoint.
   */
  method Admit(store: KeyStore, keyObj: ApiKey, req: Request, now: DateTime, handlerError: Option<string>)
      returns (o: Outcome)
    requires store.Valid() && ValidDateTime(now)
    requires keyObj.id in store.db.keys
    requires store.db.keys[keyObj.id].key == keyObj.key
    requires store.db.keys[keyObj.id].createdAt == keyObj.createdAt
    modifies store, store.db, keyObj
    ensures o == Admission(old(keyObj.Record()), handlerError)
    ensures store.db.Stats() == AfterRequests(old(store.db.Stats()), now, StatsEffects(o, EndpointName(req)))
    ensures store.db.keys == old(store.db.keys)[o.key.id := RowOf(o.key)]
    ensures store.keys == old(store.keys)[o.key.id := o.key]
    ensures store.db.activities == old(store.db.activities)
    ensures store.db.lastActivityId == old(store.db.lastActivityId)
    ensures store.Valid()
  {
    ghost var k := keyObj.Record();
    ghost var before := store.db.Stats();
    ghost var name := EndpointName(req);
    var used := Enter(store, keyObj, req, now);
    assert used == k.(hitsUsed := k.hitsUsed + 1);
    o := RunView(store.db, req, used, handlerError, now);
    AdmissionStats(before, now, name, k, handlerError);
  }

  /** The counters after entering and running the view are those StatsEffects gives the outcome. */
  lemma AdmissionStats(s: StatsSnapshot, now: DateTime, name: string, k: KeyRecord, handlerError: Option<string>)
    requires ValidDateTime(now)
    ensures AfterRequests(AfterRequests(s, now, Counted(Some(name), true)), now, ViewEffects(handlerError)) ==
      AfterRequests(s, now, StatsEffects(Admission(k, handlerError), name))
  {
    AfterRequestsConcat(s, now, Counted(Some(name), true), ViewEffects(handlerError));
    assert StatsEffects(Admission(k, handlerError), name) == Counted(Some(name), true) + ViewEffects(handlerError);
  }

  /** The register_request calls of the view's own run: one without an endpoint when it raises. */
  function ViewEffects(handlerError: Option<string>): seq<bool> {
    if handlerError.None? then [] else Counted(None, false)
  }

  /**
   * The view, run on an admitted key; an exception it raises is answered by the internal-error
   * handler, which counts a failure without an endpoint and tries to log it.
   */
  method RunView(db: Db, req: Request, used: KeyRecord, handlerError: Option<string>, now: DateTime)
      returns (o: Outcome)
    requires db.Valid() && ValidDateTime(now)
    modifies db
    ensures o == match handlerError case None => Admitted(used) case Some(e) => HandlerFailed(used, e)
    ensures db.Stats() == AfterRequests(old(db.Stats()), now, ViewEffects(handlerError))
    ensures db.keys == old(db.keys)
    ensures db.activities == old(db.activities) && db.lastActivityId == old(db.lastActivityId)
    ensures db.Valid()
  {
    if handlerError.None? {
      return Admitted(used);
    }
    o := HandlerFailed(used, handlerError.value);
    CountFailure(db, req, None, Some(used.key), FailureMessage(o), now);
  }

  /**
   * What precedes the view: count a success, add one hit to the key object and save it with
   * add_key, log the request.
   */
  method Enter(store: KeyStore, keyObj: ApiKey, req: Request, now: DateTime) returns (used: KeyRecord)
    requires store.Valid() && ValidDateTime(now)
    requires keyObj.id in store.db.keys
    requires store.db.keys[keyObj.id].key == keyObj.key
    requires store.db.keys[keyObj.id].createdAt == keyObj.createdAt
    modifies store, store.db, keyObj
    ensures used == old(keyObj.Record()).(hitsUsed := old(keyObj.hitsUsed) + 1)
    ensures used.key == old(keyObj.key)
    ensures store.db.Stats() == AfterRequests(old(store.db.Stats()), now, Counted(Some(EndpointName(req)), true))
    ensures store.db.keys == old(store.db.keys)[used.id := RowOf(used)]
    ensures store.keys == old(store.keys)[used.id := used]
    ensures store.db.activities == old(store.db.activities)
    ensures store.db.lastActivityId == old(store.db.lastActivityId)
    ensures store.Valid()
  {
    var secret := keyObj.key;
    CountSuccess(store.db, Some(EndpointName(req)), now);
    used := SaveHit(store, keyObj);
    LogAdmission(store.db, req, secret, now);
  }
}
