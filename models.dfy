// The objects of models.py: APIKey (one key, whose fields are updated in place), KeyStore (the
// in-memory cache of keys over the api_keys table), and the Stats and UserActivity wrappers over
// the counter and activity tables. Randomness (secrets.token_hex) and the clock are parameters.
module Models {
  import opened Wrappers
  import opened Clock
  import opened Values
  import opened KeyPolicy
  import opened Database

  /** `key or secrets.token_hex(16)`: an empty secret is replaced by a freshly drawn one. */
  function SecretOr(key: string, freshSecret: string): string {
    if key != "" then key else freshSecret
  }

  /** The record an APIKey rebuilt from a stored row holds: the row, with an empty secret redrawn. */
  function Loaded(k: KeyRecord, freshSecret: string): (r: KeyRecord)
    ensures k.key != "" ==> r == k
    ensures r.key != ""  || freshSecret == ""
  {
    k.(key := SecretOr(k.key, freshSecret))
  }

  /** The cache load_keys() builds from get_all_api_keys(): one APIKey per row, under the row's id. */
  function Cache(rows: map<string, KeyRecord>, drawSecret: string -> string): (r: map<string, KeyRecord>)
    ensures r.Keys == rows.Keys
    ensures forall id | id in rows :: r[id] == Loaded(rows[id], drawSecret(id))
  {
    map id | id in rows :: Loaded(rows[id], drawSecret(id))
  }

  lemma CacheIs(rows: map<string, KeyRecord>, drawSecret: string -> string, m: map<string, KeyRecord>)
    requires m.Keys == rows.Keys
    requires forall id | id in m :: m[id] == Loaded(rows[id], drawSecret(id))
    ensures m == Cache(rows, drawSecret)
  {
  }

  /** The loop of load_keys: one APIKey per decoded row, under the row's id. */
  method BuildCache(rows: map<string, KeyRecord>, drawSecret: string -> string) returns (acc: map<string, KeyRecord>)
    ensures acc == Cache(rows, drawSecret)
  {
    var remaining := rows.Keys;
    acc := map[];
    while remaining != {}
      invariant remaining <= rows.Keys
      invariant acc.Keys == rows.Keys - remaining
      invariant forall id | id in acc :: acc[id] == Loaded(rows[id], drawSecret(id))
      decreases |remaining|
    {
      var id :| id in remaining;
      var apiKey := new ApiKey.FromRecord(rows[id], drawSecret(id));
      acc := acc[id := apiKey.Record()];
      remaining := remaining - {id};
    }
    CacheIs(rows, drawSecret, acc);
  }

  /** Every cached key sits under its own id. */
  predicate CacheIds(keys: map<string, KeyRecord>) {
    forall id | id in keys :: keys[id].id == id
  }

  /**
   * What add_key does to the table: when a row has the key's id or its secret, UPDATE ... WHERE
   * id = key.id (which keeps created_at, changes nothing when only the secret matched, and fails on a
   * secret another row holds); otherwise INSERT.
   */
  function AddKeyRows(rows: map<string, KeyRow>, k: KeyRecord): map<string, KeyRow> {
    if k.id in rows then
      if SecretHeld(rows, k.key, k.id) then rows
      else rows[k.id := RowOf(k.(createdAt := rows[k.id].createdAt))]
    else if exists id | id in rows :: rows[id].key == k.key then rows
    else rows[k.id := RowOf(k)]
  }

  /** add_key raises exactly when the UPDATE hits a row whose secret would clash with another row's. */
  predicate AddKeyFails(rows: map<string, KeyRow>, k: KeyRecord) {
    k.id in rows && SecretHeld(rows, k.key, k.id)
  }

  /** A key saved under a fresh id and secret is inserted, and reads back as saved. */
  lemma AddKeyInserts(rows: map<string, KeyRow>, k: KeyRecord)
    requires k.id !in rows && forall id | id in rows :: rows[id].key != k.key
    ensures !AddKeyFails(rows, k)
    ensures AddKeyRows(rows, k) == rows[k.id := RowOf(k)]
    ensures RecordOf(AddKeyRows(rows, k)[k.id]) == Success(k)
  {
    RecordOfRowOf(k);
  }

  /**
   * Saving a key already stored under its id, with its secret unchanged, rewrites that row: it reads
   * back as the key, with the row's created_at, and every other row is untouched.
   */
  lemma AddKeyUpdates(rows: map<string, KeyRow>, k: KeyRecord)
    requires KeysConsistent(rows)
    requires k.id in rows && rows[k.id].key == k.key
    ensures !AddKeyFails(rows, k)
    ensures AddKeyRows(rows, k).Keys == rows.Keys
    ensures RecordOf(AddKeyRows(rows, k)[k.id]) == Success(k.(createdAt := rows[k.id].createdAt))
    ensures forall id | id in rows && id != k.id :: AddKeyRows(rows, k)[id] == rows[id]
  {
    RecordOfRowOf(k.(createdAt := rows[k.id].createdAt));
    OwnSecretNotHeld(rows, k.id);
  }

  /** A key whose id is not stored but whose secret is: the UPDATE matches no row, nothing changes. */
  lemma AddKeyLostUpdate(rows: map<string, KeyRow>, k: KeyRecord, other: string)
    requires k.id !in rows && other in rows && rows[other].key == k.key
    ensures !AddKeyFails(rows, k) && AddKeyRows(rows, k) == rows
  {
  }

  class ApiKey {
    var id: string
    var key: string
    var ownerName: string
    var expiryDate: string
    var hitLimit: int
    var hitsUsed: int
    var allowedOrigins: seq<string>
    var createdAt: string
    var active: bool

    /** to_dict(). */
    function Record(): KeyRecord
      reads this
    {
      KeyRecord(id, key, ownerName, expiryDate, hitLimit, hitsUsed, allowedOrigins, createdAt, active)
    }

    /**
     * APIKey(owner_name, expiry_date, hit_limit, allowed_origins, key, active) at `now`, with
     * freshId and freshSecret standing for the secrets.token_hex draws.
     */
    constructor (ownerName: string, expiryDate: string, hitLimit: int, allowedOrigins: seq<string>,
                 key: string, active: bool, freshId: string, freshSecret: string, now: DateTime)
      requires ValidDateTime(now)
      ensures Record() == KeyRecord(freshId, SecretOr(key, freshSecret), ownerName, expiryDate,
        hitLimit, 0, allowedOrigins, FormatStamp(now), active)
    {
      this.id := freshId;
      this.key := SecretOr(key, freshSecret);
      this.ownerName := ownerName;
      this.expiryDate := expiryDate;
      this.hitLimit := hitLimit;
      this.hitsUsed := 0;
      this.allowedOrigins := allowedOrigins;
      this.createdAt := FormatStamp(now);
      this.active := active;
    }

    /**
     * The object load_keys and get_key build from a stored row: constructed from the row, then id,
     * hits_used and created_at overwritten with the row's.
     */
    constructor FromRecord(r: KeyRecord, freshSecret: string)
      ensures Record() == Loaded(r, freshSecret)
    {
      this.id := r.id;
      this.key := SecretOr(r.key, freshSecret);
      this.ownerName := r.ownerName;
      this.expiryDate := r.expiryDate;
      this.hitLimit := r.hitLimit;
      this.hitsUsed := r.hitsUsed;
      this.allowedOrigins := r.allowedOrigins;
      this.createdAt := r.createdAt;
      this.active := r.active;
    }

    /** increment_usage(): one more hit on the object and in its row, returning the new count. */
    method IncrementUsage(db: Db) returns (n: int)
      requires db.Valid()
      modifies this, db
      ensures n == old(hitsUsed) + 1
      ensures Record() == old(Record()).(hitsUsed := n)
      ensures db.keys == if id in old(db.keys)
        then old(db.keys)[id := old(db.keys)[id].(hitsUsed := n)]
        else old(db.keys)
      ensures db.totals == old(db.totals) && db.daily == old(db.daily) && db.hourly == old(db.hourly)
      ensures db.activities == old(db.activities) && db.lastActivityId == old(db.lastActivityId)
      ensures db.Valid()
    {
      hitsUsed := hitsUsed + 1;
      db.UpdateApiKeyHits(id, hitsUsed);
      n := hitsUsed;
    }
  }

  class KeyStore {
    /** self.keys: the cache, by id. */
    var keys: map<string, KeyRecord>
    const db: Db

    ghost predicate Valid()
      reads this, db
    {
      db.Valid() && CacheIds(keys)
    }

    /**
     * KeyStore(): an empty cache, then load_keys(). A load that raises is not caught, so no store
     * exists unless every row decodes.
     */
    constructor (db: Db, drawSecret: string -> string)
      requires db.Valid() && AllDecode(db.keys)
      ensures this.db == db
      ensures keys == Cache(Decoded(db.keys), drawSecret)
      ensures Valid()
    {
      this.db := db;
      keys := map[];
      new;
      var _ := LoadKeys(drawSecret);
    }

    /**
     * load_keys(): rebuild the cache from every row; when a row's allowed_origins does not decode,
     * get_all_api_keys raises before the cache is touched.
     */
    method LoadKeys(drawSecret: string -> string) returns (ok: bool)
      requires Valid()
      modifies this
      ensures ok <==> AllDecode(db.keys)
      ensures ok ==> keys == Cache(Decoded(db.keys), drawSecret)
      ensures !ok ==> keys == old(keys)
      ensures Valid()
    {
      var rows := db.GetAllApiKeys();
      if rows.Failure? {
        return false;
      }
      keys := BuildCache(rows.value, drawSecret);
      ok := true;
    }

    /** get_key(secret): None for an unknown secret, else a new APIKey built from the row. */
    method GetKey(secret: string, freshSecret: string) returns (r: Result<Option<ApiKey>>)
      requires Valid()
      ensures r.Failure? <==> LookupSecret(db.keys, secret).Failure?
      ensures r.Failure? ==> LookupSecret(db.keys, secret) == Failure(r.error)
      ensures r.Success? && r.value.None? <==> LookupSecret(db.keys, secret) == Success(None)
      ensures r.Success? && r.value.Some? ==>
        && fresh(r.value.value)
        && LookupSecret(db.keys, secret).Success?
        && LookupSecret(db.keys, secret).value.Some?
        && r.value.value.Record() == Loaded(LookupSecret(db.keys, secret).value.value, freshSecret)
    {
      var row := db.GetApiKey(secret);
      if row.Failure? {
        return Failure(row.error);
      }
      if row.value.None? {
        return Success(None);
      }
      var apiKey := new ApiKey.FromRecord(row.value.value, freshSecret);
      r := Success(Some(apiKey));
    }

    /** get_keys(): reload, then the cache; None where the reload raises. */
    method GetKeys(drawSecret: string -> string) returns (r: Option<map<string, KeyRecord>>)
      requires Valid()
      modifies this
      ensures r.Some? <==> AllDecode(db.keys)
      ensures r.Some? ==>
        && r.value == keys
        && keys == Cache(Decoded(db.keys), drawSecret)
      ensures r.None? ==> keys == old(keys)
      ensures Valid()
    {
      var ok := LoadKeys(drawSecret);
      r := if ok then Some(keys) else None;
    }

    /**
     * add_key(key): the upsert of AddKeyRows on the table, then the key cached under its id; when
     * the UPDATE violates UNIQUE nothing changes (add_key re-raises).
     */
    method AddKey(k: ApiKey) returns (ok: bool)
      requires Valid()
      modifies this, db
      ensures ok <==> !AddKeyFails(old(db.keys), k.Record())
      ensures db.keys == AddKeyRows(old(db.keys), k.Record())
      ensures keys == if ok then old(keys)[k.id := k.Record()] else old(keys)
      ensures db.totals == old(db.totals) && db.daily == old(db.daily) && db.hourly == old(db.hourly)
      ensures db.activities == old(db.activities) && db.lastActivityId == old(db.lastActivityId)
      ensures Valid()
    {
      var rec := k.Record();
      if exists id | id in db.keys :: id == rec.id || db.keys[id].key == rec.key {
        ok := db.UpdateKeyRow(rec);
      } else {
        ok := db.InsertKeyRow(rec);
      }
      if ok {
        keys := keys[rec.id := rec];
      }
    }

    /** delete_key(id): only an id in the cache is deleted, from the table and the cache. */
    method DeleteKey(id: string) returns (ok: bool)
      requires Valid()
      modifies this, db
      ensures ok <==> id in old(keys)
      ensures ok ==> keys == old(keys) - {id} && db.keys == old(db.keys) - {id}
      ensures !ok ==> keys == old(keys) && db.keys == old(db.keys)
      ensures db.totals == old(db.totals) && db.daily == old(db.daily) && db.hourly == old(db.hourly)
      ensures db.activities == old(db.activities) && db.lastActivityId == old(db.lastActivityId)
      ensures Valid()
    {
      if id !in keys {
        return false;
      }
      db.DeleteKeyRow(id);
      keys := keys - {id};
      ok := true;
    }
  }

  // ---------------------------------------------------------------------------
  // Stats and UserActivity: stateless wrappers over the tables.

  /** The endpoint whose requests are never counted nor logged. */
  const CaptchaEndpoint := "api_get_captcha"

  /** Stats.register_request(success, endpoint) at `now`. */
  method RegisterRequest(db: Db, success: bool, endpoint: Option<string>, now: DateTime)
    requires db.Valid() && ValidDateTime(now)
    modifies db
    ensures endpoint == Some(CaptchaEndpoint) ==>
      db.totals == old(db.totals) && db.daily == old(db.daily) && db.hourly == old(db.hourly)
    ensures endpoint != Some(CaptchaEndpoint) ==>
      && db.totals == Bump(old(db.totals), success)
      && db.daily == Upsert(old(db.daily), FormatDay(now.date), success)
      && db.hourly == Upsert(old(db.hourly), FormatHour(now), success)
    ensures db.keys == old(db.keys) && db.activities == old(db.activities)
    ensures db.lastActivityId == old(db.lastActivityId)
    ensures db.Valid()
  {
    if endpoint == Some(CaptchaEndpoint) {
      return;
    }
    db.UpdateStats(success, now);
  }

  /** The activity a caller asks to log that add_activity drops before log_activity sees it. */
  predicate Suppressed(eventType: string, details: map<string, Value>) {
    eventType == CaptchaEndpoint || HasText(details, "endpoint", CaptchaEndpoint)
  }

  /**
   * UserActivity.add_activity(...) at `now`: captcha activity is dropped, the rest goes to
   * log_activity (whose row needs an api_key when it is written).
   */
  method AddActivity(db: Db, apiKey: Option<string>, eventType: string, details: map<string, Value>,
                     success: bool, ipAddress: string, now: DateTime) returns (id: Option<int>)
    requires db.Valid() && ValidDateTime(now)
    requires apiKey.Some? || !HasName(details) || Suppressed(eventType, details)
    modifies db
    ensures Suppressed(eventType, details) || !HasName(details) ==>
      id == None && db.activities == old(db.activities) && db.lastActivityId == old(db.lastActivityId)
    ensures !Suppressed(eventType, details) && HasName(details) ==>
      && id == Some(old(db.lastActivityId) + 1)
      && db.lastActivityId == old(db.lastActivityId) + 1
      && db.activities == old(db.activities)
        + [ActivityRow(id.value, FormatStamp(now), apiKey, eventType, details, success, ipAddress)]
    ensures db.keys == old(db.keys) && db.totals == old(db.totals)
    ensures db.daily == old(db.daily) && db.hourly == old(db.hourly)
    ensures db.Valid()
  {
    if Suppressed(eventType, details) {
      return None;
    }
    id := db.LogActivity(apiKey, eventType, details, success, ipAddress, now);
  }

  /** Python's s[start:end] on a list: negative bounds count from the end, then both are clamped. */
  function PySlice<T>(s: seq<T>, start: int, end: int): (r: seq<T>)
    ensures |r| <= |s|
  {
    var lo := Clamp(if start < 0 then start + |s| else start, |s|);
    var hi := Clamp(if end < 0 then end + |s| else end, |s|);
    if hi <= lo then [] else s[lo..hi]
  }

  function Clamp(i: int, n: nat): (r: nat)
    ensures r <= n
  {
    if i < 0 then 0 else if i > n then n else i
  }

  /** UserActivity.get_activities(page, per_page): one page of the newest-first list, and its length. */
  method GetActivities(db: Db, page: int, perPage: int) returns (items: seq<ActivityRow>, total: int)
    ensures items == PySlice(NewestFirst(db.activities), (page - 1) * perPage, (page - 1) * perPage + perPage)
    ensures total == |db.activities|
  {
    var all := db.GetUserActivities(None);
    var start := (page - 1) * perPage;
    var end := start + perPage;
    items := PySlice(all, start, end);
    total := |all|;
  }

  /** For page >= 1 and per_page >= 1 a page holds the rows at positions [(page-1)*per_page, page*per_page). */
  lemma PageContents(rows: seq<ActivityRow>, page: int, perPage: int)
    requires page >= 1 && perPage >= 1
    ensures var start := (page - 1) * perPage;
      var r := PySlice(rows, start, start + perPage);
      && |r| == (if start >= |rows| then 0 else if start + perPage <= |rows| then perPage else |rows| - start)
      && forall i :: 0 <= i < |r| ==> r[i] == rows[start + i]
  {
    PageStart(page, perPage);
    SliceFrom(rows, (page - 1) * perPage, perPage);
  }

  lemma PageStart(page: int, perPage: int)
    requires page >= 1 && perPage >= 1
    ensures (page - 1) * perPage >= 0
  {
  }

  /** A window of n rows from a non-negative start, cut short by the end of the list. */
  lemma SliceFrom<T>(rows: seq<T>, start: int, n: int)
    requires start >= 0 && n >= 1
    ensures var r := PySlice(rows, start, start + n);
      && |r| == (if start >= |rows| then 0 else if start + n <= |rows| then n else |rows| - start)
      && forall i :: 0 <= i < |r| ==> r[i] == rows[start + i]
  {
  }

  /** A page past the end is empty (the total is reported separately). */
  lemma PagePastEnd(rows: seq<ActivityRow>, page: int, perPage: int)
    requires perPage >= 1 && (page - 1) * perPage >= |rows| && page >= 1
    ensures PySlice(rows, (page - 1) * perPage, (page - 1) * perPage + perPage) == []
  {
  }

  /** A page number below 1 is not refused: page 0 is empty, page -1 counts back from the oldest rows. */
  lemma NegativePage(rows: seq<ActivityRow>)
    requires |rows| >= 20
    ensures PySlice(rows, (0 - 1) * 10, (0 - 1) * 10 + 10) == []
    ensures PySlice(rows, (-1 - 1) * 10, (-1 - 1) * 10 + 10) == rows[|rows| - 20..|rows| - 10]
  {
  }

  /** UserActivity.get_recent_activities(limit=5). */
  method GetRecentActivities(db: Db, limit: int) returns (rows: seq<ActivityRow>)
    ensures rows == Limited(NewestFirst(db.activities), Some(limit))
    ensures limit > 0 ==> |rows| == if limit < |db.activities| then limit else |db.activities|
  {
    rows := db.GetUserActivities(Some(limit));
  }
}
