// The SQLite tables the service keeps (api_keys, stats, daily_stats, hourly_stats,
// user_activity) and the functions of database.py that read and change them.
module Database {
  import opened Wrappers
  import opened Clock
  import opened Values
  import opened KeyPolicy
  import OriginsJson

  // ---------------------------------------------------------------------------
  // api_keys

  /** A row of api_keys: allowed_origins is held as the JSON text json.dumps wrote. */
  datatype KeyRow = KeyRow(
    id: string,
    key: string,
    ownerName: string,
    expiryDate: string,
    hitLimit: int,
    hitsUsed: int,
    originsJson: string,
    createdAt: string,
    active: bool)

  /** The row written for a key: every column as is, the origins through json.dumps. */
  function RowOf(k: KeyRecord): KeyRow {
    KeyRow(k.id, k.key, k.ownerName, k.expiryDate, k.hitLimit, k.hitsUsed,
      OriginsJson.Encode(k.allowedOrigins), k.createdAt, k.active)
  }

  /** The dict a row reads back as: json.loads on allowed_origins, which may raise. */
  function RecordOf(r: KeyRow): Result<KeyRecord> {
    var origins :- OriginsJson.Decode(r.originsJson);
    Success(KeyRecord(r.id, r.key, r.ownerName, r.expiryDate, r.hitLimit, r.hitsUsed,
      origins, r.createdAt, r.active))
  }

  /** A key written to the table reads back unchanged, allowed_origins included. */
  lemma RecordOfRowOf(k: KeyRecord)
    ensures RecordOf(RowOf(k)) == Success(k)
  {
    OriginsJson.DecodeEncode(k.allowedOrigins);
  }

  /** Every row's allowed_origins decodes, so reading the whole table does not raise. */
  predicate AllDecode(rows: map<string, KeyRow>) {
    forall id | id in rows :: RecordOf(rows[id]).Success?
  }

  /** The table as get_all_api_keys returns it: each row decoded, by id. */
  function Decoded(rows: map<string, KeyRow>): (r: map<string, KeyRecord>)
    requires AllDecode(rows)
    ensures r.Keys == rows.Keys
  {
    map id | id in rows :: RecordOf(rows[id]).value
  }

  /** A map holding each row's decoding under the row's id is the decoded table. */
  lemma DecodedIs(rows: map<string, KeyRow>, m: map<string, KeyRecord>)
    requires m.Keys == rows.Keys
    requires forall id | id in m :: RecordOf(rows[id]) == Success(m[id])
    ensures AllDecode(rows) && m == Decoded(rows)
  {
  }

  /** The secret stored under an id. */
  function SecretOf(keys: map<string, KeyRow>, id: string): string
    requires id in keys
  {
    keys[id].key
  }

  /**
   * id is the primary key and key (the secret) is UNIQUE. The uniqueness half fires only on
   * SecretOf, so that proofs that never ask about two rows' secrets do not pay for it.
   */
  predicate KeysConsistent(keys: map<string, KeyRow>) {
    (forall id | id in keys :: keys[id].id == id)
    && (forall a, b {:trigger SecretOf(keys, a), SecretOf(keys, b)} | a in keys && b in keys
          && SecretOf(keys, a) == SecretOf(keys, b) :: a == b)
  }

  /** Some row other than `except` already holds `secret` (the UNIQUE constraint on key). */
  predicate SecretHeld(keys: map<string, KeyRow>, secret: string, except: string) {
    exists id | id in keys :: id != except && keys[id].key == secret
  }

  /** Writing a row under its own id keeps the table consistent when no other row holds its secret. */
  lemma ConsistentAfterWrite(keys: map<string, KeyRow>, row: KeyRow)
    requires KeysConsistent(keys) && !SecretHeld(keys, row.key, row.id)
    ensures KeysConsistent(keys[row.id := row])
  {
    var keys' := keys[row.id := row];
    forall a, b | a in keys' && b in keys' && SecretOf(keys', a) == SecretOf(keys', b)
      ensures a == b
    {
      if a != row.id && b != row.id {
        assert SecretOf(keys, a) == SecretOf(keys', a) && SecretOf(keys, b) == SecretOf(keys', b);
      }
    }
  }

  /** No row other than its own holds a stored row's secret. */
  lemma OwnSecretNotHeld(keys: map<string, KeyRow>, id: string)
    requires KeysConsistent(keys) && id in keys
    ensures !SecretHeld(keys, keys[id].key, id)
  {
    forall other | other in keys && other != id
      ensures keys[other].key != keys[id].key
    {
      assert SecretOf(keys, other) == keys[other].key && SecretOf(keys, id) == keys[id].key;
    }
  }

  /** Deleting a row keeps the table consistent. */
  lemma ConsistentAfterDelete(keys: map<string, KeyRow>, id: string)
    requires KeysConsistent(keys)
    ensures KeysConsistent(keys - {id})
  {
    var keys' := keys - {id};
    forall a, b | a in keys' && b in keys' && SecretOf(keys', a) == SecretOf(keys', b)
      ensures a == b
    {
      assert SecretOf(keys, a) == SecretOf(keys', a) && SecretOf(keys, b) == SecretOf(keys', b);
    }
  }

  /** The row whose secret is `secret`, if any (SELECT * FROM api_keys WHERE key = ?). */
  ghost function RowWithSecret(keys: map<string, KeyRow>, secret: string): (r: Option<KeyRow>)
    ensures r.Some? ==> r.value.key == secret
    ensures r.None? ==> forall id | id in keys :: keys[id].key != secret
  {
    if exists id :: id in keys && keys[id].key == secret then
      var id :| id in keys && keys[id].key == secret;
      Some(keys[id])
    else None
  }

  /** With unique secrets the row found is the one that holds the secret. */
  lemma RowWithSecretIs(keys: map<string, KeyRow>, secret: string, id: string)
    requires KeysConsistent(keys)
    requires id in keys && keys[id].key == secret
    ensures RowWithSecret(keys, secret) == Some(keys[id])
  {
    var id' :| id' in keys && keys[id'].key == secret && RowWithSecret(keys, secret) == Some(keys[id']);
    assert SecretOf(keys, id') == SecretOf(keys, id);
  }

  /** get_api_key(secret): None for an unknown secret, the decoded row otherwise. */
  ghost function LookupSecret(keys: map<string, KeyRow>, secret: string): Result<Option<KeyRecord>> {
    match RowWithSecret(keys, secret)
    case None => Success(None)
    case Some(row) =>
      var k :- RecordOf(row);
      Success(Some(k))
  }

  /** A key found by its secret carries that secret and is stored under its own id, with its created_at. */
  lemma LookupSecretFound(keys: map<string, KeyRow>, secret: string)
    requires KeysConsistent(keys)
    requires LookupSecret(keys, secret).Success? && LookupSecret(keys, secret).value.Some?
    ensures var k := LookupSecret(keys, secret).value.value;
      && k.key == secret && k.id in keys && keys[k.id].key == secret
      && keys[k.id].createdAt == k.createdAt
  {
    var row := RowWithSecret(keys, secret).value;
    var id :| id in keys && keys[id] == row;
  }

  // ---------------------------------------------------------------------------
  // stats, daily_stats, hourly_stats

  /**
   * A row of request counters: successful_requests and failed_requests. update_stats adds one to
   * total_requests whenever it adds one to either of them, so total_requests is their sum.
   */
  datatype Counts = Counts(successful: nat, failed: nat) {
    function total(): nat { successful + failed }
  }

  /** One more request in a row of counters. */
  function Bump(c: Counts, success: bool): Counts {
    if success then Counts(c.successful + 1, c.failed) else Counts(c.successful, c.failed + 1)
  }

  /** The row INSERT ... VALUES (?, 1, s, f) creates for a first request. */
  function Fresh(success: bool): Counts {
    if success then Counts(1, 0) else Counts(0, 1)
  }

  /** INSERT ... VALUES (?, 1, s, f) ON CONFLICT DO UPDATE: bump the bucket, creating it if absent. */
  function Upsert(m: map<string, Counts>, bucket: string, success: bool): map<string, Counts> {
    m[bucket := if bucket in m then Bump(m[bucket], success) else Fresh(success)]
  }

  /**
   * The upsert touches its bucket and nothing else: a fresh bucket starts at one request, of
   * the kind counted; an existing one grows by one request of that kind.
   */
  lemma UpsertBucket(m: map<string, Counts>, bucket: string, success: bool)
    ensures var r := Upsert(m, bucket, success);
      && r.Keys == m.Keys + {bucket}
      && (forall k | k in m && k != bucket :: r[k] == m[k])
    ensures bucket !in m ==>
      Upsert(m, bucket, success)[bucket] == Counts(if success then 1 else 0, if success then 0 else 1)
    ensures bucket in m ==> var c, c' := m[bucket], Upsert(m, bucket, success)[bucket];
      c'.total() == c.total() + 1
      && c'.successful - c.successful == (if success then 1 else 0)
      && c'.failed - c.failed == (if success then 0 else 1)
  {
  }

  /** Several update_stats calls in a row, one per flag, on a counter row. */
  function BumpAll(c: Counts, flags: seq<bool>): (r: Counts)
    ensures r.total() == c.total() + |flags|
    decreases |flags|
  {
    if flags == [] then c else BumpAll(Bump(c, flags[0]), flags[1..])
  }

  /** Several update_stats calls in a row, one per flag, on the same bucket. */
  function UpsertAll(m: map<string, Counts>, bucket: string, flags: seq<bool>): (r: map<string, Counts>)
    ensures flags == [] ==> r == m
    decreases |flags|
  {
    if flags == [] then m else UpsertAll(Upsert(m, bucket, flags[0]), bucket, flags[1..])
  }

  /** Counting one batch of requests and then another is counting them all. */
  lemma {:induction false} BumpAllConcat(c: Counts, a: seq<bool>, b: seq<bool>)
    ensures BumpAll(BumpAll(c, a), b) == BumpAll(c, a + b)
    decreases |a|
  {
    if a == [] {
      assert a + b == b;
    } else {
      assert (a + b)[0] == a[0] && (a + b)[1..] == a[1..] + b;
      BumpAllConcat(Bump(c, a[0]), a[1..], b);
    }
  }

  lemma {:induction false} UpsertAllConcat(m: map<string, Counts>, bucket: string, a: seq<bool>, b: seq<bool>)
    ensures UpsertAll(UpsertAll(m, bucket, a), bucket, b) == UpsertAll(m, bucket, a + b)
    decreases |a|
  {
    if a == [] {
      assert a + b == b;
    } else {
      assert (a + b)[0] == a[0] && (a + b)[1..] == a[1..] + b;
      UpsertAllConcat(Upsert(m, bucket, a[0]), bucket, a[1..], b);
    }
  }

  /** What get_stats() returns. */
  datatype StatsSnapshot = StatsSnapshot(totals: Counts, daily: map<string, Counts>, hourly: map<string, Counts>)

  /** The counters after update_stats ran once per flag, in order, at `now`. */
  function AfterRequests(s: StatsSnapshot, now: DateTime, flags: seq<bool>): (r: StatsSnapshot)
    requires ValidDateTime(now)
    ensures r.totals.total() == s.totals.total() + |flags|
  {
    StatsSnapshot(BumpAll(s.totals, flags),
      UpsertAll(s.daily, FormatDay(now.date), flags),
      UpsertAll(s.hourly, FormatHour(now), flags))
  }

  /** No request leaves the counters alone; one request is one update_stats. */
  lemma AfterOneRequest(s: StatsSnapshot, now: DateTime, success: bool)
    requires ValidDateTime(now)
    ensures AfterRequests(s, now, []) == s
    ensures AfterRequests(s, now, [success]) == StatsSnapshot(Bump(s.totals, success),
      Upsert(s.daily, FormatDay(now.date), success), Upsert(s.hourly, FormatHour(now), success))
  {
    var day, hour := FormatDay(now.date), FormatHour(now);
    assert [success][1..] == [];
    assert BumpAll(s.totals, [success]) == BumpAll(Bump(s.totals, success), []);
    assert UpsertAll(s.daily, day, [success]) == UpsertAll(Upsert(s.daily, day, success), day, []);
    assert UpsertAll(s.hourly, hour, [success]) == UpsertAll(Upsert(s.hourly, hour, success), hour, []);
  }

  /** Counting one batch of requests and then another is counting them all. */
  lemma AfterRequestsConcat(s: StatsSnapshot, now: DateTime, a: seq<bool>, b: seq<bool>)
    requires ValidDateTime(now)
    ensures AfterRequests(AfterRequests(s, now, a), now, b) == AfterRequests(s, now, a + b)
  {
    BumpAllConcat(s.totals, a, b);
    UpsertAllConcat(s.daily, FormatDay(now.date), a, b);
    UpsertAllConcat(s.hourly, FormatHour(now), a, b);
  }

  // ---------------------------------------------------------------------------
  // user_activity

  datatype ActivityRow = ActivityRow(
    id: int,
    timestamp: string,
    apiKey: Option<string>,
    eventType: string,
    details: map<string, Value>,
    success: bool,
    ipAddress: string)

  /** Rows in table order: AUTOINCREMENT ids, strictly increasing. */
  predicate IdsAscending(rows: seq<ActivityRow>) {
    forall i, j :: 0 <= i < j < |rows| ==> rows[i].id < rows[j].id
  }

  /** `details and details.get('nameEn')`: the condition for writing an activity row. */
  predicate HasName(details: map<string, Value>) {
    "nameEn" in details && Truthy(details["nameEn"])
  }

  /** DELETE FROM user_activity WHERE id IN ids. */
  function Without(rows: seq<ActivityRow>, ids: set<int>): (r: seq<ActivityRow>)
    ensures |r| <= |rows|
  {
    if rows == [] then []
    else if rows[0].id in ids then Without(rows[1..], ids)
    else [rows[0]] + Without(rows[1..], ids)
  }

  /** Exactly the rows whose id is not deleted remain. */
  lemma {:induction false} WithoutMembers(rows: seq<ActivityRow>, ids: set<int>)
    ensures forall a :: a in Without(rows, ids) <==> a in rows && a.id !in ids
  {
    if rows != [] {
      WithoutMembers(rows[1..], ids);
      assert rows == [rows[0]] + rows[1..];
    }
  }

  /** Deleting keeps the remaining rows in table order. */
  lemma {:induction false} WithoutAscending(rows: seq<ActivityRow>, ids: set<int>)
    requires IdsAscending(rows)
    ensures IdsAscending(Without(rows, ids))
  {
    if rows != [] {
      WithoutAscending(rows[1..], ids);
      WithoutMembers(rows[1..], ids);
      var rest := Without(rows[1..], ids);
      if rows[0].id !in ids {
        forall j | 0 <= j < |rest|
          ensures rows[0].id < rest[j].id
        {
          assert rest[j] in rows[1..];
        }
        assert Without(rows, ids) == [rows[0]] + rest;
      }
    }
  }

  /** ORDER BY id DESC over rows kept in ascending id order. */
  function NewestFirst(rows: seq<ActivityRow>): (r: seq<ActivityRow>)
    ensures |r| == |rows|
    ensures forall i :: 0 <= i < |rows| ==> r[i] == rows[|rows| - 1 - i]
  {
    if rows == [] then [] else [rows[|rows| - 1]] + NewestFirst(rows[..|rows| - 1])
  }

  /** The newest-first listing really is in descending id order. */
  lemma NewestFirstDescending(rows: seq<ActivityRow>)
    requires IdsAscending(rows)
    ensures forall i, j :: 0 <= i < j < |rows| ==> NewestFirst(rows)[i].id > NewestFirst(rows)[j].id
  {
    var r := NewestFirst(rows);
    forall i, j | 0 <= i < j < |rows|
      ensures r[i].id > r[j].id
    {
      assert r[i] == rows[|rows| - 1 - i] && r[j] == rows[|rows| - 1 - j];
    }
  }

  /** `LIMIT n` is added only for a truthy limit; SQLite reads a negative limit as no limit. */
  function Limited(rows: seq<ActivityRow>, limit: Option<int>): (r: seq<ActivityRow>)
    ensures limit.Some? && limit.value > 0 ==> |r| == if limit.value < |rows| then limit.value else |rows|
    ensures !(limit.Some? && limit.value > 0) ==> r == rows
    ensures r == rows[..|r|]
  {
    if limit.Some? && 0 < limit.value < |rows| then rows[..limit.value] else rows
  }

  // ---------------------------------------------------------------------------
  // The database.

  class Db {
    var keys: map<string, KeyRow>
    var totals: Counts
    var daily: map<string, Counts>
    var hourly: map<string, Counts>
    var activities: seq<ActivityRow>
    /** sqlite_sequence for user_activity: the largest id ever handed out. */
    var lastActivityId: int

    ghost predicate Valid()
      reads this
    {
      KeysConsistent(keys)
      && IdsAscending(activities) && 0 <= lastActivityId
      && (forall i :: 0 <= i < |activities| ==> 0 < activities[i].id <= lastActivityId)
    }

    /** The three counter tables together. */
    function Stats(): StatsSnapshot
      reads this
    {
      StatsSnapshot(totals, daily, hourly)
    }

    /** init_db(): empty tables and the zeroed totals row. */
    constructor ()
      ensures keys == map[] && totals == Counts(0, 0) && daily == map[] && hourly == map[]
      ensures activities == [] && lastActivityId == 0
      ensures Valid()
    {
      keys := map[];
      totals := Counts(0, 0);
      daily := map[];
      hourly := map[];
      activities := [];
      lastActivityId := 0;
    }

    /** get_api_key(key). */
    method GetApiKey(secret: string) returns (r: Result<Option<KeyRecord>>)
      requires Valid()
      ensures r == LookupSecret(keys, secret)
    {
      if exists id :: id in keys && keys[id].key == secret {
        var id :| id in keys && keys[id].key == secret;
        RowWithSecretIs(keys, secret, id);
        var rec := RecordOf(keys[id]);
        if rec.Failure? {
          return Failure(rec.error);
        }
        r := Success(Some(rec.value));
      } else {
        r := Success(None);
      }
    }

    /** update_api_key_hits(key_id, hits): only hits_used of that row; nothing for an unknown id. */
    method UpdateApiKeyHits(id: string, hits: int)
      requires Valid()
      modifies this
      ensures keys == if id in old(keys) then old(keys)[id := old(keys)[id].(hitsUsed := hits)] else old(keys)
      ensures totals == old(totals) && daily == old(daily) && hourly == old(hourly)
      ensures activities == old(activities) && lastActivityId == old(lastActivityId)
      ensures Valid()
    {
      if id in keys {
        var row := keys[id].(hitsUsed := hits);
        OwnSecretNotHeld(keys, id);
        ConsistentAfterWrite(keys, row);
        keys := keys[id := row];
      }
    }

    /**
     * UPDATE api_keys SET key, owner_name, expiry_date, hit_limit, hits_used, allowed_origins, active
     * WHERE id = k.id: created_at is kept; no row changes for an unknown id; a secret another row
     * holds violates UNIQUE and changes nothing.
     */
    method UpdateKeyRow(k: KeyRecord) returns (ok: bool)
      requires Valid()
      modifies this
      ensures ok <==> !(k.id in old(keys) && SecretHeld(old(keys), k.key, k.id))
      ensures keys == if ok && k.id in old(keys)
        then old(keys)[k.id := RowOf(k.(createdAt := old(keys)[k.id].createdAt))]
        else old(keys)
      ensures totals == old(totals) && daily == old(daily) && hourly == old(hourly)
      ensures activities == old(activities) && lastActivityId == old(lastActivityId)
      ensures Valid()
    {
      if k.id !in keys {
        return true;
      }
      if exists id | id in keys :: id != k.id && keys[id].key == k.key {
        return false;
      }
      ConsistentAfterWrite(keys, RowOf(k.(createdAt := keys[k.id].createdAt)));
      keys := keys[k.id := RowOf(k.(createdAt := keys[k.id].createdAt))];
      ok := true;
    }

    /** INSERT INTO api_keys: refused (IntegrityError) when the id or the secret is already taken. */
    method InsertKeyRow(k: KeyRecord) returns (ok: bool)
      requires Valid()
      modifies this
      ensures ok <==> k.id !in old(keys) && !SecretHeld(old(keys), k.key, k.id)
      ensures keys == if ok then old(keys)[k.id := RowOf(k)] else old(keys)
      ensures totals == old(totals) && daily == old(daily) && hourly == old(hourly)
      ensures activities == old(activities) && lastActivityId == old(lastActivityId)
      ensures Valid()
    {
      if k.id in keys || exists id | id in keys :: keys[id].key == k.key {
        return false;
      }
      ConsistentAfterWrite(keys, RowOf(k));
      keys := keys[k.id := RowOf(k)];
      ok := true;
    }

    /** DELETE FROM api_keys WHERE id = ?. */
    method DeleteKeyRow(id: string)
      requires Valid()
      modifies this
      ensures keys == old(keys) - {id}
      ensures totals == old(totals) && daily == old(daily) && hourly == old(hourly)
      ensures activities == old(activities) && lastActivityId == old(lastActivityId)
      ensures Valid()
    {
      ConsistentAfterDelete(keys, id);
      keys := keys - {id};
    }

    /** get_all_api_keys(): every row by id, or the error of a row whose origins do not decode. */
    method GetAllApiKeys() returns (r: Result<map<string, KeyRecord>>)
      ensures r.Success? <==> AllDecode(keys)
      ensures r.Success? ==> r.value == Decoded(keys)
    {
      var remaining := keys.Keys;
      var acc: map<string, KeyRecord> := map[];
      while remaining != {}
        invariant remaining <= keys.Keys
        invariant acc.Keys == keys.Keys - remaining
        invariant forall id | id in acc :: RecordOf(keys[id]) == Success(acc[id])
        decreases |remaining|
      {
        var id :| id in remaining;
        var rec := RecordOf(keys[id]);
        if rec.Failure? {
          return Failure(rec.error);
        }
        acc := acc[id := rec.value];
        remaining := remaining - {id};
      }
      DecodedIs(keys, acc);
      r := Success(acc);
    }

    /** get_stats(): the totals row and every daily and hourly bucket. */
    method GetStats() returns (s: StatsSnapshot)
      requires Valid()
      ensures s == Stats()
    {
      s := StatsSnapshot(totals, daily, hourly);
    }

    /** update_stats(success) at `now`: the totals row, the day bucket and the hour bucket together. */
    method UpdateStats(success: bool, now: DateTime)
      requires Valid() && ValidDateTime(now)
      modifies this
      ensures totals == Bump(old(totals), success)
      ensures daily == Upsert(old(daily), FormatDay(now.date), success)
      ensures hourly == Upsert(old(hourly), FormatHour(now), success)
      ensures keys == old(keys) && activities == old(activities) && lastActivityId == old(lastActivityId)
      ensures Valid()
    {
      totals := Bump(totals, success);
      daily := Upsert(daily, FormatDay(now.date), success);
      hourly := Upsert(hourly, FormatHour(now), success);
    }

    /**
     * log_activity(...) at `now`: nothing without a truthy nameEn, else one row with a fresh id.
     * The api_key column is NOT NULL, so a row is only written for a named key.
     */
    method LogActivity(apiKey: Option<string>, eventType: string, details: map<string, Value>,
                       success: bool, ipAddress: string, now: DateTime) returns (id: Option<int>)
      requires Valid() && ValidDateTime(now)
      requires apiKey.Some? || !HasName(details)
      modifies this
      ensures !HasName(details) ==>
        id == None && activities == old(activities) && lastActivityId == old(lastActivityId)
      ensures HasName(details) ==>
        && id == Some(old(lastActivityId) + 1)
        && lastActivityId == old(lastActivityId) + 1
        && activities == old(activities)
          + [ActivityRow(id.value, FormatStamp(now), apiKey, eventType, details, success, ipAddress)]
      ensures keys == old(keys) && totals == old(totals) && daily == old(daily) && hourly == old(hourly)
      ensures Valid()
    {
      if !HasName(details) {
        return None;
      }
      lastActivityId := lastActivityId + 1;
      activities := activities
        + [ActivityRow(lastActivityId, FormatStamp(now), apiKey, eventType, details, success, ipAddress)];
      id := Some(lastActivityId);
    }

    /** delete_user_activity(activity_id): removes that row if present and reports success either way. */
    method DeleteUserActivity(activityId: int) returns (ok: bool)
      requires Valid()
      modifies this
      ensures activities == Without(old(activities), {activityId})
      ensures keys == old(keys) && totals == old(totals) && daily == old(daily) && hourly == old(hourly)
      ensures lastActivityId == old(lastActivityId)
      ensures Valid() && ok
    {
      WithoutAscending(activities, {activityId});
      WithoutMembers(activities, {activityId});
      activities := Without(activities, {activityId});
      ok := true;
    }

    /** delete_user_activities(ids): the listed rows for a non-empty list, every row otherwise. */
    method DeleteUserActivities(activityIds: Option<seq<int>>) returns (ok: bool)
      requires Valid()
      modifies this
      ensures activities == if activityIds.Some? && |activityIds.value| > 0
        then Without(old(activities), set x | x in activityIds.value)
        else []
      ensures keys == old(keys) && totals == old(totals) && daily == old(daily) && hourly == old(hourly)
      ensures lastActivityId == old(lastActivityId)
      ensures Valid() && ok
    {
      if activityIds.Some? && |activityIds.value| > 0 {
        var ids := set x | x in activityIds.value;
        WithoutAscending(activities, ids);
        WithoutMembers(activities, ids);
        activities := Without(activities, ids);
      } else {
        activities := [];
      }
      ok := true;
    }

    /** get_user_activities(limit): newest first, cut to `limit` rows when a positive one is given. */
    method GetUserActivities(limit: Option<int>) returns (rows: seq<ActivityRow>)
      ensures rows == Limited(NewestFirst(activities), limit)
    {
      var n := |activities|;
      var count := if limit.Some? && 0 < limit.value < n then limit.value else n;
      rows := [];
      var i := 0;
      while i < count
        invariant 0 <= i <= count
        invariant |rows| == i
        invariant forall j :: 0 <= j < i ==> rows[j] == activities[n - 1 - j]
      {
        rows := rows + [activities[n - 1 - i]];
        i := i + 1;
      }
      ghost var all := NewestFirst(activities);
      assert rows == all[..count];
    }
  }
}
