// The key-management routes of admin/routes.py as they act on the key store and the activity
// table: add_key, edit_key (its save and its pre-filled form), toggle_key and
// delete_activities. The request, the flash messages and the templates are left to Flask; a
// route's reply is an outcome value.
module AdminRoutes {
  import opened Wrappers
  import opened Text
  import opened Clock
  import opened KeyPolicy
  import opened Database
  import opened Models
  import opened Forms

  /** What a key route answers. */
  datatype Outcome =
    | Saved         // flash success, redirect to the key list
    | Rerendered    // the form again, with its errors
    | NotFound      // flash 'API key not found', redirect to the key list
    | ServerError   // an exception escaped (get_keys or add_key raised): a 500

  // ---------------------------------------------------------------------------
  // Expiry texts

  /** `datetime.combine(date, time(23, 59, 59))`: the last second of the day. */
  function EndOfDay(d: Date): (t: DateTime)
    requires ValidDate(d)
    ensures ValidDateTime(t) && t.date == d
    ensures forall u: DateTime :: ValidDateTime(u) && u.date == d && u.micro == 0 ==> !Before(t, u)
  {
    DateTime(d, 23, 59, 59, 0)
  }

  /** The expiry add_key stores for the chosen date: its last second, "%Y-%m-%d %I:%M:%S %p". */
  function NewKeyExpiry(d: Date): string
    requires ValidDate(d)
  {
    FormatStamp(EndOfDay(d))
  }

  /** The stored text is the date followed by " 11:59:59 PM". */
  lemma NewKeyExpiryText(d: Date)
    requires ValidDate(d)
    ensures NewKeyExpiry(d) == FormatDay(d) + " 11:59:59 PM"
  {
    assert Hour12(23) == 11;
    assert Pad2(11) == "11" && Pad2(59) == "59";
  }

  /**
   * A key saved with NewKeyExpiry(d) reads its expiry back as the end of day d, and has expired
   * exactly when now is on a later day, or in the last second of d past its first microsecond.
   */
  lemma NewKeyExpiryMeaning(d: Date, now: DateTime)
    requires ValidDate(d) && 1000 <= d.year && ValidDateTime(now)
    ensures ParseExpiry(NewKeyExpiry(d)) == Some(EndOfDay(d))
    ensures Expired(EndOfDay(d), now) <==>
      DateBefore(d, now.date)
      || (now.date == d && now.hour == 23 && now.minute == 59 && now.second == 59 && now.micro > 0)
  {
    ParseStampOfFormat(EndOfDay(d));
  }

  /**
   * edit_key as written: `form.expiry_date.data` is a date, and a date formatted with
   * "%Y-%m-%d %I:%M:%S %p" shows midnight, "12:00:00 AM".
   */
  function EditExpiryAsWritten(d: Date): string
    requires ValidDate(d)
  {
    FormatStamp(Midnight(d))
  }

  /**
   * The consequence: a key edited with expiry date d has expired from the first microsecond of d,
   * while the same key created by add_key with date d stays valid all day. Noon of 2025-06-30 on a
   * key without a limit shows it.
   */
  lemma EditExpiryAsWrittenExpiresEarly(k: KeyRecord, d: Date)
    requires ValidDate(d) && 1000 <= d.year
    requires k.active && k.hitLimit == 0
    ensures var noon := DateTime(d, 12, 0, 0, 0);
      && !IsValid(k.(expiryDate := EditExpiryAsWritten(d)), noon)
      && IsValid(k.(expiryDate := NewKeyExpiry(d)), noon)
  {
    ParseStampOfFormat(Midnight(d));
    ParseStampOfFormat(EndOfDay(d));
  }

  lemma EditExpiryCounterexample()
    ensures var d := Date(2025, 6, 30);
      var k := KeyRecord("id", "secret", "owner", EditExpiryAsWritten(d), 0, 0, [], "", true);
      !IsValid(k, DateTime(d, 12, 0, 0, 0)) && IsValid(k.(expiryDate := NewKeyExpiry(d)), DateTime(d, 12, 0, 0, 0))
  {
    var d := Date(2025, 6, 30);
    EditExpiryAsWrittenExpiresEarly(KeyRecord("id", "secret", "owner", EditExpiryAsWritten(d), 0, 0, [], "", true), d);
  }

  /** The last second of a day, stored as a stamp, reads back as that second. */
  lemma EndOfDayReadsBack(d: Date)
    requires ValidDate(d)
    ensures 1000 <= d.year ==> ParseExpiry(FormatStamp(EndOfDay(d))) == Some(EndOfDay(d))
  {
    if 1000 <= d.year {
      ParseStampOfFormat(EndOfDay(d));
    }
  }

  /**
   * The expiry edit_key evidently means to store: the end of the chosen day, the same text add_key
   * writes, which is_valid reads back as the last second of that day.
   */
  function EditExpiry(d: Date): (e: string)
    requires ValidDate(d)
    ensures e == FormatDay(d) + " 11:59:59 PM"
    ensures 1000 <= d.year ==> ParseExpiry(e) == Some(EndOfDay(d))
  {
    NewKeyExpiryText(d);
    EndOfDayReadsBack(d);
    NewKeyExpiry(d)
  }

  /** Which expiry edit_key stores: midnight, as the code does, or the end of the day it means. */
  datatype EditRule = AsWritten | Corrected

  /** The expiry text edit_key stores for the chosen date under a rule. */
  function EditedExpiry(d: Date, rule: EditRule): string
    requires ValidDate(d)
  {
    match rule
    case AsWritten => EditExpiryAsWritten(d)
    case Corrected => EditExpiry(d)
  }

  // ---------------------------------------------------------------------------
  // add_key

  /** The key add_key builds from an accepted form, with its drawn id and secret, at `now`. */
  function NewKeyRecord(f: KeyForm, freshId: string, freshSecret: string, now: DateTime): KeyRecord
    requires KeyFormValid(f) && ValidDateTime(now)
  {
    KeyRecord(freshId, SecretOr("", freshSecret), f.ownerName, NewKeyExpiry(ExpiryDate(f).value),
      f.hitLimit.value, 0, SplitWhitespace(f.allowedOrigins), FormatStamp(now), true)
  }

  /**
   * add_key(): an accepted form creates one active key with no hits, the chosen owner and limit,
   * the end of the chosen day as expiry and the origins split on whitespace, stored under its
   * fresh id; a refused form changes nothing. The drawn id and secret are assumed unused, as
   * token_hex makes them in practice.
   */
  method AddKeyRoute(store: KeyStore, f: KeyForm, freshId: string, freshSecret: string, now: DateTime)
      returns (o: Outcome)
    requires store.Valid() && ValidDateTime(now)
    requires freshId !in store.db.keys
    requires forall id | id in store.db.keys :: store.db.keys[id].key != freshSecret
    modifies store, store.db
    ensures o == (if KeyFormValid(f) then Saved else Rerendered)
    ensures KeyFormValid(f) ==>
      var k := NewKeyRecord(f, freshId, freshSecret, now);
      && store.db.keys == old(store.db.keys)[freshId := RowOf(k)]
      && store.keys == old(store.keys)[freshId := k]
    ensures !KeyFormValid(f) ==> store.db.keys == old(store.db.keys) && store.keys == old(store.keys)
    ensures store.db.Stats() == old(store.db.Stats()) && store.db.activities == old(store.db.activities)
    ensures store.Valid()
  {
    if !KeyFormValid(f) {
      return Rerendered;
    }
    var d := ExpiryDate(f).value;
    var apiKey := new ApiKey(f.ownerName, NewKeyExpiry(d), f.hitLimit.value, SplitWhitespace(f.allowedOrigins),
      "", true, freshId, freshSecret, now);
    AddKeyInserts(store.db.keys, apiKey.Record());
    var _ := store.AddKey(apiKey);
    o := Saved;
  }

  // ---------------------------------------------------------------------------
  // edit_key

  /**
   * The key after edit_key's assignments: owner, expiry (under the rule), limit and origins from
   * the form.
   */
  function Edited(r: KeyRecord, f: KeyForm, rule: EditRule): (e: KeyRecord)
    requires KeyFormValid(f)
    ensures e.id == r.id && e.key == r.key && e.hitsUsed == r.hitsUsed
    ensures e.createdAt == r.createdAt && e.active == r.active
    ensures e.ownerName == f.ownerName && e.hitLimit == f.hitLimit.value
    ensures e.expiryDate == EditedExpiry(ExpiryDate(f).value, rule)
    ensures e.allowedOrigins == SplitWhitespace(f.allowedOrigins)
  {
    r.(ownerName := f.ownerName, expiryDate := EditedExpiry(ExpiryDate(f).value, rule),
      hitLimit := f.hitLimit.value, allowedOrigins := SplitWhitespace(f.allowedOrigins))
  }

  /**
   * edit_key(key_id) on a submitted form: the cache is reloaded (a row that does not decode makes
   * that raise); an unknown id is reported; a refused form is shown again; otherwise the cached key
   * gets the form's owner, expiry, limit and origins and is saved with add_key. The cached object is
   * changed before add_key runs, so the cache holds the edited key even when add_key raises.
   * `AsWritten` is the route as the code stands; `Corrected` stores the end of the chosen day.
   */
  method EditKeyRoute(store: KeyStore, keyId: string, f: KeyForm, drawSecret: string -> string,
                      rule: EditRule)
      returns (o: Outcome)
    requires store.Valid()
    modifies store, store.db
    ensures !AllDecode(old(store.db.keys)) ==>
      o == ServerError && store.db.keys == old(store.db.keys) && store.keys == old(store.keys)
    ensures AllDecode(old(store.db.keys)) ==>
      var cache := Cache(Decoded(old(store.db.keys)), drawSecret);
      if keyId !in cache || !KeyFormValid(f) then
        && o == (if keyId !in cache then NotFound else Rerendered)
        && store.db.keys == old(store.db.keys) && store.keys == cache
      else
        var e := Edited(cache[keyId], f, rule);
        && o == (if AddKeyFails(old(store.db.keys), e) then ServerError else Saved)
        && store.db.keys == AddKeyRows(old(store.db.keys), e)
        && store.keys == cache[keyId := e]
    ensures store.db.Stats() == old(store.db.Stats()) && store.db.activities == old(store.db.activities)
    ensures store.Valid()
  {
    var keys := store.GetKeys(drawSecret);
    if keys.None? {
      return ServerError;
    }
    if keyId !in keys.value {
      return NotFound;
    }
    if !KeyFormValid(f) {
      return Rerendered;
    }
    var ok := SaveEdit(store, keys.value[keyId], f, rule);
    if !ok {
      store.keys := store.keys[keyId := Edited(keys.value[keyId], f, rule)];
    }
    o := if ok then Saved else ServerError;
  }

  /** The save of edit_key: a fresh APIKey from the cached key, the form's fields set, add_key. */
  method SaveEdit(store: KeyStore, r: KeyRecord, f: KeyForm, rule: EditRule) returns (ok: bool)
    requires store.Valid() && KeyFormValid(f)
    modifies store, store.db
    ensures ok <==> !AddKeyFails(old(store.db.keys), Edited(r, f, rule))
    ensures store.db.keys == AddKeyRows(old(store.db.keys), Edited(r, f, rule))
    ensures store.keys == if ok then old(store.keys)[r.id := Edited(r, f, rule)] else old(store.keys)
    ensures store.db.Stats() == old(store.db.Stats()) && store.db.activities == old(store.db.activities)
    ensures store.Valid()
  {
    var apiKey := new ApiKey.FromRecord(r, r.key);
    apiKey.ownerName := f.ownerName;
    apiKey.expiryDate := EditedExpiry(ExpiryDate(f).value, rule);
    apiKey.hitLimit := f.hitLimit.value;
    apiKey.allowedOrigins := SplitWhitespace(f.allowedOrigins);
    assert apiKey.Record() == Edited(r, f, rule);
    ok := store.AddKey(apiKey);
  }

  /**
   * Saving an edit of a key whose row holds a secret rewrites that row alone: it reads back as
   * the edited key, with the row's created_at, and no other row changes.
   */
  lemma EditSaves(rows: map<string, KeyRow>, drawSecret: string -> string, keyId: string, f: KeyForm,
                  rule: EditRule)
    requires KeysConsistent(rows) && AllDecode(rows) && KeyFormValid(f)
    requires keyId in rows && rows[keyId].key != ""
    ensures var e := Edited(Cache(Decoded(rows), drawSecret)[keyId], f, rule);
      && !AddKeyFails(rows, e)
      && AddKeyRows(rows, e).Keys == rows.Keys
      && RecordOf(AddKeyRows(rows, e)[keyId]) == Success(e)
      && forall id | id in rows && id != keyId :: AddKeyRows(rows, e)[id] == rows[id]
  {
    var r := Decoded(rows)[keyId];
    assert r.key == rows[keyId].key && r.id == keyId && r.createdAt == rows[keyId].createdAt;
    var e := Edited(Cache(Decoded(rows), drawSecret)[keyId], f, rule);
    AddKeyUpdates(rows, e);
    assert e.(createdAt := rows[keyId].createdAt) == e;
  }

  // ---------------------------------------------------------------------------
  // edit_key's form as the GET request fills it

  /**
   * The date the form shows: the stored expiry read with "%Y-%m-%d %I:%M:%S %p", or 30 days after
   * today when it does not read that way (a date-only expiry among them).
   */
  function PrefillDate(expiry: string, today: Date): (d: Date)
    requires ValidDate(today) && DayNumber(today) + 30 <= DayNumber(LastDate)
    ensures ValidDate(d)
  {
    AddDaysNumber(today, 30);
    match ParseStamp(expiry)
    case Some(t) => t.date
    case None => AddDays(today, 30)
  }

  /** The form the GET request shows for a key, as the browser sends it back untouched. */
  function Prefilled(r: KeyRecord, today: Date): KeyForm
    requires ValidDate(today) && DayNumber(today) + 30 <= DayNumber(LastDate)
  {
    KeyForm(r.ownerName, FormatDay(PrefillDate(r.expiryDate, today)), Some(r.hitLimit), JoinSpace(r.allowedOrigins))
  }

  /**
   * With the corrected expiry, saving the pre-filled form of a key that add_key created gives back
   * the key unchanged: the date reads back, the expiry is rewritten to the same text, the origins
   * split back into the same list.
   */
  lemma ResubmitUnchanged(r: KeyRecord, d: Date, today: Date)
    requires ValidDate(d) && 1000 <= d.year
    requires ValidDate(today) && DayNumber(today) + 30 <= DayNumber(LastDate)
    requires r.expiryDate == NewKeyExpiry(d)
    requires Present(r.ownerName) && r.hitLimit >= 1
    requires forall i :: 0 <= i < |r.allowedOrigins| ==> IsWord(r.allowedOrigins[i])
    ensures KeyFormValid(Prefilled(r, today))
    ensures Edited(r, Prefilled(r, today), Corrected) == r
  {
    ParseStampOfFormat(EndOfDay(d));
    assert PrefillDate(r.expiryDate, today) == d;
    ParseDayOfFormat(d);
    SplitJoin(r.allowedOrigins);
  }

  /** With edit_key as written, the same resubmission moves the expiry to the start of the day. */
  lemma ResubmitAsWrittenMovesExpiry(r: KeyRecord, d: Date, today: Date)
    requires ValidDate(d) && 1000 <= d.year
    requires ValidDate(today) && DayNumber(today) + 30 <= DayNumber(LastDate)
    requires r.expiryDate == NewKeyExpiry(d)
    ensures ParseDay(Prefilled(r, today).expiryText) == Some(d)
    ensures KeyFormValid(Prefilled(r, today)) ==>
      Edited(r, Prefilled(r, today), AsWritten).expiryDate == EditExpiryAsWritten(d)
    ensures ParseExpiry(EditExpiryAsWritten(d)) == Some(Midnight(d))
    ensures ParseExpiry(r.expiryDate) == Some(EndOfDay(d))
    ensures EditExpiryAsWritten(d) != r.expiryDate
  {
    ParseStampOfFormat(EndOfDay(d));
    ParseStampOfFormat(Midnight(d));
    assert PrefillDate(r.expiryDate, today) == d;
    ParseDayOfFormat(d);
  }

  // ---------------------------------------------------------------------------
  // toggle_key

  /** toggle_key's JSON reply. */
  datatype ToggleReply =
    | Toggled(active: bool)        // {'success': True, 'active': ...}
    | ToggleRefused(error: string) // {'success': False, 'error': ...}
    | ToggleServerError            // an exception escaped: a 500

  /**
   * toggle_key(key_id): the cached key with `active` flipped, saved with add_key and reported; an
   * unknown id is refused with no change. The cached object is flipped before add_key runs, so the
   * cache holds the flipped key even when add_key raises.
   */
  method ToggleKeyRoute(store: KeyStore, keyId: string, drawSecret: string -> string) returns (reply: ToggleReply)
    requires store.Valid()
    modifies store, store.db
    ensures !AllDecode(old(store.db.keys)) ==>
      reply == ToggleServerError && store.db.keys == old(store.db.keys) && store.keys == old(store.keys)
    ensures AllDecode(old(store.db.keys)) ==>
      var cache := Cache(Decoded(old(store.db.keys)), drawSecret);
      if keyId !in cache then
        reply == ToggleRefused("API key not found") && store.db.keys == old(store.db.keys) && store.keys == cache
      else
        var t := cache[keyId].(active := !cache[keyId].active);
        && reply == (if AddKeyFails(old(store.db.keys), t) then ToggleServerError else Toggled(t.active))
        && store.db.keys == AddKeyRows(old(store.db.keys), t)
        && store.keys == cache[keyId := t]
    ensures store.db.Stats() == old(store.db.Stats()) && store.db.activities == old(store.db.activities)
    ensures store.Valid()
  {
    var keys := store.GetKeys(drawSecret);
    if keys.None? {
      return ToggleServerError;
    }
    if keyId !in keys.value {
      return ToggleRefused("API key not found");
    }
    var r := keys.value[keyId];
    var ok := SaveToggle(store, r);
    if !ok {
      store.keys := store.keys[keyId := r.(active := !r.active)];
    }
    reply := if ok then Toggled(!r.active) else ToggleServerError;
  }

  /** The save of toggle_key: a fresh APIKey from the cached key, `active` flipped, add_key. */
  method SaveToggle(store: KeyStore, r: KeyRecord) returns (ok: bool)
    requires store.Valid()
    modifies store, store.db
    ensures ok <==> !AddKeyFails(old(store.db.keys), r.(active := !r.active))
    ensures store.db.keys == AddKeyRows(old(store.db.keys), r.(active := !r.active))
    ensures store.keys == if ok then old(store.keys)[r.id := r.(active := !r.active)] else old(store.keys)
    ensures store.db.Stats() == old(store.db.Stats()) && store.db.activities == old(store.db.activities)
    ensures store.Valid()
  {
    var apiKey := new ApiKey.FromRecord(r, r.key);
    apiKey.active := !apiKey.active;
    assert apiKey.Record() == r.(active := !r.active);
    ok := store.AddKey(apiKey);
  }

  /**
   * Toggling a key whose row holds a secret rewrites that row alone, and it reads back as the key
   * it held with `active` flipped.
   */
  lemma ToggleFlipsOnlyActive(rows: map<string, KeyRow>, drawSecret: string -> string, keyId: string)
    requires KeysConsistent(rows) && AllDecode(rows)
    requires keyId in rows && rows[keyId].key != ""
    ensures var c := Cache(Decoded(rows), drawSecret)[keyId];
      var t := c.(active := !c.active);
      && !AddKeyFails(rows, t)
      && AddKeyRows(rows, t).Keys == rows.Keys
      && RecordOf(AddKeyRows(rows, t)[keyId]) == Success(Decoded(rows)[keyId].(active := !rows[keyId].active))
      && forall id | id in rows && id != keyId :: AddKeyRows(rows, t)[id] == rows[id]
  {
    var c := Cache(Decoded(rows), drawSecret)[keyId];
    assert c == Decoded(rows)[keyId];
    AddKeyUpdates(rows, c.(active := !c.active));
  }

  // ---------------------------------------------------------------------------
  // delete_activities

  /**
   * delete_activities(): the ids of a JSON body when it carries a non-empty list of them, every
   * activity otherwise; the reply is always success.
   */
  method DeleteActivitiesRoute(db: Db, isJson: bool, ids: Option<seq<int>>) returns (success: bool)
    requires db.Valid()
    modifies db
    ensures success
    ensures db.activities == if isJson && ids.Some? && |ids.value| > 0
      then Without(old(db.activities), set x | x in ids.value)
      else []
    ensures db.keys == old(db.keys) && db.Stats() == old(db.Stats())
    ensures db.Valid()
  {
    if isJson && ids.Some? && |ids.value| > 0 {
      success := db.DeleteUserActivities(ids);
    } else {
      success := db.DeleteUserActivities(None);
    }
  }
}
