# Birth-registration verification service: API-key gate and usage accounting

This project is a Dafny model of the access-control and accounting core of a Flask
service. The service verifies birth-registration records on behalf of API clients and is
administered through a small dashboard. The model covers:

- **Key validity policy** (`KeyPolicy`). An `APIKey` is a `KeyRecord` value. `IsValid`
  requires the key to be active, its expiry text to parse (as
  `YYYY-MM-DD hh:mm:ss AM/PM`, or else as `YYYY-MM-DD` meaning midnight) and to lie no
  earlier than "now", and `hits_used < hit_limit` whenever `hit_limit > 0`. "Now" is a
  parameter.
- **Key store** (`Models.ApiKey`, `Models.KeyStore`). These are classes over the
  `api_keys` table (`Database.Db.keys`). The table maps an id to a row, and a row holds
  the allowed origins as JSON text. `AddKey` writes a row whose id or secret is already
  present as an update and any other row as an insert. The cache is rebuilt from the
  table by `LoadKeys`, which loops over the rows.
- **Gating pipeline** (`Gate` and `Middleware`). `Gate.Decide` is the decision
  `require_api_key` takes. The steps are presence, lookup, validity (with its prioritised
  message), origin (hostname first, remote address only as a fallback) and admit. It
  also covers the catch-all internal error, which the model reaches when the looked-up
  key's stored origins do not decode. `Middleware.RequireApiKey` is the imperative
  decorator body. It is proved to reach exactly that decision and to change the
  counters, the key row and the cache exactly as the decision says.
- **Statistics** (`Database.Db.UpdateStats`, `Models.RegisterRequest`). These update the
  totals row together with the `YYYY-MM-DD` and `YYYY-MM-DD HH` buckets. Requests from
  the captcha endpoint are not counted.
- **Activity log** (`Database.Db.LogActivity` and its neighbours). An entry is written
  only when its details carry a non-empty `nameEn`. Ids come from auto-increment.
  Entries are read newest first, can be limited, can be paged from 1, and can be
  deleted one by one or in bulk.
- **Admin dashboard and routes** (`Dashboard`, `AdminRoutes`). These cover the page count,
  the page window, the seven-day chart, the hour-of-day histogram and the add, edit,
  toggle and bulk-delete routes.
- **Admin forms** (`Forms`). These are the key form and the password-change form.
- **Verification result mapping** (`VerificationMapping`). This covers
  `map_verification_data`, `_format_date`, `_to_title_case_if_latin` and the
  required-field checks of `submit` and `api_verify`.

Supporting modules:

- `Clock`: `strptime`/`strftime` for the formats used.
- `OriginsJson`: `json.dumps`/`json.loads` of a list of strings.
- `Url`: the hostname part of `urlparse`.
- `Text`: splitting on whitespace, joining, lexical order and decimal digits.
- `Values`: JSON-like values and Python truthiness.
- `Wrappers`: `Option` and `Result`.

Inputs from the outside world are parameters:

- the clock (`now`, `today`);
- the fresh ids and secrets that `secrets.token_hex` would draw (`freshId`,
  `freshSecret`, `drawSecret`);
- the request headers, remote address, endpoint and path (`Gate.Request`);
- whether the protected view raised (`handlerError`).

The model follows the code as written, including these behaviours:

- A date-only expiry means midnight at the start of that day, not the end of it.
- The quota message is chosen without the `hit_limit > 0` guard, so an invalid key
  with `hit_limit == 0` is always reported as "exceeded usage limits"
  (`Gate.ZeroLimitReportedExceeded`).
- `log_activity` drops every entry without a `nameEn`, failures included. As a
  consequence the gate never writes an activity row (`Middleware.RequireApiKey`
  ensures that the activities are unchanged).
- The internal-error path counts a failure without passing the endpoint, so it is
  counted even for the captcha endpoint (`Gate.CaptchaCountsOnlyErrors`).
- `delete_user_activity` reports success even when no row had that id.
- `KeyStore.delete_key` answers from the cache, not from the table.
- An update that `add_key` matched by secret under a different id changes no row
  (`Models.AddKeyLostUpdate`).

## Model

| member | source | states |
|---|---|---|
| KeyPolicy.ParseExpiry | models.py:40-51 | a parsed expiry is always a valid calendar date and time |
| KeyPolicy.InactiveNeverValid | models.py:36-37 | an inactive key is invalid whatever its expiry and usage |
| KeyPolicy.UnreadableExpiryInvalid | models.py:44-51 | an expiry that parses in neither format makes the key invalid (fail closed) |
| KeyPolicy.StampExpiry | models.py:40-43 | with a full `date hh:mm:ss AM/PM` expiry, the key is valid iff it is active, the expiry is not before now and it is not over quota |
| KeyPolicy.DayExpiryIsMidnight | models.py:46-49 | a date-only expiry parses to midnight at the start of that day, and validity is decided against that instant |
| KeyPolicy.ValidAtExpiryInstant | models.py:42 | at exactly the expiry instant the key is still valid; at every later instant it is not |
| KeyPolicy.QuotaBoundary | models.py:54-55 | with `hit_limit > 0` and an unexpired active key, valid iff `hits_used < hit_limit` |
| KeyPolicy.ZeroLimitNeverExhausts | models.py:54 | with `hit_limit <= 0` any usage count leaves validity unchanged |
| KeyPolicy.UsageMonotone | models.py:53-55 | a key valid after one more use was valid before it |
| KeyPolicy.ExpiryMonotone | models.py:40-49 | a key valid at a later instant is valid at every earlier one |
| KeyPolicy.OriginRule | models.py:65-69 | an empty origin list admits every origin; otherwise access is exactly list membership |
| Models.ApiKey.constructor | models.py:10-19 | a new key has a fresh id, the given secret or a fresh one when none is given, zero hits and `created_at` stamped from now |
| Models.ApiKey.FromRecord | models.py:83-93 | a key rebuilt from a stored row keeps every stored field (a fresh secret only stands in for an empty one) |
| Models.ApiKey.IncrementUsage | models.py:59-63 | `hits_used` rises by exactly 1, the new value is returned, no other field changes, and only the table's `hits_used` of that id is rewritten |
| Models.Loaded | models.py:83-93 | a row with a non-empty secret loads unchanged |
| Models.Cache | models.py:78-94 | the cache has exactly the table's ids, each mapped to the loaded record of its row |
| Models.CacheIs | models.py:78-94 | any map with the table's ids and the loaded rows is the cache, so the cache is unique |
| Models.BuildCache | models.py:81-94 | the loop over the rows builds exactly `Cache` |
| Models.KeyStore.constructor | models.py:74-76 | a new store over a table whose rows all decode holds the cache of that table, every key under its own id |
| Models.KeyStore.LoadKeys | models.py:78-94 | succeeds iff every row's origins decode, in which case the cache is rebuilt from the table; otherwise the cache is unchanged |
| Models.KeyStore.GetKey | models.py:100-117 | finds the row holding that secret: unknown gives none, an undecodable row gives the error, a found row gives a fresh key object equal to the stored record |
| Models.KeyStore.GetKeys | models.py:119-122 | reloads the cache from the table and returns it |
| Models.KeyStore.AddKey | models.py:124-157 | the table becomes `AddKeyRows` of the key (update by id keeping `created_at`, insert when neither id nor secret is present); it fails exactly on the unique-secret conflict; on success the cache maps the id to the key |
| Models.AddKeyInserts | models.py:140-147 | a key with a new id and new secret is inserted and reads back unchanged |
| Models.AddKeyUpdates | models.py:132-139 | a key whose id exists with its own secret overwrites every field but `created_at`, keeps the ids and leaves every other row alone |
| Models.AddKeyLostUpdate | models.py:129-139 | a key with a new id whose secret another row holds leaves the table unchanged |
| Models.KeyStore.DeleteKey | models.py:159-168 | returns true iff the id is cached, and then removes it from both cache and table; otherwise nothing changes |
| Models.RegisterRequest | models.py:223-234 | the captcha endpoint changes no counter; any other endpoint performs exactly one `update_stats` |
| Models.AddActivity | models.py:246-252 | captcha events and details without `nameEn` write nothing and return none; otherwise exactly one row, holding the key, is appended with the next id |
| Models.GetActivities | models.py:254-259 | returns the Python slice `[(page-1)*per_page : page*per_page]` of the newest-first rows and the full row count |
| Models.PageContents | models.py:257-259 | for `page, per_page >= 1` the page is the rows from `(page-1)*per_page` on, at most `per_page` of them |
| Models.PagePastEnd | models.py:257-259 | a page starting past the end is empty |
| Models.NegativePage | models.py:257-259 | page 0 is empty and page -1 counts from the end, as Python slicing does |
| Models.GetRecentActivities | models.py:261-263 | returns the newest `limit` rows |
| Database.RecordOfRowOf | database.py:156-183 | a record written as a row (origins as JSON) reads back as the same record |
| Database.DecodedIs | database.py:173-183 | `get_all_api_keys` is the unique id-preserving decoding of the table |
| Database.ConsistentAfterWrite | models.py:124-150 | a write that takes no other row's secret keeps ids and secrets unique |
| Database.ConsistentAfterDelete | models.py:159-168 | deleting a row keeps ids and secrets unique |
| Database.RowWithSecretIs | database.py:156-158 | with unique secrets, the row found for a secret is the one holding it |
| Database.LookupSecretFound | database.py:156-165 | a found key carries the looked-up secret and the id and `created_at` of its row |
| Database.UpsertBucket | database.py:220-238 | a bucket upsert starts a new bucket at one request split by outcome, or adds one request to an existing bucket, and touches no other bucket |
| Database.BumpAllConcat | database.py:213-218 | counting two runs of requests equals counting their concatenation |
| Database.UpsertAllConcat | database.py:220-238 | the same for a bucket |
| Database.AfterRequests | database.py:207-242 | each counted request adds exactly one to the running total |
| Database.AfterOneRequest | database.py:207-242 | one counted request bumps the totals, the day bucket and the hour bucket together |
| Database.AfterRequestsConcat | database.py:207-242 | accounting composes over consecutive requests |
| Database.WithoutMembers | database.py:261-293 | deleting ids keeps exactly the rows whose id is not among them |
| Database.WithoutAscending | database.py:261-293 | deletion keeps ids ascending |
| Database.NewestFirst | database.py:297 | newest-first is the stored order reversed |
| Database.NewestFirstDescending | database.py:297 | newest-first rows have strictly descending ids |
| Database.Limited | database.py:298-299 | a positive limit truncates to at most that many rows; none, zero or negative gives all rows |
| Database.Db.constructor | database.py:8-73 | a fresh database has no keys, a zero totals row, no buckets and no activities |
| Database.Db.GetApiKey | database.py:156-165 | finds the row holding the secret; an unknown secret gives none |
| Database.Db.UpdateApiKeyHits | database.py:167-171 | only `hits_used` of that id changes; an unknown id changes nothing |
| Database.Db.UpdateKeyRow | models.py:132-139 | the `UPDATE` of `add_key`: rewrites the row of that id keeping `created_at`, fails on a secret held by another row |
| Database.Db.InsertKeyRow | models.py:140-147 | the `INSERT` of `add_key`: adds the row iff its id and secret are new |
| Database.Db.DeleteKeyRow | models.py:163-164 | removes the row of that id |
| Database.Db.GetAllApiKeys | database.py:173-183 | succeeds iff every stored origin list decodes, returning the decoded table |
| Database.Db.GetStats | database.py:185-205 | returns the totals row and both bucket maps |
| Database.Db.UpdateStats | database.py:207-242 | adds one request to the totals row, the day bucket of now and the hour bucket of now, as a success or a failure |
| Database.Db.LogActivity | database.py:244-259 | details without a non-empty `nameEn` write nothing and return none, whatever `success` is; otherwise exactly one row is appended with id `last + 1`, which is returned |
| Database.Db.DeleteUserActivity | database.py:261-273 | removes the row with that id and reports success even when there was none |
| Database.Db.DeleteUserActivities | database.py:275-293 | a non-empty id list removes exactly those ids; none or an empty list removes every row |
| Database.Db.GetUserActivities | database.py:295-309 | returns the rows newest first, truncated to a positive limit |
| Gate.KeyHeader | middleware.py:10-15 | a present key header is never empty |
| Gate.OriginHeader | middleware.py:54 | Origin, or else Referer, and never an empty string |
| Gate.Denial | middleware.py:36-78 | a key that is refused is refused as invalid, by origin or by address |
| Gate.PassedIff | middleware.py:15-97 | a request passes iff it has a key, the key is found and decodes, is valid and the origin is allowed; the admitted key is the stored one with one more hit; the handler's error is the only other way through |
| Gate.EarlySteps | middleware.py:15-106 | each early exit happens exactly on its condition: no key header, unknown key, failing lookup (internal error) and invalid key |
| Gate.HostnameOnlyChecked | middleware.py:64-70 | once a hostname is parsed the remote address does not matter, and a hostname outside the list is refused with that hostname |
| Gate.AddressFallback | middleware.py:71-78 | without a hostname, a non-empty list admits exactly when the remote address is in it, and otherwise refuses naming the address |
| Gate.EmptyListSkipsOriginCheck | middleware.py:64 | an empty origin list admits a valid key whatever the headers and address |
| Gate.RejectionPriority | middleware.py:36-50 | the message is "exceeded usage limits" iff `hits_used >= hit_limit`, else "deactivated" iff inactive, else "expired" |
| Gate.ZeroLimitReportedExceeded | middleware.py:39-40 | an invalid key with `hit_limit == 0` is never over quota, yet is reported as exceeding its usage limits |
| Gate.Responses | middleware.py:18-106 | 401 for missing or unknown keys, 403 for invalid keys and origin or address refusals, 500 with a generic body for internal errors, the view's response only on admission |
| Gate.CountedOnce | middleware.py:15-106 | outside the captcha endpoint every outcome counts exactly one request (two when the view raises after admission), and a success only when admitted |
| Gate.CaptchaCountsOnlyErrors | middleware.py:101 | on the captcha endpoint only the internal-error path counts, as a failure |
| Gate.AdmitDetails | middleware.py:88-95 | the admission log details carry no `nameEn`, so `log_activity` drops them |
| Gate.FailureDetails | middleware.py:134-142 | the failure log details carry no `nameEn` either |
| Middleware.CountedEffect | models.py:231-234 | counting on the captcha endpoint changes nothing; elsewhere it bumps the totals and both buckets of now |
| Middleware.LogApiFailure | middleware.py:129-142 | a log is attempted iff the path is not `/api/captcha` or `/get_captcha`, and no table changes |
| Middleware.CountFailure | middleware.py:16-17 | counts one failure for the endpoint and changes nothing else |
| Middleware.RequireApiKey | middleware.py:6-109 | the outcome is `Gate.Decide` of the stored table; the response is its response; the counters change exactly by the outcome's counted requests; only an admitted key's row and cache entry change, to one more hit; no activity row is written |
| Middleware.Screen | middleware.py:36-97 | a refused key counts one failure and changes no key; otherwise the key is admitted |
| Middleware.Admit | middleware.py:81-97 | counts one success, stores the key with one more hit and runs the view |
| Middleware.SaveHit | middleware.py:83-84 | `hits_used` becomes old + 1 in the key object, the row and the cache, and nothing else changes |
| Middleware.AdmissionStats | middleware.py:82-101 | counting the success and then the view's failure equals the outcome's counted requests |
| Middleware.RunView | middleware.py:97-101 | the view's error, if any, becomes a handler failure counted as one failure without an endpoint |
| Dashboard.PageCount | admin/routes.py:39 | the page count is the ceiling of total / 10 |
| Dashboard.Range | admin/routes.py:45 | `range(lo, hi)`: the integers from `lo` up to `hi - 1` |
| Dashboard.PageRange | admin/routes.py:43-45 | exactly the integers from `max(1, page-2)` to `min(pages, page+2)`, ascending, at most five, containing the current page when it exists |
| Dashboard.InsertAscending | admin/routes.py:52 | inserting a new day keeps the days in lexical order |
| Dashboard.SortedDays | admin/routes.py:52 | the day keys in ascending lexical order, each exactly once |
| Dashboard.DailyChart | admin/routes.py:51-55 | the last `min(7, days)` days in lexical order, each paired with its total, and every day left out sorts before all those shown |
| Dashboard.ChartWindow | admin/routes.py:53-55 | the appended labels are the tail of the sorted days, each paired with its total |
| Dashboard.LeftOutBelow | admin/routes.py:53 | a day not in the last seven sorts before each of them |
| Dashboard.IndexFrom | admin/routes.py:63-65 | finds the first space at or after a position |
| Dashboard.HourIndex | admin/routes.py:63-67 | a key's hour index, when there is one, lies in 0..23 |
| Dashboard.HourlyHistogram | admin/routes.py:58-69 | 24 slots, slot h holding the summed totals of the buckets whose hour index is h; malformed keys contribute nothing |
| Dashboard.AddToSlot | admin/routes.py:67 | adds the bucket's total to its slot only |
| Dashboard.SlotsAdd | admin/routes.py:62-67 | processing one more bucket adds its total to its hour slot |
| Dashboard.HourIndexOfFormat | admin/routes.py:63-67 | the hour bucket `YYYY-MM-DD HH` written by `update_stats` has hour index HH |
| Dashboard.HistogramBump | admin/routes.py:58-69 | one hour-bucket upsert raises exactly its hour slot by one |
| Dashboard.HistogramCountsRequest | admin/routes.py:58-69 | one counted request raises exactly the slot of the current hour by one |
| Dashboard.PyIntOfDigits | admin/routes.py:65 | `int()` of a digit string is its decimal value |
| Forms.ExpiryErrors | admin/forms.py:17-19 | the date is accepted iff it reads as `%Y-%m-%d`; otherwise the only message is "This field is required.", DataRequired having cleared the parse error |
| Forms.HitLimitErrors | admin/forms.py:21-30 | a limit is accepted iff present and at least 1; a non-integer or 0 counts as missing with the required message alone, and a negative limit gets the minimum message |
| Forms.KeyFormAccepted | admin/forms.py:12-30 | the key form validates iff the owner is not blank, the expiry is a `%Y-%m-%d` date and the limit is at least 1 |
| Forms.DefaultsRead | admin/forms.py:17-22 | the default expiry is the start date + 30 days in `%Y-%m-%d` and the default limit 1000 passes its validator |
| Forms.NewPasswordErrors | admin/forms.py:35 | the new password is accepted iff not blank and at least 6 characters |
| Forms.ConfirmPasswordErrors | admin/forms.py:36-41 | the confirmation is accepted iff not blank, at least 6 characters and equal to the new password; a mismatch reports "Passwords do not match" |
| Forms.PasswordFormAccepted | admin/forms.py:32-41 | the form validates iff the current password is given and the new password has at least 6 characters and is confirmed |
| AdminRoutes.EndOfDay | admin/routes.py:143 | end of day is 23:59:59 of that date, no earlier than any whole second of that day |
| AdminRoutes.NewKeyExpiryText | admin/routes.py:143-144 | a new key's expiry text is the date followed by ` 11:59:59 PM` |
| AdminRoutes.NewKeyExpiryMeaning | admin/routes.py:143-144 | that text reads back as 23:59:59 of the date; the key is expired only after that date, or in its last second's fraction |
| AdminRoutes.AddKeyRoute | admin/routes.py:137-161 | a valid form inserts exactly one key (fresh id, active, zero hits, the form's fields, end-of-day expiry, origins split on whitespace); an invalid form changes nothing |
| AdminRoutes.Edited | admin/routes.py:176-179 | the edit overwrites owner, expiry (midnight as written, the end of the day when corrected), limit and origins and keeps id, secret, `hits_used`, `created_at` and `active` |
| AdminRoutes.EditKeyRoute | admin/routes.py:165-198 | an unknown id is not found and an invalid form re-renders, changing no row; otherwise the edited key is saved through `add_key`, and the cache holds it even when the save raises; with rule `AsWritten` this is the route as the code stands |
| AdminRoutes.SaveEdit | admin/routes.py:176-182 | stores the edited record through `add_key`; succeeds exactly when `add_key` does not raise |
| AdminRoutes.EditSaves | admin/routes.py:176-182 | saving an edit of a stored key never conflicts, keeps the ids, stores exactly the edited record and leaves every other row alone |
| AdminRoutes.EditExpiry | admin/routes.py:177 | the corrected edit expiry is the date followed by ` 11:59:59 PM`, which reads back as the last second of that day |
| AdminRoutes.ResubmitUnchanged | admin/routes.py:172-196 | resubmitting the prefilled form of a key created by `add_key` validates and leaves the key unchanged |
| AdminRoutes.ResubmitAsWrittenMovesExpiry | admin/routes.py:177-196 | as written, resubmitting that form stores midnight of the same date in place of 23:59:59 |
| AdminRoutes.PrefillDate | admin/routes.py:190-194 | the prefilled date is a valid calendar date |
| AdminRoutes.ToggleKeyRoute | admin/routes.py:202-214 | an unknown id returns "API key not found" and changes nothing; otherwise the flipped key is saved and its new `active` returned, and the cache holds the flipped key even when the save raises |
| AdminRoutes.SaveToggle | admin/routes.py:208-209 | stores the key with `active` flipped through `add_key` |
| AdminRoutes.ToggleFlipsOnlyActive | admin/routes.py:204-214 | toggling a stored key never conflicts and flips only `active` of that row |
| AdminRoutes.DeleteActivitiesRoute | admin/routes.py:294-306 | a JSON body with a non-empty `ids` removes exactly those ids; anything else removes every row; success is reported |
| VerificationMapping.TitleCase | app.py:107 | title case keeps the length |
| VerificationMapping.TitleCaseLower | app.py:107 | title case changes only letter case |
| VerificationMapping.TitleCaseWordStarts | app.py:107 | a letter becomes upper case iff it starts a run of letters; other characters are untouched |
| VerificationMapping.TitleCaseIdempotent | app.py:107 | title-casing twice equals title-casing once |
| VerificationMapping.TitleCaseExamples | app.py:107 | "o'neil" becomes "O'Neil" and "MD. RAHIM UDDIN" becomes "Md. Rahim Uddin" |
| VerificationMapping.TitleIfLatin | app.py:102-108 | non-strings and strings without a Latin letter come back unchanged; other strings are title-cased |
| VerificationMapping.MonthFrom | app.py:112 | `%B` matches a month name in any ASCII case and consumes exactly that name; no match means no month name from the starting one on is a prefix |
| VerificationMapping.ParseDmy | app.py:112 | a parsed `%d %B %Y` date is a valid calendar date |
| VerificationMapping.FormatDate | app.py:110-115 | a string that parses as `DD Month YYYY` becomes `DD/MM/YYYY`; anything else is returned unchanged |
| VerificationMapping.MonthFromOf | app.py:112 | a title-case month name is recognised as its own month |
| VerificationMapping.ParseDmyOfLongDate | app.py:112 | every `DD Month YYYY` date parses back to itself |
| VerificationMapping.FormatDateOfLongDate | app.py:110-115 | `_format_date` turns `DD Month YYYY` into `DD/MM/YYYY` of the same date |
| VerificationMapping.FormatDmyNotLatin | app.py:121-124 | a formatted date has no Latin letter, so title case leaves it alone |
| VerificationMapping.OutputKeysDistinct | app.py:125-145 | the 19 output keys are distinct, from `office` to `birthPlaceBn` |
| VerificationMapping.DateSlots | app.py:121 | date formatting applies exactly to Registration Date, Issuance Date, Date of Birth and birthPlaceEn |
| VerificationMapping.MappedBengali | app.py:134-144 | the Bengali fields are copied untransformed, defaulting to "" |
| VerificationMapping.NationalityFallback | app.py:138-142 | the Bengali nationality fields take the first spelling present, then the second, then "" |
| VerificationMapping.MappedEmpty | app.py:118-145 | an empty source maps every field to "" |
| VerificationMapping.MappedDate | app.py:121-143 | a date field holding `DD Month YYYY` is output as `DD/MM/YYYY` under its key |
| VerificationMapping.EnglishDateField | app.py:119-124 | the `get` helper turns a long date into `DD/MM/YYYY` |
| VerificationMapping.SubmitCheck | app.py:201-207 | `submit` proceeds iff the body is an object with truthy `regNumber`, `dob` and `captcha`; otherwise "All fields are required", or a raised error for a non-object body |
| VerificationMapping.ApiVerifyCheck | app.py:449-462 | `api_verify` refuses a falsy body with "Request must include JSON data", a non-empty object missing a field with the missing-fields message, raises for other truthy bodies and proceeds otherwise |
| Url.OriginHostWithScheme | middleware.py:59-60 | a header `scheme://host[:port]path` yields the host |
| Url.OriginHostBare | middleware.py:59-60 | a header without `://` is read as `http://` + header and yields its host |
| Url.NoHeaderNoHost | middleware.py:57 | an empty header yields no hostname |
| Url.HostnameOfPlain | middleware.py:60 | the hostname of `host:port` drops the port |
| OriginsJson.DecodeEncode | database.py:156-183 | `json.loads(json.dumps(origins)) == origins` for every list of strings |
| Text.SplitJoin | admin/routes.py:151-196 | splitting the space-joined origins gives the origins back |
| Clock.ParseStampOfFormat | models.py:40-43 | a `%Y-%m-%d %I:%M:%S %p` stamp parses back to the same second |
| Clock.ParseDayOfFormat | models.py:46-49 | a `%Y-%m-%d` date parses back to the same date |
| Clock.ParseStampOfDay | models.py:40-51 | a date-only text never parses as a full stamp, so it reaches the second format |
| Clock.AddDaysNumber | admin/forms.py:17-19 | adding n days moves the date exactly n days forward |

## Left out

- Browser automation (Selenium): captcha capture, page navigation and result extraction in `app.py` are I/O against a third-party site. The required-field checks before them and the result mapping after them are modelled.
- Flask plumbing: `jsonify`, templates, flashing, redirects and blueprints. The request is an explicit `Gate.Request` value, and responses are `Gate.Response` or route outcomes.
- Admin authentication: `require_admin`, login, logout, profile, password hashing and `UserStore` are session handling and thin SQL wrappers.
- SQLite mechanics: connections, the DDL of `init_db` beyond the zero totals row, and `migrate_data`, which reads files from disk. Tables are maps and sequences in `Database.Db`.
- Concurrency: the read-modify-write of `hits_used` in the gate is not atomic. A sequential model cannot show lost updates, so exactly-once increments are stated for sequential calls only.
- Clock and randomness: `datetime.now()` and `secrets.token_hex` become parameters. Uniqueness of fresh ids and secrets is a precondition of `AdminRoutes.AddKeyRoute`.
- Forms.DefaultsRead: the form default expiry is a class attribute evaluated once at import. The model takes the start date as a parameter.
- Dashboard statistics `keys_near_limit` (float arithmetic), `keys_expiring_soon` (now-dependent), the active-key count and the key-owner map are left out.
- Url.OriginHostWithScheme: covers only plain host names with an optional port. The full `urlparse` (userinfo, IPv6 literals, IDNA) is modelled only as far as `Url.Netloc` and `Url.HostnameOf` go.
- VerificationMapping.TitleCase: models `str.title()` for ASCII letters only. Other letters are treated as uncased, and the Unicode Latin test is reduced to ASCII letters plus the two characters whose lower case is ASCII.
- VerificationMapping.ParseDmy: reads `%B` as English month names in any ASCII case (the C locale). Unicode digits, case folding beyond ASCII and `%d`/`%Y` widths other than the regex alternatives of `strptime` are not modelled.
- Clock.ParseStampOfFormat: requires years from 1000 on. `strftime("%Y")` does not pad smaller years on every platform.
- OriginsJson.Decode: rejects lone surrogate escapes and non-list JSON that `json.loads` would accept. Stored origins are always written by `json.dumps`.
- AdminRoutes.DeleteActivitiesRoute: takes `ids` as an optional list of integers. Other JSON shapes are not modelled.
- Middleware.RequireApiKey: storage calls other than the key lookup are taken to succeed. A sqlite3 error from `update_stats` or `add_key`, which the source answers with a 500 and one more failure count (after a success already counted, when `add_key` raises), is not modelled, so `Gate.CountedOnce` holds only while storage does not fail.
- Models.KeyStore: the cache holds record values, not shared objects. The one visible effect of sharing, that `edit_key` and `toggle_key` change the cached `APIKey` before `add_key` runs, is written out in `AdminRoutes.EditKeyRoute` and `AdminRoutes.ToggleKeyRoute`; no other aliasing is modelled.
- Models.KeyStore.constructor: `KeyStore()` raises when a stored origin list does not decode, and no store is built. The constructor therefore requires that every row decodes and promises nothing for the other case.
- Database.Db.LogActivity: an entry with a `nameEn` and no key breaks the NOT NULL `api_key` column and raises. The model requires a key for such an entry; no caller logs one without a key.
- Models.AddActivity: inherits the same requirement from `log_activity`; the integrity error is not modelled.
- Database.Counts: keeps `successful_requests` and `failed_requests` only. `total_requests` is their sum by definition, so the model does not prove that `update_stats` keeps the stored total in step with them.
- Clock.ParseStamp: reads ASCII digits only. The `\d` of `strptime` also accepts other Unicode decimal digits.
- Dashboard.PyInt: accepts an optional sign and ASCII digits with surrounding whitespace. The underscores and non-ASCII digits that `int()` also accepts are rejected.
- Clock.FormatDay: zero-pads years below 1000 to four digits, as does `VerificationMapping.FormatDmy`. The read-back lemmas such as `Clock.ParseDayOfFormat` hold from year 1000 on.
- OriginsJson.Decode: rejects a list whose elements are not all strings. `json.loads` accepts it and `load_keys` would then carry the values along.
- AdminRoutes.PrefillDate: the fallback date `today + 30` assumes it stays within year 9999.
- VerificationMapping.SubmitCheck: `Raised` stands for the 500 answer of the surrounding `except` block. The failure logging and accounting there are not modelled.

## Findings

| source | as written | input that shows it | evidently intended | confidence | as-written member | corrected member |
|---|---|---|---|---|---|---|
| admin/routes.py:177 | `edit_key` formats the date-only form value with `%Y-%m-%d %I:%M:%S %p`, which gives `… 12:00:00 AM`, the start of the day | a key edited with expiry date 2025-06-30 and checked at noon on 2025-06-30 is already expired | the end of that day, `… 11:59:59 PM`, as `add_key` writes at admin/routes.py:143-144 | not executed | AdminRoutes.EditExpiryAsWritten, AdminRoutes.EditExpiryCounterexample, AdminRoutes.EditExpiryAsWrittenExpiresEarly | AdminRoutes.EditExpiry (rule `Corrected` of AdminRoutes.Edited and AdminRoutes.EditKeyRoute; AdminRoutes.ResubmitUnchanged) |
