# Research Notes Manager: the cache-aside coordinator in Dafny

The notes service keeps its notes in a relational table (the source of truth)
and puts a key/value cache with a 60-second expiry in front of it. Five HTTP
handlers in `backend/server.js` coordinate the two:

- the listing reads the fixed key `all_notes`, and on a miss reads the table
  newest-first and caches the result;
- reading one note reads `note:<id>`, and on a miss reads the row and caches it;
- creating inserts a row and deletes `all_notes`;
- updating refreshes `updated_at`, then overwrites title and content, and
  deletes `note:<id>` and `all_notes`;
- deleting removes the row and deletes both keys.

The model is a sequential state machine. The state holds the table
(`map<nat, Note>`), the id sequence, the cache (`map<string, Entry>`, where each
entry carries its expiry deadline) and a clock in seconds. Each handler is a
pure function from a state to a response and a new state. SQL statements and
cache commands are map operations. JSON serialisation is the identity on the
response body.

Modules:

- `Wrappers` (wrappers.dfy): `Option`.
- `CacheKeys` (keys.dfy): the decimal rendering of ids, `getCacheKey`, and its inverse `ParseKey`.
- `Notes` (notes.dfy): notes, rows and response bodies, and the five SQL statements. `ORDER BY created_at DESC` is a stable insertion sort over an id-order scan.
- `Cache` (cache.dfy): `GET`, `SET … EX 60` and `DEL` with expiry.
- `Coordinator` (coordinator.dfy): the state, the five handler bodies, and a dispatcher over requests and the passing of time.
- `Consistency` (consistency.dfy): the invariant, its preservation by every handler and every history, and what readers observe.
- `RawPaths` (paths.dfy): ids as raw path text, which is the subject of the finding below.

The central invariant is `Consistency.Consistent`. Take any live entry under a
key some handler reads, meaning `all_notes` or `note:<id>` with `<id>` in
canonical decimal. That entry holds what the table would answer for the key
right now:

- for `all_notes`, every row exactly once, newest first;
- for `note:<id>`, exactly that row, and the row exists.

An entry set at time T is live strictly before T + 60. Together with
well-formedness (ids come from the sequence, timestamps never lie in the
future), this invariant survives every handler and every passage of time. It
follows that every read answers exactly what the table holds.

What one might expect of such a service but its code does not do:

- Create does no validation of title or content; whatever the request gives is stored.
- Update is two statements, the timestamp refresh and then the field update. Run one request at a time, they amount to one change. A missing id changes nothing and answers 404.
- `updated_at` becomes the current time. That is no earlier than the old value, but it is not strictly later when no time has passed.
- Cache failures are not swallowed: a failed cache command fails the request. The model treats the cache as infallible and leaves failures out.

## Model

| member | source | states |
|---|---|---|
| CacheKeys.CacheKey | backend/server.js:40 | a note's key is `note:` followed by its id in decimal, and is never `all_notes` |
| CacheKeys.DecimalRoundTrip | backend/server.js:40 | the decimal text in a note key reads back as the id it was written from |
| CacheKeys.CanonicalRoundTrip | backend/server.js:40 | every canonical numeral is the decimal text of the number it denotes |
| CacheKeys.ParseCacheKey | backend/server.js:40 | parsing a note's key gives back its id |
| CacheKeys.ParsedKeyIsCacheKey | backend/server.js:40 | any key that parses to an id is exactly that id's key |
| CacheKeys.CacheKeyInjective | backend/server.js:40 | two ids share a key if and only if they are equal |
| CacheKeys.AllNotesKeyIsNoNoteKey | backend/server.js:44 | the listing key names no note |
| Notes.SortNewestFirst | backend/server.js:50 | the sorted rows are a permutation of the input, newest creation first |
| Notes.SelectAllIsListing | backend/server.js:50 | the listing query returns every row of the table exactly once, newest first, in every state whose ids all lie below the sequence's next value |
| Notes.SelectById | backend/server.js:69-70 | the lookup finds a row exactly when the id is stored, and that row |
| Notes.Insert | backend/server.js:86 | insert adds one row under a fresh id with the given fields and both timestamps at the current time, leaving other rows alone |
| Notes.TouchUpdatedAt | backend/server.js:100 | the timestamp statement changes only `updated_at` of the given id, and nothing when the id is absent |
| Notes.UpdateFields | backend/server.js:101-102 | the field statement returns a row exactly when the id exists, with the new title and content, leaving other rows alone |
| Notes.DeleteById | backend/server.js:118-119 | delete returns a row exactly when the id exists, and removes only that id |
| Cache.Get | backend/server.js:45-46 | a cache read hits exactly when the key holds an unexpired entry, and returns its value |
| Cache.Set | backend/server.js:52 | a cache write stores the value with deadline now + 60, so it is read back until then and not from then on, and touches no other key |
| Cache.Del | backend/server.js:87 | invalidation removes the key, touches no other key, and changes nothing when the key is absent |
| Cache.SetExpires | backend/server.js:74 | a value set at time T is read back before T + 60 and is gone from T + 60 on |
| Cache.DelIdempotent | backend/server.js:105-106 | invalidating a key twice is the same as once |
| Coordinator.GetAll | backend/server.js:43-58 | a live `all_notes` is returned with nothing changed; on a miss the table's listing is returned and cached under `all_notes` until now + 60, no other key changing |
| Coordinator.GetOne | backend/server.js:61-80 | a live `note:id` is returned with nothing changed; on a miss an absent id gives 404 with nothing changed, a present one gives its row, cached until now + 60, no other key changing |
| Coordinator.Create | backend/server.js:83-93 | create answers 201 with the new row, adds exactly one row with the given fields, deletes `all_notes` and leaves every other key, including the new note's, as it was |
| Coordinator.Update | backend/server.js:96-112 | update of a missing id gives 404 with nothing changed; otherwise title, content and `updated_at` are set, `created_at` kept, and exactly `note:id` and `all_notes` are deleted |
| Coordinator.Delete | backend/server.js:115-129 | delete of a missing id gives 404 with nothing changed; otherwise the row is removed and exactly `note:id` and `all_notes` are deleted |
| Consistency.GetAllPreservesInvariant | backend/server.js:43-58 | the listing handler keeps every live entry consistent with the table |
| Consistency.GetOnePreservesInvariant | backend/server.js:61-80 | the single-note handler keeps every live entry consistent with the table |
| Consistency.CreatePreservesInvariant | backend/server.js:83-93 | create keeps every live entry consistent with the table |
| Consistency.UpdatePreservesInvariant | backend/server.js:96-112 | update keeps every live entry consistent with the table |
| Consistency.DeletePreservesInvariant | backend/server.js:115-129 | delete keeps every live entry consistent with the table |
| Consistency.TickPreservesInvariant | backend/server.js:52 | the passing of time keeps the invariant, since entries only expire |
| Consistency.RunPreservesInvariant | backend/server.js:43-129 | any sequence of requests and waits keeps the invariant |
| Consistency.GetAllReadsTable | backend/server.js:45-53 | under the invariant the listing answers exactly the table, newest first, whether it hits or misses |
| Consistency.GetOneReadsTable | backend/server.js:64-75 | under the invariant a note read answers the stored row, or 404 exactly when the id is absent, whether it hits or misses |
| Consistency.NoStaleReads | backend/server.js:43-129 | from an empty start, after any history, both reads answer exactly what the table holds |
| Consistency.CreateThenGetOne | backend/server.js:86-88 | a note read right after its creation has the given fields and equal timestamps |
| Consistency.UpdateThenGetOne | backend/server.js:100-106 | a note read right after its update has the new fields and `updated_at` equal to now, no earlier than before |
| Consistency.DeleteThenGetOne | backend/server.js:118-123 | a note read right after its deletion answers 404 |
| Consistency.CreateShowsInListing | backend/server.js:86-87 | the listing right after a creation contains the new row |
| Consistency.UpdateShowsInListing | backend/server.js:101-106 | the listing right after an update contains the updated row, and every row for the id is that row, so no older version remains |
| Consistency.DeleteShowsInListing | backend/server.js:118-123 | the listing right after a deletion has no row for the id |
| Consistency.CachedNoteExpires | backend/server.js:74 | a note cached by a read at time T is live then and no longer live at T + 60 |
| RawPaths.ParsePathId | backend/server.js:69 | the table reads every non-empty digit string, leading zeros included, as the number it denotes, and nothing else as an id |
| RawPaths.ParsePathIdOfDecimal | backend/server.js:69 | an id written in decimal reads back as itself |
| RawPaths.RawCacheKey | backend/server.js:40 | the key of any segment is never `all_notes`; the key of a canonical segment is the id's note key; the key of any other spelling names no note in the corrected scheme |
| RawPaths.RawCacheKeyInjective | backend/server.js:40 | two path texts give the same key if and only if they are equal |
| RawPaths.GetOneAsWritten | backend/server.js:61-80 | the as-written read keys the cache by the raw segment and looks up the table by its integer value; on a miss for a stored id it caches the row under the raw key until now + 60, no other key changing |
| RawPaths.UpdateAsWritten | backend/server.js:96-112 | the as-written update answers the updated row, keeps the id sequence and clock, and deletes the key of the raw segment and `all_notes`, and nothing else |
| RawPaths.DeleteAsWritten | backend/server.js:115-129 | the as-written delete deletes the key of the raw segment and `all_notes`, and nothing else |
| RawPaths.AliasedSegmentsSplitTheKey | backend/server.js:40 | `5` and `05` denote the same id but give different cache keys |
| RawPaths.StaleReadAsWritten | backend/server.js:61-112 | read as `05`, update as `5`, read as `05`: the second read returns the old title while the table holds the new one |
| RawPaths.AliasedUpdateBreaksInvariant | backend/server.js:96-106 | read as `5`, update as `05`: the live `note:5` keeps the old row, so the consistency invariant fails |
| RawPaths.GetOneByPath | backend/server.js:61-80 | the corrected read of any spelling hits or fills exactly the parsed id's note key, until now + 60, no other key changing; an absent id gives 404 with nothing changed |
| RawPaths.UpdateByPath | backend/server.js:96-112 | the corrected update of any spelling sets the row's fields and timestamp and deletes exactly the parsed id's note key and `all_notes` |
| RawPaths.DeleteByPath | backend/server.js:115-129 | the corrected delete of any spelling removes the row and deletes exactly the parsed id's note key and `all_notes` |
| RawPaths.CanonicalSegmentsAgree | backend/server.js:61-129 | for a canonically spelled segment the as-written and corrected handlers give the same answer and state |
| RawPaths.SpellingDoesNotMatter | backend/server.js:40 | in the corrected handlers two spellings of one id are served identically |
| RawPaths.ByPathPreservesInvariant | backend/server.js:61-129 | the corrected handlers keep the invariant for every path segment |
| RawPaths.ByPathReadsTable | backend/server.js:61-80 | under the invariant a corrected read by any spelling answers the table's row for the parsed id |
| RawPaths.FreshReadByPath | backend/server.js:61-112 | the same three requests through the corrected handlers read the new title |

## Left out

- Server setup, middleware, the root route and the listener (`backend/server.js:1-34`) are transport plumbing.
- The connections to the database and the cache (`backend/server.js:15-25`) are external. The table and the cache are maps here.
- Route registration is left out. The list handler is registered on `notes` without a leading slash (`backend/server.js:43`), so Express would not route `GET /notes` to it. The model covers the handler body.
- Concurrent requests are left out. The model serves one request at a time, so it cannot show a reader refilling a key between another request's write and its invalidation.
- Failures of the database or the cache, and their 500 answers, are left out; the stores are treated as infallible. The one exception is in `RawPaths`: the table rejects a path segment that is not an integer, and that is answered as `Failed`.
- RawPaths.ParsePathId: accepts digit strings only. The database would also accept a sign or surrounding blanks (`-1` answers 404, ` 5` finds row 5), where the model answers `Failed`. Out-of-range values for the 32-bit id column are not rejected.
- Coordinator.GetOne: takes the id as a number and keys by its canonical decimal. The code keys by the path text; the two agree exactly when the segment is canonical (`RawPaths.CanonicalSegmentsAgree`). Other spellings are modelled in `RawPaths`.
- Coordinator.Update: the same assumption of a canonically spelled segment as `Coordinator.GetOne`.
- Coordinator.Delete: the same assumption of a canonically spelled segment as `Coordinator.GetOne`.
- The 32-bit range of the id column is left out. Ids are unbounded naturals.
- JSON serialisation is the identity on the body. A serialised value is never empty text, so every live entry counts as a hit.
- The table schema is not part of this model. Two things are assumed: `created_at` and `updated_at` default to the current time, and the id column is an integer drawn from a sequence that never reuses ids.
- `CURRENT_TIMESTAMP` is the model's clock. Both update statements of one request run at the same clock value.
- Request bodies with a missing `title` or `content` are left out. Such a body would store NULL, or be refused if the schema forbids NULL. Fields are modelled as given strings.
- Redis may hold an expired key for a while, but never returns it. The model keeps expired entries in the map and treats them as absent.
- The React client (`frontend/src/App.jsx`) is presentation.

## Findings

| source | as written | input that shows it | evidently intended | confidence | as-written member | corrected member |
|---|---|---|---|---|---|---|
| backend/server.js:40 | the cache key is `note:` plus the raw path text, while the table compares that text with its integer id, so `5` and `05` reach one row under two keys | `GET /notes/05`, then `PUT /notes/5`, then `GET /notes/05` returns the title from before the update while it is cached (up to 60 s) | one cache key per note, derived from the id the table resolves | medium: not executed; depends on the id column being an integer type | RawPaths.StaleReadAsWritten | RawPaths.ByPathReadsTable |
