# SwiftCargo server core in Dafny

SwiftCargo is a small parcel-tracking service. An admin registers a package and is
given a tracking number. The admin then posts status updates, each of which appends
an event to the package's history. Anyone can track a package by its number. The
tracking reply has every history event enriched with map coordinates, and these come
from a location cache seeded with sixteen hubs plus a geocoding provider queried with
fallbacks.

This project models that core and proves properties of the model:

- `common.dfy` (module `Common`) holds the JavaScript string operations the code
  relies on: `toLowerCase`, `toUpperCase`, `trim`, `split`, `includes`, the
  first-word split, and the order-preserving de-duplication `[...new Set(xs.filter(Boolean))]`.
- `coordinates.dfy` (module `Coordinates`) models `Server/utils/coordinates.js` as
  values:
  - the coordinate validator;
  - the cache as an insertion-ordered map, with its substring lookup and guarded insert;
  - the ordered list of provider queries one name may cause;
  - the effect of resolving one name, and a batch of names, on the result, the cache
    and the queries sent;
  - the format conversions and the distance guard.
- `coordinate_cache.dfy` (module `CoordinateCache`) models the same file as it runs:
  - a `LocationCache` object whose `state` the methods update in place;
  - a `Geocoder` object that logs the queries it receives;
  - `getCoordinates`, `batchGetCoordinates` and their loops as methods, each proved
    equal to the functions of `Coordinates`.
- `admin.dfy` (module `Admin`) models `Server/routes/admin.js`:
  - the `packages` table as a map from tracking number to row, held by a
    `PackageStore` object;
  - each handler (register, update-status, the PUT of package details, delete) as a
    method, specified by a pure `...Outcome` function of the old table;
  - the PUT's SET-clause builder, with a model of the database executing the built
    statement.
- `tracking.dfy` (module `Tracking`) models the tracking route of
  `Server/routes/packages.js`:
  - the parameter check;
  - the loop that collects the locations to geocode;
  - the batch geocode through the shared cache;
  - the enriched response.

The provider is a parameter: a total function `answer` from query text to an optional
`{ lat, lng }`. The clock (`now`) and nanoid's random id (`id`) are parameters of the
handlers.

## Model

| member | source | states |
|---|---|---|
| Common.ToLower | Server/utils/coordinates.js:54 | `toLowerCase` keeps the length and maps each character through LowerChar (ASCII letters lowered, all else kept) |
| Common.ToUpper | Server/routes/admin.js:87 | `toUpperCase` keeps the length and maps each character through UpperChar (ASCII letters raised, all else kept) |
| Common.Trim | Server/utils/coordinates.js:54 | `trim` returns a string no longer than its input that neither starts nor ends with ECMAScript white space |
| Common.TrimSpec | Server/utils/coordinates.js:54 | `trim` only removes characters at the ends: the result occurs in the input with nothing but white space before and after it |
| Common.TrimOffset | Server/utils/coordinates.js:54 | the same with the position made explicit: `trim(s)` is the slice of `s` starting at the returned offset, every character before the offset is white space, and so is every character after the slice |
| Common.TrimUnpadded | Server/utils/coordinates.js:54 | `trim` leaves a string with no white space at either end unchanged |
| Common.SplitJoin | Server/utils/coordinates.js:149 | joining the pieces of `split(',')` with the separator gives back the original string |
| Common.Split | Server/utils/coordinates.js:149 | `split(',')` gives at least one piece, and no piece contains the separator |
| Common.FirstWord | Server/utils/coordinates.js:162 | `split(/[\s,]+/)[0]` is the prefix before the first white-space or comma character; it holds no such character, and it is followed by one unless it is the whole string |
| Common.DistinctNonEmpty | Server/utils/coordinates.js:186 | `[...new Set(xs.filter(Boolean))]` has no repeats, holds exactly the non-empty strings of the input and is no longer than the input |
| Common.DistinctNonEmptyOrder | Server/utils/coordinates.js:186 | the kept strings come in the order of their first occurrence in the input |
| Common.DistinctNonEmptySnoc | Server/routes/packages.js:50-53 | the `push`-unless-`includes` step: one more element is appended exactly when it is non-empty and not yet kept |
| Common.DistinctNonEmptyIdempotent | Server/utils/coordinates.js:186 | de-duplicating an already de-duplicated list changes nothing, so the batch geocoder's de-duplication of the tracking handler's list is a no-op |
| Common.NatToString | Server/routes/admin.js:196-204 | the placeholder number in `$${idx}` is written as a non-empty string of decimal digits |
| Common.NatToStringValue | Server/routes/admin.js:196-204 | the digits `$${idx}` prints denote idx itself (read by the independent `DecimalValue`), with no leading zero |
| Coordinates.IsValidCoordinate | Server/utils/coordinates.js:31-42 | a value is valid iff it is an object whose `lat` and `lng` are finite numbers within [-90, 90] and [-180, 180], bounds included; NaN and the infinities fail |
| Coordinates.ValidCoordAsValue | Server/utils/coordinates.js:31-42 | the range test on a `{ lat, lng }` pair holds iff isValidCoordinate accepts the object the provider builds from it |
| Coordinates.Seed | Server/utils/coordinates.js:7-24 | the startup cache lists the sixteen hubs in declaration order, stores each with its own coordinate, is well formed (keys distinct, every key stored, every value valid) and is inhabited (non-empty, no empty key) |
| Coordinates.SeedKeysUpTo | Server/utils/coordinates.js:7-24 | the hub names listed in declaration order: position i holds the name of the i-th hub |
| Coordinates.SeedCoordsUpTo | Server/utils/coordinates.js:7-24 | the hub coordinates listed in declaration order: position i holds the coordinate of the i-th hub |
| Coordinates.SeedWellFormed | Server/utils/coordinates.js:7-24 | the seeded cache is well formed and inhabited |
| Coordinates.SeedKeysDistinct | Server/utils/coordinates.js:7-24 | the sixteen hub names are pairwise distinct |
| Coordinates.SeedCoordsValid | Server/utils/coordinates.js:7-24 | every seeded coordinate passes isValidCoordinate |
| Coordinates.SeedKeysAtLeastFiveChars | Server/utils/coordinates.js:7-24 | every hub name has at least five characters, so none is empty |
| Coordinates.Normalize | Server/utils/coordinates.js:54 | `toLowerCase().trim()` is no longer than the name, holds no upper-case ASCII letter and has no white space at either end |
| Coordinates.NormalizeIdempotent | Server/utils/coordinates.js:54 | normalizing a normalized name changes nothing, so a key stored under `toLowerCase().trim()` is its own normal form |
| Coordinates.MatchesEmptyOrSelf | Server/utils/coordinates.js:56 | the `find` predicate accepts a key equal to the normalized name, and accepts the empty key for every name |
| Coordinates.SameLengthMatchIsEqual | Server/utils/coordinates.js:56 | between strings of the same length the two-way `includes` test holds iff they are equal |
| Coordinates.FirstMatch | Server/utils/coordinates.js:55-57 | `find` returns the index of a matching key, and no earlier key matches; when it returns nothing, no key matches |
| Coordinates.GetCached | Server/utils/coordinates.js:49-60 | an empty name gives null; a hit is a valid coordinate stored under a non-empty key that contains the normalized name or is contained in it |
| Coordinates.GetCachedFirstMatch | Server/utils/coordinates.js:55-59 | the lookup returns the value of the first matching key in insertion order, even when later keys also match |
| Coordinates.GetCachedMiss | Server/utils/coordinates.js:55-59 | when no key matches the normalized name, the lookup misses |
| Coordinates.GetCachedEmptyKeyMisses | Server/utils/coordinates.js:55-59 | when the first matching key is the empty key, `cacheKey ?` finds it falsy and the lookup returns null |
| Coordinates.BlankNameHitsFirstEntry | Server/utils/coordinates.js:54-59 | a non-empty name that is only white space normalizes to "", which every key contains, so it hits the oldest entry (London in the seeded cache) |
| Coordinates.GetCachedHitAt | Server/utils/coordinates.js:55-59 | when the key at position i matches and no earlier key does, the lookup returns the value stored under that key |
| Coordinates.NoMatch | Server/utils/coordinates.js:56 | a key whose first character does not occur in a longer normalized name does not match it |
| Coordinates.StorableRanges | Server/utils/coordinates.js:68 | cacheCoordinates stores iff the name is non-empty and `lat` and `lng` are finite and within [-90, 90] and [-180, 180] |
| Coordinates.Store | Server/utils/coordinates.js:67-75 | cacheCoordinates leaves the cache unchanged unless the name is non-empty and the coordinate valid, and also when the name normalizes to "__proto__" (the assignment sets the prototype); otherwise it stores the coordinate under the normalized name, appends a new key at the end, changes no other key and keeps the cache well formed |
| Coordinates.Insert | Server/utils/coordinates.js:72-73 | `cache[key] = { ...coords }` adds no own key for "__proto__" and leaves the cache as it was; for any other key it stores the coordinate under the key, keeps every other key's value, appends a new key at the end, leaves an existing key in its place, and keeps the cache well formed |
| Coordinates.CommaParts | Server/utils/coordinates.js:149 | `split(',').map(trim).filter(Boolean)` holds only non-empty parts |
| Coordinates.TrimAll | Server/utils/coordinates.js:149 | `.map(p => p.trim())` trims each piece and keeps the pieces in place |
| Coordinates.NonEmpty | Server/utils/coordinates.js:149 | `.filter(Boolean)` keeps only non-empty strings and never more strings than it is given |
| Coordinates.NonEmptyMembers | Server/utils/coordinates.js:149 | the filter keeps exactly the non-empty strings of its input |
| Coordinates.NonEmptyAppend | Server/utils/coordinates.js:149 | filtering distributes over concatenation, so the kept strings stay in input order |
| Coordinates.CommaPartsSpec | Server/utils/coordinates.js:149 | the parts are exactly the non-empty trimmed pieces of `split(',')`, and none has white space at either end |
| Coordinates.LongParts | Server/utils/coordinates.js:151-152 | the parts the loop actually sends are at most all the parts, and each has three or more characters |
| Coordinates.LongPartsAppend | Server/utils/coordinates.js:151-152 | filtering the long parts distributes over concatenation |
| Coordinates.Queries | Server/utils/coordinates.js:142-169 | the queries a cache miss may send (the full name, then the long comma parts when there are two or more parts, then the first word when longer than two characters) start with the full name, and none is empty |
| Coordinates.AcceptedRanges | Server/utils/coordinates.js:143-165 | `coords && isValidCoordinate(coords)` holds iff an answer came back whose `lat` and `lng` are finite and in range |
| Coordinates.Attempt | Server/utils/coordinates.js:142-169 | sending queries until one is accepted sends a prefix of the list, a non-empty one when the list is non-empty, and finds only valid coordinates |
| Coordinates.AttemptSpec | Server/utils/coordinates.js:142-169 | the attempt stops exactly at the first accepted query, whose answer is the result; when nothing is accepted every query is sent and every answer was rejected |
| Coordinates.AttemptAfterRejections | Server/utils/coordinates.js:142-169 | rejected queries sent first change nothing about what the following queries yield |
| Coordinates.AttemptAppend | Server/utils/coordinates.js:142-169 | attempting `xs + ys` is attempting `xs` and, only when it finds nothing, going on with `ys` |
| Coordinates.AttemptAllRejected | Server/utils/coordinates.js:142-169 | when every answer is rejected, all queries are sent and nothing is found |
| Coordinates.AttemptStopsAt | Server/utils/coordinates.js:142-169 | the first accepted query is the last one sent and its answer is the result |
| Coordinates.AttemptStopsAfter | Server/utils/coordinates.js:151-157 | after rejected queries, an accepted one ends the attempt with its answer |
| Coordinates.Resolve | Server/utils/coordinates.js:130-173 | getCoordinates always leaves a well-formed cache |
| Coordinates.ResolveSpec | Server/utils/coordinates.js:130-173 | getCoordinates returns null with no query for an empty name, and the cached value with no query on a hit; on a miss it sends exactly the queries `Attempt` sends over Queries(name), up to and including the first accepted answer, and returns what that attempt finds; it returns only valid coordinates, changes nothing on failure and otherwise stores the result under the full name |
| Coordinates.ResolveMiss | Server/utils/coordinates.js:140-172 | on a cache miss getCoordinates is the attempt over Queries(name): a found coordinate is stored under the name and returned, and otherwise it returns null and leaves the cache unchanged; the queries sent are those of the attempt |
| Coordinates.ResolveCachesUnderFullName | Server/utils/coordinates.js:142-169 | a name that missed and then resolved is cached under its own normalized form, as a new last key, never under the part or word that succeeded; a name normalizing to "__proto__" leaves the cache unchanged |
| Coordinates.MissMatchesNoKey | Server/utils/coordinates.js:55-59 | in an inhabited cache a lookup misses only when no key matches at all |
| Coordinates.ResolveAgainIsCacheHit | Server/utils/coordinates.js:130-173 | once a name has resolved, resolving it again returns the same coordinate with no provider query and no cache change; a name normalizing to "__proto__" is never cached, so the second call repeats the first, queries included |
| Coordinates.ResolveKeepsInhabited | Server/utils/coordinates.js:67-75 | resolving keeps the cache inhabited: keys are never removed and any added key is non-empty |
| Coordinates.SingleWordQueriedTwice | Server/utils/coordinates.js:142-169 | a one-word name longer than two characters that misses the cache is sent twice, as the full name and as its own first word |
| Coordinates.SplitWithoutSeparator | Server/utils/coordinates.js:149 | a string without the separator splits into itself alone |
| Coordinates.ResolveEach | Server/utils/coordinates.js:188-195 | resolving names one after another leaves a well-formed cache, and records only names from the list, each with a valid coordinate |
| Coordinates.BatchResolve | Server/utils/coordinates.js:180-198 | batchGetCoordinates keeps only non-empty names of the input, each with a valid coordinate, and leaves a well-formed cache; a list with no non-empty name gives `{}` with no query and no cache change |
| Coordinates.ResolveEachResults | Server/utils/coordinates.js:188-195 | each distinct name is in the results exactly when its own resolution succeeded, against the cache left by the names before it, and then it has that coordinate |
| Coordinates.ArrayToCoordinate | Server/utils/coordinates.js:205-219 | a two-element array of numbers becomes `{ lat, lng }` with no range check; anything else gives null |
| Coordinates.CoordinateToArray | Server/utils/coordinates.js:226-232 | a value gives `[lat, lng]` iff it passes isValidCoordinate, else null |
| Coordinates.ArrayRoundTrip | Server/utils/coordinates.js:205-232 | array to object to array gives the array back exactly when it is an in-range `[lat, lng]` pair of finite numbers, and null otherwise |
| Coordinates.CoordinateRoundTrip | Server/utils/coordinates.js:205-232 | object to array to object keeps a valid coordinate's `lat` and `lng` |
| Coordinates.CalculateDistance | Server/utils/coordinates.js:241-257 | the distance is 0 when either endpoint fails isValidCoordinate; otherwise it is the distance formula (a parameter here) applied to the start latitude and longitude and then the end latitude and longitude |
| CoordinateCache.Geocoder.Fetch | Server/utils/coordinates.js:82-123 | an empty query sends nothing and yields null; any other query is sent once, is logged, and yields the provider's answer unchecked |
| CoordinateCache.LocationCache.constructor | Server/utils/coordinates.js:7-24 | the cache object starts as the seeded cache |
| CoordinateCache.LocationCache.CacheCoordinates | Server/utils/coordinates.js:67-75 | returns true iff the name is non-empty and the coordinate valid; the new cache is Store of the old one, still well formed |
| CoordinateCache.LocationCache.GetCoordinates | Server/utils/coordinates.js:130-173 | the returned coordinate, the new cache and the queries sent are exactly those of Resolve on the old cache |
| CoordinateCache.LocationCache.BatchGetCoordinates | Server/utils/coordinates.js:180-198 | the results map, the new cache and the queries sent are exactly those of BatchResolve on the old cache |
| CoordinateCache.LocationCache.ResolveInOrder | Server/utils/coordinates.js:188-195 | the loop over the unique names yields exactly ResolveEach of the old cache: results, cache and query log |
| CoordinateCache.FetchWithFallbacks | Server/utils/coordinates.js:142-169 | the full name, then the fallbacks: the result and the queries sent are those of Attempt over Queries(name) |
| CoordinateCache.FetchFallbacks | Server/utils/coordinates.js:148-169 | the comma parts, then the first word: the result and the queries sent are those of Attempt over the fallback queries |
| CoordinateCache.QueriesAfterName | Server/utils/coordinates.js:148-169 | after the full name, the queries are the long comma parts (only when there are two or more parts) and then the first word (only when it is longer than two characters) |
| CoordinateCache.FetchParts | Server/utils/coordinates.js:150-159 | the loop over the comma parts skips short parts and stops at the first valid answer: its result and queries are those of Attempt over LongParts |
| CoordinateCache.LongPartsStep | Server/utils/coordinates.js:151-152 | moving past one part adds it to the queries sent exactly when it has three or more characters |
| CoordinateCache.FetchWord | Server/utils/coordinates.js:161-169 | the first word is sent only when longer than two characters, and its answer is kept only when valid |
| CoordinateCache.NewYorkHitsSeed | Server/utils/coordinates.js:49-60 | "New York, NY" hits the seeded hub "new york" and gets (40.7128, -74.0060) |
| CoordinateCache.LondonTwice | Server/utils/coordinates.js:180-198 | a batch of "London" twice on the seeded cache gives one entry, the seeded London coordinate, with no query and no cache change |
| CoordinateCache.ResolveEachSingle | Server/utils/coordinates.js:188-195 | a batch of one name records that name's resolution: its coordinate when found, the cache it leaves and the queries it sends |
| CoordinateCache.ResolveEachCacheHit | Server/utils/coordinates.js:188-195 | a batch of one name the cache already holds records the cached coordinate, sends no query and leaves the cache unchanged |
| Admin.EmptyIsNoStatus | Server/routes/admin.js:40 | no listed status is the empty string |
| Admin.ValidRegisterBody | Server/routes/admin.js:23-36 | the register schema accepts a body iff the update schema accepts the sender, receiver and shipment sections built from its flat fields |
| Admin.ValidStatusBody | Server/routes/admin.js:38-43 | a body the status schema accepts has a non-empty tracking number, status and location |
| Admin.ValidUpdateBody | Server/routes/admin.js:45-49 | every section is optional: the update schema accepts a body with no section |
| Admin.TrackingNumberFor | Server/routes/admin.js:87 | the number is "SC" followed by the id, upper-cased character by character |
| Admin.TrackingNumberShape | Server/routes/admin.js:87 | a number from a nanoid id is "SC" followed by ten characters, which are the id's upper-cased: letters, digits, '_' or '-', and no lower-case letter |
| Admin.NewPackage | Server/routes/admin.js:66-111 | the inserted row has the new number, the three sections as given, status "pending", the origin as location and one "Package Registered" entry at the origin with the given time |
| Admin.RegisterOutcome | Server/routes/admin.js:63-120 | 201 iff the body is valid and the new number is free; otherwise the table is unchanged; on 201 exactly the new row is added: status "pending", location the origin, and one "Package Registered" history entry at the origin |
| Admin.AppendHistory | Server/routes/admin.js:148 | `history \|\| $3::jsonb` appends the entry at the end of a non-null history, and a NULL history stays NULL |
| Admin.UpdateStatusOutcome | Server/routes/admin.js:125-170 | 400 for an invalid body, 404 for an unknown number (table unchanged), otherwise 200 with the status message; only that row changes: new status and location, history appended |
| Admin.UpdateStatusAppendsOne | Server/routes/admin.js:131-152 | a successful update adds exactly one entry at the end of the history, with the given timestamp, and the row's status and location are that entry's |
| Admin.Supplied | Server/routes/admin.js:196-198 | the columns set are at most three, and each one is listed iff its section is in the body |
| Admin.BuildUpdate | Server/routes/admin.js:193-198 | one SET part per supplied section, in the order sender, receiver, shipmentinfo, with placeholder j+1 naming value j (that section's JSON); `idx` is the next free placeholder |
| Admin.FullUpdateSetParts | Server/routes/admin.js:193-205 | with all three sections supplied the SET parts render as `sender = $1::jsonb`, `receiver = $2::jsonb`, `shipmentinfo = $3::jsonb`, and the WHERE placeholder is `$4` |
| Admin.RenderedSetParts | Server/routes/admin.js:196-198 | each column's SET part renders as `sender = $1::jsonb`, `receiver = $2::jsonb` and `shipmentinfo = $3::jsonb` at its place in a full update |
| Admin.RunUpdate | Server/routes/admin.js:204-209 | the database runs the UPDATE only when the WHERE placeholder names the last bound value and that value is text; it then reports 1 row when that number exists and 0 otherwise, changes no other row, and never adds or removes a row |
| Admin.Replace | Server/routes/admin.js:204 | the PUT never changes the tracking number, status, location or history |
| Admin.UpdateDetailsOutcome | Server/routes/admin.js:188-218 | 200 iff the body is valid, supplies a section and the number exists; 400 "No updatable fields provided." for an empty valid body; otherwise the table is unchanged; on 200 only that row changes, with the supplied sections replaced whole |
| Admin.RunBuiltUpdate | Server/routes/admin.js:204-210 | the database, running the statement BuildUpdate numbers with the tracking number bound last, changes one row exactly as UpdateDetailsOutcome says, or reports 0 rows for an unknown number; it never fails on a parameter mismatch |
| Admin.ApplySupplied | Server/routes/admin.js:196-206 | applying the built SET parts to a row replaces exactly the supplied sections |
| Admin.AssignSupplied | Server/routes/admin.js:196-198 | the database sets a supplied column from the JSON the handler binds for it |
| Admin.SetSuppliedIsReplace | Server/routes/admin.js:196-206 | setting the supplied columns one after another replaces exactly the supplied sections |
| Admin.SetColumnsFields | Server/routes/admin.js:196-198 | setting a list of columns sets exactly the listed columns and leaves every other field alone |
| Admin.DeleteOutcome | Server/routes/admin.js:223-236 | 200 iff the number exists, and then exactly that row is removed; 404 with the table unchanged otherwise |
| Admin.RegisterThenDelete | Server/routes/admin.js:226-231 | deleting a package just registered, under the number register answered with, gives 200 and the original table |
| Admin.RegisterKeepsTableValid | Server/routes/admin.js:87-112 | register keeps every row filed under its own number, with a listed status, a non-empty location and a non-empty history |
| Admin.UpdateStatusKeepsTableValid | Server/routes/admin.js:143-152 | update-status keeps that row invariant |
| Admin.UpdateDetailsKeepsTableValid | Server/routes/admin.js:196-206 | the PUT keeps that row invariant |
| Admin.DeleteKeepsTableValid | Server/routes/admin.js:226 | delete keeps that row invariant |
| Admin.PackageStore.Register | Server/routes/admin.js:63-120 | the reply and the new table are those of RegisterOutcome on the old table; the row invariant is kept |
| Admin.PackageStore.UpdateStatus | Server/routes/admin.js:125-170 | the reply and the new table are those of UpdateStatusOutcome; the row invariant is kept |
| Admin.PackageStore.UpdateDetails | Server/routes/admin.js:188-218 | building the statement and running it gives the reply and the table of UpdateDetailsOutcome; the row invariant is kept |
| Admin.PackageStore.Delete | Server/routes/admin.js:223-236 | the reply and the new table are those of DeleteOutcome; the row invariant is kept |
| Tracking.IsAlphanumeric | Server/routes/packages.js:10 | a parameter `alphanum()` accepts holds neither '_' nor '-' |
| Tracking.AlphanumRejectsRegisteredNumbers | Server/routes/packages.js:9-11 | as written, the route accepts an issued number iff its nanoid id has neither '_' nor '-' |
| Tracking.AlphanumRejectsUnderscore | Server/routes/packages.js:10 | the id "abc_123-xy" is a possible nanoid, yet its number "SCABC_123-XY" is refused by `alphanum()` |
| Tracking.IsTrackingParam | Server/routes/packages.js:10 | the corrected check accepts everything `alphanum()` accepts, and beyond that only strings holding '_' or '-' |
| Tracking.RegisteredNumbersPass | Server/routes/packages.js:9-11 | with the corrected check, every number register can issue is accepted |
| Tracking.Locations | Server/routes/packages.js:50-53 | `item.location` of each history entry, in history order |
| Tracking.LocationsToGeocode | Server/routes/packages.js:49-59 | the list has no repeats and holds exactly the non-empty history locations and the current location |
| Tracking.LocationsToGeocodeSpec | Server/routes/packages.js:49-59 | the collected list has no repeats and holds exactly the non-empty history locations and current location; the current location comes last, and only when no history entry names it |
| Tracking.CollectLocations | Server/routes/packages.js:49-59 | the two `push`-unless-`includes` loops produce exactly LocationsToGeocode |
| Tracking.OrNull | Server/routes/packages.js:78-79 | `v \|\| null` is non-null iff `v` is a non-empty string, and is then `v` |
| Tracking.PropertyKey | Server/routes/packages.js:80 | `coordinateMap[row.location]` with a NULL location reads the property "null"; otherwise the location itself |
| Tracking.Enrich | Server/routes/packages.js:67-70 | every history entry is kept in order; it gets a coordinate iff its location is in the map, and then the one stored there |
| Tracking.Respond | Server/routes/packages.js:73-82 | the response copies the number and the three sections, gives a falsy status or location as null, has a top-level coordinate iff the map holds the current location (the key "null" when it is NULL) and then that value, and its history is the enriched row history |
| Tracking.TrackOutcome | Server/routes/packages.js:32-89 | 400 iff the parameter is refused; 404 iff it is accepted and the number is absent; neither touches the cache nor queries the provider; the cache stays well formed |
| Tracking.GeocodeRow | Server/routes/packages.js:61-64 | the batch, skipped when there is no location, keeps the cache well formed and returns only non-empty locations of the row, each with a valid coordinate |
| Tracking.TrackedResponse | Server/routes/packages.js:45-82 | a 200 describes the row filed under the number: same number, status and location, the whole history in order, and coordinates only on entries with a non-empty location, all valid |
| Tracking.RespondKeepsRow | Server/routes/packages.js:67-82 | with a map of non-empty names to valid coordinates, the response keeps the history in order and adds only valid coordinates, only to entries with a location |
| Tracking.RegisteredPackageIsTracked | Server/routes/admin.js:87-115 | the tracking route finds a package just registered under the number register answered with: pending, at its origin, with one history entry |
| Tracking.Track | Server/routes/packages.js:32-89 | the reply, the new cache and the queries sent are those of TrackOutcome on the table and the old cache; the batch geocoder runs only when there is a location |

## Left out

- The HTTP layer (Express routing, JSON bodies, status lines) and the validation
  middleware's messages are not modelled. A refused body is the single reply `Invalid`.
- Joi's schema checks are modelled only as "required non-empty string", "positive
  number" and "listed status". Left out: e-mail syntax, ISO dates, number conversion
  from strings, and the refusal of unknown keys.
- The Nominatim request is the `answer` parameter. Left out: URL building, the
  5-second timeout, `parseFloat` of the reply, and `console` logging.
- The 100 ms delay before each name in `batchGetCoordinates` is not modelled. Timing
  is not observable in this model.
- The JavaScript type guards (`typeof ... !== 'string'`, `Array.isArray`) are not
  modelled. Names are always strings here, and "" is the only falsy name.
- Common.ToLower: `toLowerCase` is modelled on ASCII letters only. Strings are
  sequences of code points, not UTF-16 code units. `toUpperCase` is modelled the
  same way, which is exact on nanoid's alphabet, the only text it is applied to.
- `Object.keys` lists integer-like keys (such as "10001") before all others. The
  cache model keeps plain insertion order.
- The cache is one shared object. Concurrent requests interleaving their awaits are
  not modelled: each handler runs to completion.
- The tracking number is assumed to be the table's primary key. Inserting a number
  already present is the database error answered 500. Other database failures
  (connection loss, a failing COMMIT) are not modelled, and neither is the rollback's
  effect beyond "no change".
- nanoid's randomness and the clock are parameters (`id`, `now`). `IsNanoid` states
  only nanoid's alphabet and length.
- Admin.FullUpdateSetParts: the statement is modelled by its SET parts and
  placeholder numbers. The text `UPDATE packages SET ... WHERE trackingnumber = $n`
  is not assembled and compared as one string.
- Coordinates.Resolve: its own contract states only that the cache stays well
  formed. The full behaviour is stated by `Coordinates.ResolveSpec`.
- GET /admin/packages (the listing), POST /contact, `index.js`, `db.js` and the client
  files are not part of this model.
- History entries always have a string location here. An entry without a location,
  which only a hand-edited row could have, is not modelled.
- The `getCoordinates` fallback sends the first word even when it equals the full name
  (see `Coordinates.SingleWordQueriedTwice`). The delay runs before cache hits as well.
  Both follow the code.
- Tracking.TrackOutcome: applies the corrected parameter check `IsTrackingParam`
  (see Findings), not `alphanum()` as written (`Tracking.IsAlphanumeric`).
- Tracking.Track: follows `Tracking.TrackOutcome`, so it applies the corrected
  parameter check too, not `alphanum()` as written.
- Tracking.RegisteredPackageIsTracked: holds with the corrected check. With the check
  as written it holds only for ids without '_' or '-' (see
  `Tracking.AlphanumRejectsRegisteredNumbers`).
- Tracking.Enrich: `coordinateMap` is a plain object, so `coordinateMap[item.location]`
  also reads inherited properties. A location named "constructor", or "__proto__" when it
  was not geocoded, would get a non-coordinate value there. The model's map holds only the geocoded names.
- Coordinates.ResolveEach: `results[location] = coords` for the location "__proto__"
  sets the prototype of `results` instead of adding an own key. Its only reader,
  `coordinateMap[item.location]`, reads that coordinate back, so the model keeps it
  as an ordinary entry.
- Coordinates.CalculateDistance: the Haversine arithmetic (R = 6371 km, `sin`, `cos`,
  `atan2` in floating point) is the parameter `haversine`. Only the validity guard and
  the arguments passed to the formula are modelled.

## Findings

| source | as written | input that shows it | evidently intended | confidence | as-written member | corrected member |
|---|---|---|---|---|---|---|
| Server/routes/packages.js:10 | the tracking route accepts only `alphanum()` parameters, but register issues `SC` + `nanoid(10).toUpperCase()` (admin.js:87), and nanoid's alphabet includes '_' and '-' | id "abc_123-xy" gives number "SCABC_123-XY", which register answers 201 and the tracking route answers 400 (about 27% of ids hold '_' or '-') | every number register issues is accepted: letters, digits, '_' and '-' | not executed | Tracking.AlphanumRejectsUnderscore | Tracking.RegisteredNumbersPass |
