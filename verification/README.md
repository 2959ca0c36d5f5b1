# GridX1 core in Dafny

GridX1 is a power-grid monitoring system. Simulated zones post telemetry to a
small Express backend. The backend keeps:

- the latest snapshot per zone;
- a protection record per zone (auto-protect enabled, isolated, last action);
- a 30-day event log.

It isolates a protected zone automatically when its telemetry shows a line
break. It persists the protection records and the log to two JSON files.
Three front-end pages read this data:

- the raw-telemetry page filters the live table, exports it as CSV, and
  reports status changes back to the server as log entries;
- the logs page filters and exports the event log;
- the analysis page normalises the logs and counts outages per substation,
  day, status and zone, then ranks them.

This project models those pieces as pure functions over immutable data and
proves what they promise.

| file | module | what it models |
|---|---|---|
| `js.dfy` | `Js` | JavaScript values (arrays included) and the operators the code relies on: truthiness, `\|\|`, `??`, `===`, `String(v)`, ASCII `toLowerCase`, `trim`, `includes`, `startsWith` |
| `wrappers.dfy` | `Wrappers` | `Option` |
| `seqs.dfy` | `Seqs` | `Array.prototype.filter`, subsequences, sums, `slice(0, n)` |
| `tally.dfy` | `Tally` | plain objects used as counters (`m[k] = (m[k] \|\| 0) + 1`), as insertion-ordered association lists |
| `sorting.dfy` | `Sorting` | a stable descending sort followed by `slice(0, k)` |
| `logstore.dfy` | `LogStore` | log entries, the retention trim, and the time-range query |
| `apikey.dfy` | `ApiKey` | the shared-secret gate in front of the control routes |
| `server.dfy` | `Server` | `POST /telemetry`, `POST /protect`, `POST /simulate-break` and `POST /logs` as state transitions, with the on-disk copies |
| `summary.dfy` | `Summary` | `GET /logs/summary` |
| `csv.dfy` | `Csv` | the `esc` function both export pages use, the line/record joining, and a reader for that dialect (section 2 of RFC 4180, rules 6 and 7) |
| `rawdata.dfy` | `RawData` | the raw-telemetry page: `rowsToCSV`, `filteredRows`, `reportFaults` |
| `logspage.dfy` | `LogsPage` | the logs page: `filtered` and `csv` |
| `analysis.dfy` | `Analysis` | the analysis page: normalisation, `outagesList`, `filtered`, the four counters, `topSubstations`, `recentCritical` |

Representation choices:

- **Zone keys.** The server's zone maps are keyed by `String(zoneId)`, which
  is what a JavaScript object key is. A log entry keeps the zone value itself.
  A map here starts empty: it has no inherited members, so a key that names a
  member of `Object.prototype` (`constructor`, `toString`, `__proto__`) reads
  as absent. The source differs for such keys; see "Left out".
- **Time.** Time is an integer count of milliseconds, and the current time is
  a parameter.
- **Date parsing.** Parsing a request's date string is a parameter
  `parseTime` that may fail. The ISO strings the server writes are the same
  millisecond values.
- **Days.** A UTC calendar day is `ms / 86400000`. This floors, so it is the
  date part of `toISOString()` for the years 0 to 9999 (see "Left out").
- **Persistence.** Each state carries a `Disk` value: what `autoProtect.json`
  and `logs.json` last received. A persist call copies the in-memory store
  into it.

## Model

| member | source | states |
|---|---|---|
| ApiKey.PresentedKey | backend/server.js:77 | The key a request presents is a non-empty `x-api-key`; failing that, when `authorization` starts with `Bearer `, exactly the text after that prefix; otherwise there is none. |
| ApiKey.Check | backend/server.js:76-84 | The request passes exactly when a key is configured and the presented key equals it. A missing configured key gives 500 whatever the request carries. Every other refusal is 403. |
| ApiKey.XApiKeyTakesPrecedence | backend/server.js:77-82 | A wrong non-empty `x-api-key` is refused even when the bearer token is correct. |
| ApiKey.BearerAccepted | backend/server.js:77-83 | A correct bearer token passes when `x-api-key` is absent or empty. |
| LogStore.TrimOld | backend/server.js:113-116 | The trim keeps exactly the entries no older than 30 days, in their order and with their multiplicities. |
| LogStore.TrimOldIdempotent | backend/server.js:113-116 | Trimming twice at one moment is the same as trimming once. |
| LogStore.TrimOldLater | backend/server.js:113-116 | A later trim subsumes an earlier one. |
| LogStore.Append | backend/server.js:154-155 | Push-then-trim equals the trimmed old log followed by the new entry when that entry is within the window. |
| LogStore.AppendRetention | backend/server.js:228-229 | After an append, an entry is present exactly when it was there before or is the new one, and it is within the window. |
| LogStore.Query | backend/server.js:236-248 | `GET /logs` returns the stored entries within both inclusive bounds, in stored order and with their multiplicities; no other entry appears. An unparsable bound matches nothing. |
| LogStore.QueryUnbounded | backend/server.js:238-247 | Without bounds the whole log is returned. |
| Server.Receipt | backend/server.js:131-134 | The stored snapshot has the payload's fields plus `receivedAt`. A `receivedAt` in the payload wins over the server's clock. |
| Server.PostTelemetry | backend/server.js:121-165 | The request is refused with 400 exactly when neither `zoneId` nor `id` is truthy, and then nothing changes. Otherwise: the snapshot is replaced; the zone's record exists afterwards; isolation happens exactly when a break hits an enabled, non-isolated zone; one fault entry is appended only then; other zones are untouched. |
| Server.IsolateZone | backend/server.js:144-160 | The isolating branch isolates the record, appends one fault entry after trimming, and leaves both files equal to memory. |
| Server.KeepZone | backend/server.js:136-143 | The non-isolating branch stores the snapshot and the log is untouched. The record file is rewritten only when the zone's record was just created. |
| Server.BreakPredicateCases | backend/server.js:144 | Each break signal works alone: `status === 'broken'`, `current === 0`, or a truthy `breakDetected`, including the string "false". A healthy reading and a string `"0"` current are not breaks. |
| Server.IsolationAtMostOnce | backend/server.js:145-162 | After a report that isolates a zone, a second report for that zone changes neither its record nor the log. |
| Server.TelemetryKeepsIsolation | backend/server.js:137-162 | Telemetry never clears an isolation. |
| Server.SnapshotOverwrite | backend/server.js:136 | After two payloads for one zone, only the second one's snapshot is stored. |
| Server.PostProtect | backend/server.js:173-186 | A refused gate or a falsy `zoneId` changes nothing. Otherwise the record exists, with `enabled` set to the truthiness of `enabled`. Disabling clears the isolation and stamps the time; enabling keeps both. Other zones, the snapshots and the log are untouched. |
| Server.DisableClearsIsolation | backend/server.js:178-181 | Disabling an isolated zone un-isolates it at `now`. |
| Server.ProtectNeedsKey | backend/server.js:76-84 | With a key configured and none presented, the reply is 403 and the state is unchanged. |
| Server.PostSimulateBreak | backend/server.js:189-215 | The simulation isolates exactly an enabled, non-isolated zone, appending one entry after trimming; otherwise the log is untouched. The reply carries the zone's record. |
| Server.SimulateBreakMatchesTelemetry | backend/server.js:189-215 | A simulated break has the same effect on snapshots and records as `POST /telemetry` fed the synthesised payload. Its log entry is the same but for the message. |
| Server.SimulateBreakLeavesFreshRecordUnsaved | backend/server.js:199-214 | A simulation on a zone without a record that does not isolate leaves the new record unsaved: memory and disk diverge. |
| Server.PostLog | backend/server.js:218-233 | The reply is 400 exactly when `zone` is falsy, and 500 when a given `time` does not parse. Otherwise it is 200: a truthy `substation`, `status` or `message` is stored as given and a truthy `time` as the instant it parses to; a falsy one gets its default (`null` substation, `fault` status, empty message, current time). The entry is appended with the retention trim. |
| Server.StaleEntryGoneAfterAppend | backend/server.js:227-229 | After a successful append no entry older than 30 days remains. |
| Server.TelemetryKeepsDiskSynced | backend/server.js:138-160 | `POST /telemetry` keeps both files equal to memory. |
| Server.ProtectKeepsDiskSynced | backend/server.js:184-185 | `POST /protect` keeps both files equal to memory. |
| Server.LogKeepsDiskSynced | backend/server.js:228-230 | `POST /logs` keeps both files equal to memory. |
| Server.SimulateBreakKeepsDiskSynced | backend/server.js:198-213 | `POST /simulate-break` keeps both files equal to memory when the zone already had a record. |
| Summary.Countdown | backend/server.js:257 | The counter of `for (i = start; i >= 0; i--)` takes `start + 1` values, from `start` down to 0, and none when `start` is negative. |
| Summary.DayCount | backend/server.js:252-257 | The day list has as many entries as the `for` loop makes iterations: 30 for an absent `days`, the parsed count when it is positive, none for a count below one or `NaN`. |
| Summary.DayList | backend/server.js:256-260 | The j-th day pushed is `now - i` days for the loop's j-th counter value `i`: the N consecutive days ending today, oldest first, all distinct. |
| Summary.Summarize | backend/server.js:251-271 | The reply has N consecutive days ending today. It has one row per zone with an entry on one of those days, and no other rows. Each row counts, per listed day, that zone's entries on that day, and its total is the sum of its counts. Each row shows the zone value of its zone's first entry on a listed day. |
| Summary.FirstZoneIsFirstHit | backend/server.js:263-266 | The zone value a row keeps is that of the log's first entry dated on a listed day whose zone has the row's key; there is none exactly when no entry hits. |
| Summary.AccumulateZones | backend/server.js:262-268 | After any prefix of the log, each zone record holds its key's first zone value, and no key without a record has a hitting entry. |
| Summary.OneEntryToday | backend/server.js:251-271 | One fault entry for zone A dated today, summarised over three days, gives the row `[0, 0, 1]` with total 1. |
| Summary.OutOfWindowIgnored | backend/server.js:264 | An entry dated outside the listed days changes nothing in the reply. |
| Csv.DoubleQuotes | frontend/src/pages/RawData.jsx:75 | After the `"` to `""` replacement every quote is paired, and a text without quotes is unchanged. |
| Csv.Esc | frontend/src/pages/RawData.jsx:72-76 | `null` and `undefined` become empty. A text without `,`, newline or `"` is written as is. Any other text is wrapped in quotes with its inner quotes paired. |
| Csv.EscNumberIsPlain | frontend/src/pages/RawData.jsx:72-76 | A number is never quoted. |
| Csv.EscArrayIsQuoted | frontend/src/pages/RawData.jsx:72-76 | An array of two quote-free text elements is written as them joined by a comma, in quotes. (An empty or one-element array has no comma and is not quoted.) |
| Csv.EscLeavesCarriageReturnBare | frontend/src/pages/RawData.jsx:75 | A carriage return alone does not cause quoting. |
| Csv.DecodeEncode | frontend/src/pages/RawData.jsx:72-93 | Escaping and joining records is invertible: reading the text back yields the records, for every non-empty table whose records each hold at least one field. |
| RawData.RowsToCsv | frontend/src/pages/RawData.jsx:78-93 | Read back, the export is the header record followed by one record per row, holding that row's eight column texts (empty when absent). With no rows it is the header line alone. |
| RawData.FilteredRows | frontend/src/pages/RawData.jsx:301-309 | A row is shown exactly when it passes the zone selector, the lower-cased status selector and the trimmed, lower-cased search over substation and zone. Table order is kept, and each shown row keeps its multiplicity. |
| RawData.FilteredRowsShowsAll | frontend/src/pages/RawData.jsx:301-309 | With both selectors on `all` and a blank search box every row is shown. |
| RawData.CapitalisedStatusFilterMatchesNothing | frontend/src/pages/RawData.jsx:305 | A status filter holding a capital letter matches no row, because the status is lower-cased before the comparison. |
| RawData.ReportAll | frontend/src/pages/RawData.jsx:236-253 | The loop over the rows makes one decision per row, and a row is posted only when its status is fault or warning. |
| RawData.ReportFaults | frontend/src/pages/RawData.jsx:234-235 | A non-array argument changes nothing. Otherwise each row gets one decision, and only fault or warning rows are posted. |
| RawData.RecordedAfter | frontend/src/pages/RawData.jsx:237-240 | After one row, the last-status map reads that row's status under its key and is unchanged elsewhere. |
| RawData.ReportAllRecords | frontend/src/pages/RawData.jsx:236-253 | Afterwards the last-status map holds, for every key, the status of the last row with that key. |
| RawData.ReportAllPosts | frontend/src/pages/RawData.jsx:236-253 | A row is posted exactly when its status is fault or warning and differs from the status recorded for its key when the loop reaches it. |
| RawData.ReReportPostsNothing | frontend/src/pages/RawData.jsx:237-240 | Reporting the same list of distinct rows again posts nothing and leaves the map unchanged. |
| RawData.FirstReportPostsAlerts | frontend/src/pages/RawData.jsx:236-243 | On the first report of distinct rows, exactly the fault and warning rows are posted. |
| RawData.DuplicateKeyPostsAgain | frontend/src/pages/RawData.jsx:237-240 | With two rows under one key, a second report of the same list posts the first row again. |
| RawData.KeysCanCollide | frontend/src/pages/RawData.jsx:237 | Two rows with different zones can share one `zone::substation` key. |
| LogsPage.Filtered | frontend/src/pages/Logs.jsx:60-67 | With every field read through `String`: an entry is shown exactly when it passes the lower-cased status selector and the trimmed, lower-cased search over zone, substation and message. List order is kept, and each shown entry keeps its multiplicity. |
| LogsPage.FilteredShowsAll | frontend/src/pages/Logs.jsx:60-67 | With status `all` and a blank search box the whole list is shown. |
| LogsPage.LowerOrThrow | frontend/src/pages/Logs.jsx:65 | `(v \|\| '').toLowerCase()` throws exactly for a truthy non-string. Otherwise it agrees with the `String` form. |
| LogsPage.FilteredAsWritten | frontend/src/pages/Logs.jsx:60-67 | The filter as written fails (the render aborts) exactly when its callback throws for some entry. Otherwise it keeps, in order and with their multiplicities, exactly the entries the callback accepts. |
| LogsPage.AsWrittenAgreesOnText | frontend/src/pages/Logs.jsx:60-67 | When every zone, substation and message is text or falsy, the filter as written does not throw and shows exactly what `Filtered` shows. |
| LogsPage.NumericZoneBreaksSearch | frontend/src/pages/Logs.jsx:65 | The server stores a numeric zone from `POST /logs`. Searching for "x" then makes the filter as written throw, while `Filtered` shows nothing. |
| LogsPage.LogsCsv | frontend/src/pages/Logs.jsx:69-75 | Read back, the export is the `Time,Message` header followed by one record per entry of the whole list: its time, empty only when `null` or `undefined`, and its message, empty when falsy. |
| Analysis.Normalize | frontend/src/pages/Analysis.jsx:52-60 | Status defaults to `ok` and message to empty; both are kept when present. Each identifier prefers its own field, then the shared one, then its partner. An identifier is truthy exactly when one of its three sources is. |
| Analysis.ServerEntryNormalized | frontend/src/pages/Analysis.jsx:52-60 | For a server log entry, both zone identifiers are the entry's zone, and both substation identifiers are its substation when it has one. |
| Analysis.OutagesList | frontend/src/pages/Analysis.jsx:61 | Exactly the normalised logs whose status is `fault` or `warning`, in order and with their multiplicities. |
| Analysis.Filtered | frontend/src/pages/Analysis.jsx:99-102 | Exactly the outages matching the zone and substation selectors, in order and with their multiplicities. |
| Analysis.FilteredAll | frontend/src/pages/Analysis.jsx:99-102 | With both selectors on `all` nothing is dropped. |
| Analysis.OutagesBySS | frontend/src/pages/Analysis.jsx:105-106 | Each substation name counts its outages; the keys are distinct and are exactly the substation names that occur, and the counts add up to the number of outages. |
| Analysis.OutagesByDay | frontend/src/pages/Analysis.jsx:109-113 | Each day key (the first ten characters or elements of the time, or `unknown`) counts its outages; the keys are distinct and are exactly the day keys that occur, and the counts add up to the number of outages. |
| Analysis.DayKey | frontend/src/pages/Analysis.jsx:111 | A day key is `unknown` for a falsy time. A string time gives its first ten characters; an array time gives its first ten elements, joined by `String`. |
| Analysis.StatusCounts | frontend/src/pages/Analysis.jsx:116-117 | Each status counts its outages on top of the initial zeros. The keys are distinct and are exactly `fault`, `warning`, `ok` and the statuses that occur; the counts add up to the number of outages. |
| Analysis.StatusCountsOfOutages | frontend/src/pages/Analysis.jsx:61-117 | On the page's data, `fault` plus `warning` equals the number of outages and `ok` stays zero. |
| Analysis.OutagesByZone | frontend/src/pages/Analysis.jsx:120-121 | Each zone key counts its outages; the keys are distinct and are exactly the zone keys that occur, and the counts add up to the number of outages. |
| Analysis.TopSubstations | frontend/src/pages/Analysis.jsx:124 | At most five substations, most outages first, drawn from the counter. No substation left out has more outages than one kept. Among substations with equal counts, those kept are the counter's earliest, in the counter's order. |
| Analysis.RecentCritical | frontend/src/pages/Analysis.jsx:127-130 | At most ten faults or warnings, latest first, forming a sub-multiset of the selection's faults and warnings. None left out is later than one kept. Among outages with equal times, those kept are the selection's earliest, in the selection's order. |
| Analysis.RecentCriticalOfOutages | frontend/src/pages/Analysis.jsx:61-130 | On the page's data the inner fault/warning filter drops nothing, so the list holds ten outages of the selection, or all of them, drawn from it. |
| Analysis.OutagesAreCritical | frontend/src/pages/Analysis.jsx:61-102 | Every outage the page counts is a fault or a warning. |
| Sorting.SortDesc | frontend/src/pages/Analysis.jsx:124 | The sort is a permutation of its input. |
| Sorting.SortDescSorted | frontend/src/pages/Analysis.jsx:124-129 | The sort orders its output by the comparator, descending. |
| Sorting.TopK | frontend/src/pages/Analysis.jsx:124-130 | Sort-then-slice keeps k elements or all of them, in order, and no element left behind ranks above one kept. |
| Sorting.SortStable | frontend/src/pages/Analysis.jsx:124-129 | The sort is stable: the elements ranked level with any given one keep their input order. |
| Sorting.TopKStable | frontend/src/pages/Analysis.jsx:124-130 | Of the elements level with any given one, sort-then-slice keeps a prefix of them in input order. |
| Tally.CountInto | frontend/src/pages/Analysis.jsx:105-121 | Counting keys into a counter raises each key by its number of occurrences and keeps keys distinct. The counts grow by the number of keys. |
| Tally.BumpCounts | frontend/src/pages/Analysis.jsx:106 | One increment raises one key by one and leaves the others alone. |
| Js.TrimEmptyIffBlank | frontend/src/pages/RawData.jsx:302-306 | A search text trims to empty exactly when it is all whitespace, which is when the search box lets everything through. |
| Js.DecimalRoundTrip | frontend/src/pages/RawData.jsx:74 | `String(n)` of a number, as `esc` writes it, reads back as that number, so distinct numbers give distinct cells. |

## Left out

- Disk I/O. File reads and writes, their failures, and loading both files at
  startup are left out. A persist call is modelled as copying memory to the
  `Disk` value.
- Server key source. Where the configured key comes from (environment, key
  file, `crypto.randomBytes`) is left out; it is the parameter `serverKey`.
- Express plumbing. CORS, body parsing, `app.listen` and the `success: true`
  field of replies are left out.
- Read-only routes. `GET /protect`, `GET /telemetry` and `POST /command` are
  left out: they read the state as-is or only log.
- Time and dates. Date parsing and ISO formatting are the parameter
  `parseTime`, with instants as milliseconds. `receivedAt` is `Num(now)`,
  though the source stores a `Date` object. A simulated payload's `time` is
  the same instant as a number.
- Numbers. Numbers are unbounded integers: `NaN`, infinities and fractions
  are not modelled. Neither is double-precision magnitude: JavaScript rounds
  integers above 2^53, and `String(n)` uses exponent form (`1e+21`) from
  10^21 up, where the model writes every digit. The code only tests numbers
  for truthiness, for `=== 0` and through `String(v)`.
- Lower-casing. `toLowerCase` maps ASCII letters only; the Unicode case
  mapping is left out.
- Key order. JavaScript lists integer-like object keys first; the model keeps
  pure insertion order. This affects the order of the summary's rows
  (`Object.values(zoneMap)`, server.js:269: zones "1" and "2" come first) and
  the input of the top-substations sort (`Object.entries(outagesBySS)`,
  Analysis.jsx:124), and through it the order of ties.
- Strings. A Dafny `char` is a Unicode code point, whereas JavaScript strings
  are sequences of UTF-16 code units. `localeCompare` is modelled as
  code-point lexicographic order, and `slice(0, 10)` takes ten code points.
  For characters above U+FFFF both differ from the source; locale collation
  is left out too.
- `reportFaults` transport. The network call, its abort on the first error,
  and the message and time of the posted body are left out. The model decides
  which rows are posted.
- `reportFaults` concurrency. The function is `async` and is called without
  `await` from timers and clicks (RawData.jsx:203, 218, 273, 293, 378, 434),
  so two calls can interleave at the `await` of a post and read the map in
  between. The model runs one call at a time.
- Front-end. React rendering, polling, the mock-data fallbacks, the other
  pages (Home, MapView, Proof) and the simulators are left out.
- ApiKey.Check: the missing-key refusal is 500, as at server.js:80.
- Inherited object members. The server's and the page's maps are plain
  objects, so a zone or substation named after an `Object.prototype` member
  reads that member instead of `undefined`. The model's maps have no such
  members.
- Server.PostTelemetry: for a zone named like an inherited member the check
  at server.js:138 finds a truthy value, so no record is created and
  isolation never happens; the model creates the record.
- Server.PostProtect: for such a zone server.js:176 keeps the inherited
  member and sets `enabled` on it; the model creates a fresh record.
- Server.PostSimulateBreak: the same as `Server.PostProtect`, at
  server.js:197.
- Summary.Summarize: an entry whose zone is named like an inherited member
  makes server.js:266-267 read `counts` of that member and throw, so the
  route fails; the model counts the zone like any other.
- Analysis.OutagesBySS, Analysis.OutagesByDay, Analysis.StatusCounts,
  Analysis.OutagesByZone: a key named like an inherited member starts from
  that member instead of 0 (and `__proto__` loses its count); the model
  counts it from 0.
- Summary.DayList: the model's days are integers, and the source's are the
  `YYYY-MM-DD` prefix of `toISOString()`. They agree for years 0 to 9999.
  Outside that range the ISO string has a six-digit signed year and the
  prefix is `-YYYYYY-MM`, one per month; for `days` above about 740,000 the
  source's list then repeats entries, while the model's stays distinct.
- Summary.Summarize: a `days` count of about 100,000,000 or more reaches a
  time outside the range of `Date` (8.64e15 ms either side of the epoch).
  `toISOString()` then throws and the route fails; the model still replies
  with a report. Within years 0 to 9999 the two agree.
- Js.DecimalRoundTrip: holds for the model's decimal digits. JavaScript's
  `String(n)` agrees only below 10^21, and distinct integers above 2^53 can
  be the same double; see "Numbers".
- Objects other than arrays. `Obj` carries no fields, and `String(v)` of it
  is always `[object Object]`; an object with its own `toString` is left
  out.
- Analysis.OutagesByDay: requires every time to be a string, an array or
  falsy. The source calls `.slice` on the time, which throws for a truthy
  number, boolean or plain object.
- Analysis.DayKey: requires the same of its time, for the same reason.
- Analysis.RecentCritical: requires every time to be text or falsy. For a
  truthy non-text time `localeCompare` can throw, depending on the order in
  which the engine's sort compares entries.
- Analysis.TopSubstations: ties keep the counter's order, which here is
  insertion order; for integer-like keys the source's `Object.entries` order
  differs (see "Key order").
- Analysis.ZoneKey: the `o.zone` operand is always `undefined`, because a
  normalised record has no `zone` field.
- RawData.ReReportPostsNothing: requires the rows' `zone::substation` keys to
  be distinct. With a repeated key the second report does post again
  (`RawData.DuplicateKeyPostsAgain`).
- Server.PostSimulateBreak: states only the length of the log after an
  isolation. The exact entry is stated by
  `Server.SimulateBreakMatchesTelemetry`.

## Findings

| source | as written | input that shows it | evidently intended | confidence | as-written member | corrected member |
|---|---|---|---|---|---|---|
| frontend/src/pages/Logs.jsx:65 | The search reads `(l.zone \|\| '').toLowerCase()`, and likewise for substation and message. For a truthy non-string this throws and aborts the page's render. | `POST /logs` with body `{"zone": 7}` (the server accepts any truthy zone), then type `x` in the search box. | Convert with `String(...)` as the status test on line 63 does, so that a numeric zone is searched as its text. | not executed | LogsPage.NumericZoneBreaksSearch | LogsPage.Filtered |
