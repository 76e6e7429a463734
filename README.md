# Anti-Ripper: theft correlation, identity backfill and startup gating

Anti-Ripper looks for avatars of a VRChat author that have turned up on the
ripper.store marketplace. For each one it asks the local VRCX presence log
which players joined near the time of the theft, and it counts those players
in a suspicion ledger (`ripper.json`). Before that, it fills in missing user
ids in the presence log (the backfill). Marker files decide which of these
phases run at startup.

This project models that logic, all of it in `src/main.rs`. HTTP replies,
SQLite query results and file contents are inputs to the model.

- `cookies.dfy` (module `Cookies`): `filter_cookie`. It turns the cookies of a
  login response into one `Cookie` header of `name=value` pieces joined by
  `"; "`. A parser is proved to be its inverse.
- `ledger.dfy` (module `Ledger`): the ledger update loop of one correlation
  window.
  - `Bump` is one row. A known name goes up by one. A new name is entered
    with 0.
  - `Tally` folds `Bump` over the rows. `UpdateLedger` is the in-place loop,
    proved equal to `Tally`.
  - Lemmas give the final count of each name, the final key set, and show
    that no count goes down.
- `correlation.dfy` (module `Correlation`): the correlation windows.
  - A window is ±300000 ms around a centre.
  - The first centre is `dateAdded`. The second is `lastUpdated`, used only
    when that field is not null.
  - `Schedule` gives the sequence of windows one scan queries, and where it
    stops on an error or a panic.
  - The JSON fields the scan reads are modelled as a small `Json` value.
- `presence.dfy` (module `Presence`): the presence query each window runs
  against `gamelog_join_leave`, under SQLite's comparison rules. As written
  its WHERE clause selects no row (see Findings). The intended filter, a join
  whose time lies in the window, is proved to select exactly those rows. The
  rows the windows of `Correlation` and `Startup` consume are inputs. They
  stand for what that intended query returns.
- `backfill.dfy` (module `Backfill`): the `search_old_logs` pass over the
  join rows, with the `checked` list and the progress counter. `SearchOldLogs`
  is proved equal to the fold `RunBackfill`. Lemmas state which rows send a
  request, which names end up checked, and what the counter ends at.
- `startup.dfy` (module `Startup`): class `AppDir` holds the program's files
  as fields: the `auth` cookie, the `db_check.txt`, `user_id.txt` and
  `store_check.txt` markers, and `ripper.json`.
  - `SearchStore` is `search_store`.
  - `Start` is `main`: it runs the phases its markers call for.

A reader might expect each window to count every suspect once and the counts
to add up across windows. The model follows what the code does:

- The ledger is counted per returned row, not once per distinct name per
  window.
- A name seen for the first time is entered with 0, not 1.
- The updated ledger is never written back. Each window re-reads
  `ripper.json`, so `ripper.json` stays `{}` (or whatever it held before).
  The counts are computed and then dropped.
- The backfill skips rows whose `user_id` is set. It does not skip names
  already mapped. A name is deduplicated only after a successful response.
- `store_check.txt` is written but never read. So once `auth`,
  `db_check.txt` and `user_id.txt` exist, every startup runs the store scan
  again.
- There is no live log watcher and no avatar-snapshot differ in the code.

Exits: `Finished` is a normal return, `Failed` an `Err` propagated by `?`, and
`Panicked` an `unwrap`/`expect` on a missing value.

## Model

| member | source | states |
|---|---|---|
| `Cookies.FilterCookie` | src/main.rs:28-30 | the header is empty exactly when there are no cookies; otherwise it starts with the first `name=value` piece and its length is the pieces' lengths plus two per separator |
| `Cookies.FilterCookieSnoc` | src/main.rs:28-30 | a further cookie appends `"; name=value"` to a non-empty header, so pieces come in input order |
| `Cookies.CookieHeaderRoundTrip` | src/main.rs:28-30 | parsing the header at `"; "` and the first `=` gives back exactly the input cookies, when names hold no `;` or `=` and values no `;` |
| `Ledger.BumpStep` | src/main.rs:224-228 | one row: a present name goes from c to c+1, an absent name is inserted with 0, every other key keeps its value, no count decreases |
| `Ledger.UpdateLedger` | src/main.rs:220-231 | the in-place loop over a window's rows ends with the ledger `Tally(ledger, rows)` |
| `Ledger.TallyPresent` | src/main.rs:220-231 | a name present with count c that occurs k times in the rows ends at c+k |
| `Ledger.TallyAbsent` | src/main.rs:220-231 | an absent name that occurs k >= 1 times ends at k-1; one that does not occur stays absent |
| `Ledger.TallyKeys` | src/main.rs:220-231 | the final keys are the old keys plus the names in the rows |
| `Ledger.TallyMonotone` | src/main.rs:224-228 | no key is removed and no count decreases over a window |
| `Ledger.PerRowCounting` | src/main.rs:220-231 | two rows of one known name in one window add two: counting is per row |
| `Correlation.CenteredWindow` | src/main.rs:184-187 | the window around t contains t, is 600000 ms wide and is symmetric about t |
| `Correlation.DateAdded` | src/main.rs:181-184 | the first centre exists exactly when the detail body has an integer `dateAdded`, and is that integer |
| `Correlation.SecondProbe` | src/main.rs:235-240 | the second window is skipped exactly when `lastUpdated` is null or missing, is centred on it when it is an integer, and panics otherwise |
| `Correlation.DateAddedIgnoresDetail` | src/main.rs:181-184 | as written, a search body without `dateAdded` gives no first centre whatever the detail response holds |
| `Correlation.SecondProbeAsWrittenPanics` | src/main.rs:218-240 | as written, after a window whose file and rows have no "lastUpdated" name, the second-window lookup panics whatever the detail response holds |
| `Correlation.SecondProbeAsWrittenUsesCount` | src/main.rs:235-240 | as written, a ledger entry named "lastUpdated" has its hit count taken as the second centre |
| `Correlation.ScheduleStops` | src/main.rs:174-181 | once a detail reply has ended the scan, later replies change nothing |
| `Correlation.ScheduleWindowCount` | src/main.rs:174-291 | a scan that runs to the end queries one window per fetched avatar plus one per avatar whose `lastUpdated` is not null |
| `Correlation.ScheduleFinishes` | src/main.rs:174-291 | a scan runs to the end exactly when no reply is unreachable, lacks an integer `dateAdded` or has a non-null non-integer `lastUpdated` |
| `Correlation.ScheduleStopsAt` | src/main.rs:174-291 | a scan that stops early stops at one reply k: every reply before k let it go on, and the scan is the first k replies' queries followed by reply k's own, with reply k's exit |
| `Presence.JoinQueryAsWrittenEmpty` | src/main.rs:190 | as written, the window query returns no row whatever the table holds, because `(type='OnPlayerJoined')` is 0 or 1 and every integer sorts below the text bounds |
| `Presence.JoinQueryAsWrittenMissesJoin` | src/main.rs:242 | any join inside the window is returned by the intended query and missed by the query as written |
| `Presence.JoinQueryMatches` | src/main.rs:190 | the intended query returns a name exactly when some join of that name lies in the window |
| `Presence.JoinQueryCount` | src/main.rs:190 | the intended query returns one name per join in the window, duplicates included |
| `Backfill.CountReady` | src/main.rs:313-318 | `ready_count` plus the number of empty-id rows is the number of rows |
| `Backfill.SearchOldLogs` | src/main.rs:334-362 | the lookup loop ends in the state, or the abort, that `RunBackfill` gives |
| `Backfill.RunHaltedStays` | src/main.rs:343-355 | after an aborting row the remaining rows are never processed |
| `Backfill.RunningConsistent` | src/main.rs:334-362 | a pass that completes has `checked` = names resolved by a successful response, `checked` without duplicates, the counter at the number of empty-id rows, requests sent exactly by the rows `LookedUp` describes, UPDATEs only for checked names (which rows attempt one: `Backfill.UpdatesExact`) |
| `Backfill.UpdatesExact` | src/main.rs:345-356 | in a pass that completes, an UPDATE is run for a name exactly when some row of that name sent a request and got a successful response naming the same display name, with the UPDATE succeeding |
| `Backfill.RunHalted` | src/main.rs:343-355 | an aborted pass stopped at an empty-id, not-yet-checked row whose request aborted, with the earlier state plus that request |
| `Backfill.ProgressCount` | src/main.rs:313-360 | the counter ends at the number of empty-id rows, duplicates included, and with `ready_count` covers every row; an aborted pass has counted the rows before the abort |
| `Backfill.NoLookupForKnownId` | src/main.rs:336 | a row whose `user_id` is set never sends a request |
| `Backfill.CheckedAreResolved` | src/main.rs:351-357 | a name is in `checked` exactly when some empty-id row of it got a successful response, and `checked` has no duplicates |
| `Backfill.NoRepeatAfterSuccess` | src/main.rs:337 | after a successful response for a name, later rows of that name send no request |
| `Backfill.RetryAfterRefusal` | src/main.rs:337-358 | a name whose request was refused is looked up again at its next empty-id row |
| `Startup.ReplayAt` | src/main.rs:214-218 | every window's ledger is the file's ledger updated by that window's rows alone |
| `Startup.AppDir.ScanWindow` | src/main.rs:207-231 | a missing `ripper.json` is created as `{}`; the window's ledger is the file's contents tallied with its rows; the file is not otherwise changed |
| `Startup.AppDir.ScanDetail` | src/main.rs:175-287 | one avatar's windows are those `DetailScan` gives, each over the file's ledger |
| `Startup.AppDir.ScanDetails` | src/main.rs:174-291 | the loop over the idents ends as `Schedule` says and runs exactly its windows, each from the file |
| `Startup.AppDir.SearchStore` | src/main.rs:129-300 | the scan ends as `StoreExit` says; it counts the avatars; it runs the `Schedule` windows each from the file; `ripper.json` goes from missing to `{}` exactly when the search listed avatars and the scan queried at least one window, and is otherwise unchanged; `store_check.txt` is written only by a listed scan that finishes; a search body without an `avatars` array panics (line 148) |
| `Startup.AppDir.Start` | src/main.rs:371-410 | login runs exactly when `auth` is missing; backfill exactly when `db_check` is missing and `auth` exists; `db_check` is set only by a completed backfill; the profile request runs only when `user_id.txt` is missing; the store scan runs exactly when `auth`, `db_check` and `user_id.txt` all exist; `store_check.txt` exists afterwards exactly when it existed before or the store scan listed avatars and finished; a run that stops before the store scan fails on a login error or an aborted backfill, panics on a failed profile request, and otherwise fails opening the missing `user_id.txt` (line 406); a run that returns normally ran the store scan; with all three markers present only the store scan runs; when the store scan runs, `ripper.json` goes from missing to `{}` exactly when the search listed avatars and the scan queried at least one window, and is otherwise unchanged |

## Left out

- The interactive login and two-factor flow, stdin, the user-agent spoofing
  and the Basic-auth encoding (src/main.rs:32-103). `Start` takes the login's
  result as an input: an error, or the cookies of the final response.
- HTTP requests. Each reply is an input value: `SearchReply`, `DetailReply`,
  `Backfill.Reply` and `ProfileReply`.
- SQL text and SQLite execution. Each query result is an input sequence of
  display names or rows. The `BETWEEN` at lines 190 and 242 binds to
  `type='OnPlayerJoined'`, not to the join time, and as written selects no
  row (see Findings, and `Presence`). The windows of `Correlation` and
  `Startup` take their rows as an unconstrained input, which stands for the
  intended query's result.
- `Correlation.DetailScan`, `Correlation.Schedule`,
  `Startup.AppDir.SearchStore` and `Startup.AppDir.Start` read `dateAdded` and
  `lastUpdated` the corrected way (`DateAdded`, `SecondProbe`). As written,
  every successful detail reply ends the scan in a panic: at line 184 when
  the search body has no integer top-level `dateAdded`, otherwise at line 235 unless
  a player named "lastUpdated" is in the ledger. The two Findings model the
  as-written reads.
- Reading a response body (`text().unwrap()` at lines 146, 352 and 399) is
  assumed to succeed. At line 352 a failed read would panic inside the
  backfill and leave `db_check.txt` unwritten; `Backfill.RunBackfill` only
  runs or aborts, so the model never shows a backfill panic, and `Start`
  turns every backfill stop into `Failed`.
- Errors from opening the database, preparing statements and reading or
  creating files, and `create_dir_all` at line 372.
- A NULL `user_id` column: `row.get` into a `String` fails and `unwrap`
  panics (lines 222, 315, 335). Rows are modelled with text ids only.
- The UPDATE at lines 346-355 passes its two arguments in swapped order. The
  model records only whether the UPDATE is run and whether it fails. The
  reply's compared name stands for whatever `json["display_name"]` yields.
- Line 333 reads `Anti-ripper/auth` with a lower-case `r`. This only differs
  from `Anti-Ripper/auth` on a case-sensitive file system; the model assumes
  the token is readable.
- `Ledger.BumpStep`: does not model i64 overflow of a count or a ledger value
  that is not an integer (`as_i64().unwrap()` at lines 225 and 277).
- `Correlation.DateAdded`: JSON integers are unbounded; `as_i64` on a value
  outside the i64 range is not modelled.
- The chrono time formatting (`convert_time`) and `src/library.rs`. The
  formatted strings depend on the local time zone, and they only become the
  SQL bounds.
- `Correlation.DetailScan`, `Correlation.ScheduleFinishes`: a centre whose
  window end lies outside chrono's millisecond range (about ±8.2·10^15 ms)
  makes `from_timestamp_millis` return None, and `unwrap` panics at line 132.
  A centre within 300000 of the ends of i64 overflows at line 184, 187, 237
  or 240. The model builds a window for every integer centre, so it reports
  `Finished` for these replies where the program panics. The exact bound
  depends on the chrono version, which is not part of this model.
- `src/structs.rs`: only serde declarations, not used by `src/main.rs`.
- Progress bars, the `total_user` counters and console output.
- The live log watcher and avatar-snapshot differ: they are not in the code.

## Findings

| source | as written | input that shows it | evidently intended | confidence | as-written member | corrected member |
|---|---|---|---|---|---|---|
| src/main.rs:235-240 | `json` here is the ledger `Map` that shadows the detail JSON (line 218); indexing a `Map` by a missing key panics, and a present key gives a hit count, not a time | `ripper.json` = `{}` and a window whose rows hold no player named "lastUpdated": the second-window lookup panics whatever the detail response says | read `lastUpdated` from the detail response; skip when null | not executed; high | `Correlation.SecondProbeAsWrittenPanics` | `Correlation.SecondProbe` |
| src/main.rs:190 | the WHERE clause `type='OnPlayerJoined' BETWEEN lo AND hi` groups as `(type='OnPlayerJoined') BETWEEN lo AND hi`; the 0 or 1 it compares sorts below every text bound, so no row is selected (the same at line 242) | a table with a join at `2023-05-01 12:00:00` and a window from `11:55:00` to `12:05:00` that day: the query returns no row | select the joins whose `created_at` lies between the two bounds | not executed; medium (depends on SQLite's grouping of `=` and `BETWEEN` at one precedence level) | `Presence.JoinQueryAsWrittenEmpty` | `Presence.JoinQueryMatches` |
| src/main.rs:181-184 | re-parses the search response `body` and reads `dateAdded` from it, not from the detail response | a search response whose top level has no `dateAdded` (its avatars sit under `avatars`): `as_i64()` is None and `unwrap` panics | read `dateAdded` from the detail response | not executed; medium (depends on the search endpoint's top-level fields) | `Correlation.DateAddedIgnoresDetail` | `Correlation.DateAdded` |
