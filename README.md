# toggl-scraper core, modelled in Dafny

toggl-scraper mirrors Toggl Track time entries and projects into MySQL. This project models its
core logic and proves properties about it:

- **Window boundaries.** `parseStart`/`parseEnd` are the strict command-line parsers.
  `parseStartHTTP`/`parseEndHTTP` are the lenient parsers of the `/sync` endpoint. A token is
  empty, an RFC 3339 timestamp (section 5.6 of RFC 3339), or a `YYYY-MM-DD` date. A date start
  is 00:00 UTC of that date. A date end is 00:00 UTC of the next day.
- **Schedule.** `nextMidnight`, the daily window, the periodic window, mode precedence, and the
  three run loops of `main`.
- **Single-flight guard.** The `running` cell of `App` around the use case (`RunOnce`,
  `tryBeginRun`, `endRun`).
- **Sync orchestration.** `SyncUseCase.Run`, with a trace of the collaborator calls it makes.
- **Upsert sink.** `SyncEntries`/`SyncProjects` work on an in-memory table, a map from id to
  row. Each record is an `ON DUPLICATE KEY UPDATE` inside one transaction, and any failure
  restores the old map.
- **Migration runner.** `parseVersion` (with Go's `strconv.Atoi`), `sort.Strings`, the
  `schema_migrations` ledger, and the loop of `migrate.Run`.
- **Configuration.** `config.Load` over an environment map.

Conventions of the model:

- Instants are integer nanoseconds since the Unix epoch.
- Dates use the proleptic Gregorian calendar, through a days-from-civil conversion.
- Local time is a fixed offset from UTC.
- Calls into code the model cannot see are parameters:
  - What Toggl answers during a run is a `Source` value given to that run. The loops take one per
    run, so the account may change between runs.
  - Database outcomes are the `TxFault` and `DbOracle` values. This includes the server's message for a duplicate ledger version.
  - RFC 3339 parsing and formatting, `time.ParseDuration` and `time.LoadLocation` are function
    or value parameters.
  - Clock readings and ticker ticks are sequences.
- Errors are Go's message strings. The HTTP handler tells a conflict apart from other errors by
  comparing the message.

Modules:

| file | module | models |
|---|---|---|
| `wrappers.dfy` | `Wrappers` | `Option`, `Result` |
| `civil.dfy` | `Civil` | instants, Gregorian dates, UTC midnights |
| `boundary.dfy` | `Boundary` | `YYYY-MM-DD` layout, token classification, date boundaries |
| `domain.dfy` | `Domain` | `domain.TimeEntry`, `domain.Project`, int64 range |
| `quote.dfy` | `Quoting` | `strconv.Quote`, as used by `%q` and `strconv.NumError` |
| `decimal.dfy` | `Decimal` | `strconv.ParseInt(s, 10, 64)` and `strconv.Atoi` |
| `config.dfy` | `Config` | `config.Load` |
| `tags_text.dfy` | `TagsText` | the JSON array text of an entry's tags |
| `sink.dfy` | `MySqlSink` | `mysql.Client.SyncEntries` / `SyncProjects` |
| `migrate.dfy` | `Migrate` | `migrate.Run`, `parseVersion`, the ledger |
| `sync.dfy` | `Usecase` | `usecase.SyncUseCase.Run` |
| `app.dfy` | `App` | `app.App` guard and `RunOnce` |
| `http_server.dfy` | `HttpServer` | the `/sync` handler and its parsers |
| `cli.dfy` | `Cli` | `cmd/toggl-scraper/main.go` |

Where the design description and the code differ, the model follows the code:

- Migration scripts run in lexicographic file-name order (`sort.Strings`), not in numeric
  order. `Migrate.LexicographicNotNumeric` shows that `10_a.sql` runs before `9_b.sql`.
- A migration script and its ledger row are two separate statements, not one atomic unit. When
  the ledger insert fails, the script has already run and is not recorded.
- Tags are stored as an ordered JSON list, not as a set.

## Model

| member | source | states |
|---|---|---|
| Civil.DaysInMonth | cmd/toggl-scraper/main.go:135 | a month has 28 to 31 days; February has 29 exactly in leap years |
| Civil.YearLength | cmd/toggl-scraper/main.go:135-136 | a Gregorian year has 366 days when it is a leap year and 365 otherwise |
| Civil.EpochIsDayZero | cmd/toggl-scraper/main.go:136 | 1970-01-01 is day 0, so its midnight is instant 0 |
| Civil.NextDateIsNextDay | cmd/toggl-scraper/main.go:153-155 | the calendar successor of a valid date is the next day number (month and year rollover, leap days) |
| Civil.StartOfNextDate | cmd/toggl-scraper/main.go:153-155 | a date starts at a UTC midnight, and its successor starts exactly 24h later |
| Civil.UtcMidnightOfSpec | cmd/toggl-scraper/main.go:155 | truncating to the UTC day gives a UTC midnight at or before the instant and less than 24h before it; a midnight is its own truncation |
| Boundary.ParseDate | cmd/toggl-scraper/main.go:135 | the `2006-01-02` layout succeeds exactly on 10 characters `DDDD-DD-DD` whose month and day exist, and yields those fields |
| Boundary.ParseFormatDate | cmd/toggl-scraper/main.go:135 | formatting a valid date with a four-digit year and parsing it back gives the date |
| Boundary.FormatParseDate | cmd/toggl-scraper/main.go:135 | a string that parses as a date is exactly the formatting of that date |
| Boundary.Classify | cmd/toggl-scraper/main.go:127-137 | a token is empty, an RFC 3339 timestamp (tried first, returned as given), a valid date that is not RFC 3339, or malformed, in exactly those cases |
| Boundary.DateStartIsMidnight | cmd/toggl-scraper/main.go:134-137 | a date start is 00:00 UTC of that date |
| Boundary.DateEndIsNextMidnight | cmd/toggl-scraper/main.go:153-156 | a date end is 00:00 UTC of the following date, 24h after the date's start |
| Boundary.DateTokenIsDateOnly | cmd/toggl-scraper/main.go:131-135 | with a timestamp parser that accepts nothing as short as a bare date, every valid `YYYY-MM-DD` token is taken as a date |
| Quoting.UnquoteQuote | internal/migrate/migrate.go:58 | the quoted form of any name reads back as that name |
| Quoting.QuoteInjective | internal/migrate/migrate.go:58 | two names have the same quoted form exactly when they are equal |
| Quoting.QuotePlain | internal/migrate/migrate.go:58 | a name without quotes, backslashes or control characters is quoted as itself between two double quotes |
| Quoting.QuoteEscapesQuote | internal/migrate/migrate.go:58 | a double quote inside a name is written as `\"` |
| Decimal.ScanUint64Value | internal/config/config.go:33 | the digit scan yields the value of an all-digit tail within 64 bits, reports out of range past 2^64-1, and fails on a non-digit |
| Decimal.ParseInt64Spec | internal/config/config.go:33 | base-10 int64 parsing succeeds exactly on an optionally signed non-empty digit string whose value is in int64 range, and yields that value |
| Decimal.AtoiOfDigits | internal/migrate/migrate.go:116 | `Atoi` and `ParseInt` read an all-digit string within int64 range as its value, leading zeros included |
| Decimal.ParseFormatInt64 | internal/config/config.go:33 | parsing the decimal text of any int64 gives it back |
| Config.Load | internal/config/config.go:25-52 | an empty token is an error, and it is checked first; a non-empty workspace id that is not an int64 is the other error; otherwise the workspace id is 0 or its value, the base URL and time zone get their defaults when empty, and the token and DSN are copied verbatim |
| Config.WorkspaceIdRoundTrip | internal/config/config.go:32-38 | a workspace id given as the decimal text of an int64 loads as that number |
| TagsText.DecodeEncode | internal/adapter/mysql/sink.go:78-79 | the stored tags text decodes back to the same list, in order |
| TagsText.EncodeInjective | internal/adapter/mysql/sink.go:78-79 | two tag lists have the same text exactly when they are equal |
| MySqlSink.EntryRowOf | internal/adapter/mysql/sink.go:77-106 | the tags column is the JSON text of the entry's tags; description, start and duration are bound as they are; project, workspace and stop are bound as they are, an absent one as NULL |
| MySqlSink.ProjectRowOf | internal/adapter/mysql/sink.go:149-166 | workspace, name, active, private flag, color and timestamp are bound as they are; an absent client is NULL |
| MySqlSink.EntryStatements | internal/adapter/mysql/sink.go:77-107 | one statement per entry, in slice order, keyed by the entry's id |
| MySqlSink.ProjectStatements | internal/adapter/mysql/sink.go:149-166 | one statement per project, in slice order, keyed by the project's id |
| MySqlSink.Store.SyncEntries | internal/adapter/mysql/sink.go:47-117 | the loop of upserts leaves the error and table of the transactional batch: an empty batch is a no-op, a begin, prepare, exec or commit failure restores the snapshot |
| MySqlSink.Store.SyncProjects | internal/adapter/mysql/sink.go:120-176 | the same for the projects table |
| MySqlSink.UpsertAllKeys | internal/adapter/mysql/sink.go:56-69 | after a batch the table holds the old ids and the batch's ids, and no others |
| MySqlSink.UpsertAllOthers | internal/adapter/mysql/sink.go:56-69 | rows whose id the batch does not mention are untouched |
| MySqlSink.UpsertAllLastWins | internal/adapter/mysql/sink.go:77-107 | an id the batch repeats holds the row of its last statement |
| MySqlSink.UpsertAllIdempotent | internal/adapter/mysql/sink.go:56-69 | applying a batch again to its own result changes nothing |
| MySqlSink.EmptyBatchIsNoOp | internal/adapter/mysql/sink.go:47-50 | an empty batch succeeds and leaves the table, whatever the database would do |
| MySqlSink.TransactAllOrNothing | internal/adapter/mysql/sink.go:51-114 | a failed batch leaves the table unchanged, a successful one applies every statement, and success means an empty batch or no fault within the batch |
| MySqlSink.SyncedEntriesAreStored | internal/adapter/mysql/sink.go:77-111 | after a successful batch every id's row holds the fields of its last entry, the keys are the old keys plus the batch's, and other rows are unchanged |
| MySqlSink.ResyncEntriesIdempotent | internal/adapter/mysql/sink.go:56-69 | re-syncing the same entries after a successful sync leaves the table as it was |
| MySqlSink.ResyncProjectsIdempotent | internal/adapter/mysql/sink.go:128-141 | re-syncing the same projects after a successful sync leaves the table as it was |
| MySqlSink.ReobservationOverwrites | internal/adapter/mysql/sink.go:61-68 | an entry seen again with edited fields still has one row, holding the latest values |
| Migrate.IndexByte | internal/migrate/migrate.go:112 | the first index of the character, or -1 exactly when it is absent |
| Migrate.ParseVersion | internal/migrate/migrate.go:110-121 | no underscore or a leading one is "missing prefix number"; otherwise the result is `Atoi` of the text before the first underscore |
| Migrate.VersionOfPrefix | internal/migrate/migrate.go:116-120 | a digit-only prefix within int64 range before the first underscore is the version |
| Migrate.ParseVersionInit | internal/migrate/migrate.go:110-121 | `0001_init.sql` is version 1 |
| Migrate.ParseVersionNonNumeric | internal/migrate/migrate.go:116-119 | a non-numeric prefix such as `v1` is an error |
| Migrate.SortStrings | internal/migrate/migrate.go:47 | the result is a permutation of the names in ascending string order |
| Migrate.LexicographicNotNumeric | internal/migrate/migrate.go:43-47 | the order is by name, so `10_a.sql` comes before `9_b.sql` |
| Migrate.StepOf | internal/migrate/migrate.go:55-74 | a file is skipped exactly when its version was applied before the run; it is recorded only when it parses, is new, and its ledger insert succeeds; a stop after the script ran needs a new, parsed version |
| Migrate.StepOfOutcomes | internal/migrate/migrate.go:55-74 | a bad name stops with `invalid migration filename` and the quoted name; a file is recorded with its version exactly when its script runs and the insert succeeds; it stops after running exactly when its script runs and the insert fails, with the insert's error; it stops without running exactly when the name is bad or a new file cannot be read or executed |
| Migrate.Ledger.RunFile | internal/migrate/migrate.go:55-74 | one turn of the loop makes the step's decision; the script is executed exactly when the step records or stops after running, and the ledger gains the row exactly when it records |
| Migrate.Ledger.EnsureMigrationsTable | internal/migrate/migrate.go:79-86 | the table exists afterwards unless creating it failed |
| Migrate.Ledger.LoadApplied | internal/migrate/migrate.go:88-103 | the loop collects the version of every ledger row, or reports the query error |
| Migrate.Ledger.RecordApplied | internal/migrate/migrate.go:105-108 | the ledger gets one row appended, unless the version is already present, when the error is the database's own duplicate-key message for that version, or the insert fails with its error |
| Migrate.Ledger.ApplyPending | internal/migrate/migrate.go:54-76 | the loop's error, executed scripts and ledger are those of the run over the sorted files |
| Migrate.Ledger.Run | internal/migrate/migrate.go:39-77 | ensure the table, sort, load the applied set once, then run the loop; the result is that of the migration |
| Migrate.ApplyConcat | internal/migrate/migrate.go:54-75 | running A then B is running A, and then B on the ledger A left, only if A succeeded |
| Migrate.FailureStopsRun | internal/migrate/migrate.go:54-75 | after the first failure no later file is executed or recorded |
| Migrate.RecordsFollowExecutions | internal/migrate/migrate.go:69-74 | the ledger is only appended to, one row per executed script and in execution order; only a failed final insert leaves a script unrecorded; every executed file parsed and was not applied before |
| Migrate.SuccessCoversEveryFile | internal/migrate/migrate.go:54-76 | after a successful loop every file's version is applied or in the ledger |
| Migrate.AllAppliedIsNoOp | internal/migrate/migrate.go:60-63 | when every version is already applied, nothing is executed or recorded |
| Migrate.SecondRunExecutesNothing | internal/migrate/migrate.go:49-76 | after a successful migration, the next one executes nothing and leaves the ledger unchanged |
| Migrate.SkipsRecordedVersion | internal/migrate/migrate.go:49-74 | with version 1 recorded, only `0002_projects.sql` runs and is recorded, and a second run does nothing |
| Migrate.DuplicateVersionRunsTwice | internal/migrate/migrate.go:49-74 | two files with version 1 both run, because the applied set is not updated in the loop, and recording the second fails with MySQL's duplicate-entry message for version 1; the ledger keeps one row |
| Migrate.EnsureComesFirst | internal/migrate/migrate.go:39-52 | when the table cannot be ensured or the ledger cannot be read, no script runs and the ledger is untouched |
| Usecase.RunSpecEntriesStage | internal/usecase/sync.go:38-56 | entries are fetched exactly when the projects stage succeeded; SyncEntries is the last call exactly when that fetch returned a non-empty list, and it gets exactly that list; an empty list ends the run with nil, its last call the fetch, and the entry table unchanged |
| Usecase.RunSpecTrace | internal/usecase/sync.go:25-56 | the trace is exactly ListProjects, then SyncProjects with the fetched list when it is non-empty, then ListTimeEntries for the window when the projects stage succeeded, then SyncEntries with the fetched entries when they came back non-empty; each collaborator is called at most once |
| Usecase.RunSpec | internal/usecase/sync.go:19-57 | projects are fetched first; a fetch failure persists nothing; SyncProjects is called exactly for a non-empty list, with that list; its failure stops the run before entries are fetched; the window is passed through as given; the entry table changes only through the final SyncEntries; the result is nil exactly when every attempted call succeeded |
| Usecase.SyncUseCase.Run | internal/usecase/sync.go:19-57 | nil dependencies give the error with no call and leave an existing sink's tables unchanged; otherwise the error, call trace and both tables are those of the run |
| Usecase.RunAll | cmd/toggl-scraper/main.go:79-120 | a sequence of runs, each with its own Toggl answers and sink outcomes, gives one result per window, the first being that of the first run on the starting tables |
| Usecase.RunAllSnoc | cmd/toggl-scraper/main.go:79-120 | one more run after a sequence runs on the tables the sequence left, and its result is appended; a failed run does not stop later ones |
| Usecase.OutageWritesNothing | cmd/toggl-scraper/main.go:93-120 | while the project fetch fails at every run, each run returns its fetch error and neither table changes |
| Usecase.EntriesFailureKeepsProjects | internal/usecase/sync.go:41-44 | when the entry fetch fails, its error is returned and the projects already upserted stay |
| Usecase.EntriesUpsertFailureKeepsProjects | internal/usecase/sync.go:52-54 | when the entry upsert fails, its error is returned, the entries table is as before, and the projects already upserted stay |
| Usecase.SuccessfulRunUpserts | internal/usecase/sync.go:25-56 | a successful run leaves every fetched project and entry upserted |
| Usecase.RerunIsIdempotent | e2e/sync_e2e_test.go:88-116 | a second successful run over the same answers leaves both tables as the first left them |
| Usecase.TwoEntryUpsert | internal/adapter/mysql/sink.go:77-111 | two entries with distinct ids in an empty table give one row each |
| Usecase.TwoEntriesTwoRows | e2e/sync_e2e_test.go:77-116 | two entries synced twice into an empty table give two rows after each run, with the same values |
| App.App.TryBeginRun | internal/app/app.go:54-56 | succeeds exactly when the cell is 0, and the cell is 1 afterwards |
| App.App.EndRun | internal/app/app.go:58 | the cell is 0 afterwards |
| App.App.RunOnce | internal/app/app.go:45-52 | a busy guard gives "sync already running" with no call, the cell still 1 and the tables unchanged; an admitted run returns the use case's result and tables for the same window and releases the guard, whether or not it failed; with nil dependencies the tables are unchanged; the cell stays 0 or 1 |
| HttpServer.ParseStartHttp | internal/app/http_server.go:95-107 | empty gives the default, RFC 3339 is returned as given, a date gives its 00:00 UTC, and anything else falls back to the default |
| HttpServer.ParseEndHttp | internal/app/http_server.go:112-124 | as the start parser, but a date gives 00:00 UTC of the next day |
| HttpServer.DateEndIsStartPlusDay | internal/app/http_server.go:110-122 | a date read as an end lies exactly 24h after the same date read as a start |
| HttpServer.Get | internal/app/http_server.go:30-33 | a query value is the key's first value, or empty |
| HttpServer.SyncWindow | internal/app/http_server.go:31-36 | `to` is the lenient end parse of the `to` value with now as default; `from` is the lenient start parse of the `from` value with 24h before the resolved `to` as default, so a missing or invalid `from` is that default |
| HttpServer.TimeoutOverride | internal/app/http_server.go:38-46 | a deadline is set exactly when `timeout` is present, parses and is positive |
| HttpServer.StatusFor | internal/app/http_server.go:51-57 | 200 exactly on success, 409 exactly for "sync already running", 500 for any other error |
| HttpServer.Respond | internal/app/http_server.go:50-71 | a JSON reply with that status that carries the resolved `from` and `to`, with "ok" or "error" and the error text |
| HttpServer.HandleSync | internal/app/http_server.go:24-71 | methods other than GET and POST get 405, no sync and no change; otherwise the resolved window is run through `RunOnce` and its result is the reply; a nil dependency gives 500 with no call and no change; a busy guard gives 409 with the cell still 1 and the tables unchanged; an admitted run's tables are those of the run |
| Cli.ParseStart | cmd/toggl-scraper/main.go:127-141 | empty gives the default, RFC 3339 is returned as given, a date gives its 00:00 UTC; the error "invalid --from ..." occurs exactly on malformed tokens; accepted tokens resolve as the HTTP parser resolves them |
| Cli.ParseEnd | cmd/toggl-scraper/main.go:146-160 | the same for the end, with a date giving 00:00 UTC of the next day and the error "invalid --to ..." |
| Cli.StartupWindow | cmd/toggl-scraper/main.go:47-49 | the end is parsed first, so a bad `--to` is the error reported; the default start is 24h before the resolved end |
| Cli.StartupWindowAgreesWithHttp | cmd/toggl-scraper/main.go:47-49 | flags the command accepts give the same window as the same values given to `/sync` |
| Cli.InclusiveEndExample | cmd/toggl-scraper/main.go:143-156 | `2025-08-15` as an end is 2025-08-16T00:00:00Z, day 20316 after the epoch |
| Cli.LocalMidnightOfSpec | cmd/toggl-scraper/main.go:164-166 | the local midnight of the day is at or before the instant, within 24h, and no other local midnight lies within that day |
| Cli.NextMidnight | cmd/toggl-scraper/main.go:162-175 | the result is a local midnight strictly after t and at most 24h after it, with no midnight between; a midnight t gives t plus 24h |
| Cli.DailyWindow | cmd/toggl-scraper/main.go:80-92 | the daily window spans exactly 24h, ends at the midnight the loop sleeps to, and starts at the local midnight at or before the reading |
| Cli.NoDoubleFire | cmd/toggl-scraper/main.go:79-99 | when the clock is read again only after the wake-up, the next window starts no earlier than the previous one ended, and exactly there when read right at that midnight |
| Cli.PeriodicWindow | cmd/toggl-scraper/main.go:115-118 | each tick's window is the 24h ending at the tick |
| Cli.SelectMode | cmd/toggl-scraper/main.go:62-72 | `-once` wins, then `-daily`, then periodic |
| Cli.Startup | cmd/toggl-scraper/main.go:35-49 | a bad configuration or window flag gives exit status 1; otherwise the command goes on with the resolved window and the selected mode |
| Cli.RunOnceMode | cmd/toggl-scraper/main.go:62-69 | one admitted run, whose result and tables are those of the use case; exit status 1 exactly when it failed; with a nil dependency the tables are unchanged |
| Cli.DailyLoop | cmd/toggl-scraper/main.go:72-100 | an unknown zone gives exit status 1 before any run and no change; otherwise every clock reading gives one run over its daily window, and the windows never overlap when readings follow the wake-ups; there is one result per run, and with dependencies the results and final tables are those of `RunAll` over the windows and each run's own Toggl answers, so failures do not stop the loop; without them every result is the not-initialized error and nothing changes |
| Cli.PeriodicLoop | cmd/toggl-scraper/main.go:103-122 | the initial run uses the flags' window and every tick runs over the 24h before it; there is one result per run, and with dependencies the results and final tables are those of `RunAll` over the windows and each run's own Toggl answers, so failures do not stop the loop; without them every result is the not-initialized error and nothing changes |

## Left out

- The Toggl HTTP client: URLs, authentication, status handling and JSON decoding. Its answers during each run are that run's `Source`.
- The database connection: opening it, the ping with its timeout, pool settings, `Close`, and SQL text. The sink tables are maps. The migration database is the `DbOracle`, whose script execution does not depend on the schema.
- A failure of `rows.Scan` or `rows.Err` in `loadApplied` is folded into the one query outcome of `DbOracle`.
- The embedded file system: `fs.Glob`, the `sql/` directory prefix, and `filepath.Base`. The files are a sequence of base names, and reading one is `DbOracle.readFile`. The error text of a bad name therefore shows the base name, as in the source.
- `app.New`, which opens the sink and runs the migrations. It is not modelled as one operation; its failure exiting with status 1 is not modelled.
- Concurrency: the atomicity of `CompareAndSwap`, goroutines, signal handling, tickers, `time.After`, and context cancellation and deadlines. The guard and the loops are sequential. The timeout override is computed but has no effect.
- Time zones and DST: `time.LoadLocation` is a parameter that yields a fixed offset or nothing. Shifts in the offset across a day are not modelled.
- RFC 3339 timestamp syntax, Go duration syntax and RFC 3339 formatting of response fields are parameters, not parsers.
- TagsText.Encode: escapes only `"` and `\`. It does not do `json.Marshal`'s HTML and control-character escaping, and it writes `[]` where Go writes `null` for a nil slice.
- HttpServer.Respond: gives the reply's JSON members in key order rather than the encoded bytes, and leaves out the headers besides the content type (such as `X-Content-Type-Options`).
- HttpServer.Respond: loses the UTC offset of the echoed `from` and `to`. Go's `time.Time` keeps the offset of an RFC 3339 token such as `2025-08-01T09:00:00+02:00`, and `Format` writes it back. A default start taken 24h before such a `to` keeps it too. The model keeps only the instant, and `format` sees nothing else. So the same instant given with `+02:00` and with `Z` yields one text in the model and two in Go. HttpServer.HandleSync inherits this through its reply.
- Migrate.Ledger.Run: takes one `now` for all ledger rows of a run, whereas the source reads the clock at each insert.
- Quoting.Quote: characters from U+0080 up that Go does not consider printable, which `strconv.Quote` writes as `\u` or `\U` escapes, are kept as they are; only ASCII controls are escaped.
- Cli.DailyLoop: the results are not stated to differ from "sync already running", because a Toggl or database error could carry that text; that every run is admitted shows through the equality with `RunAll`. The same holds for Cli.PeriodicLoop.
- A commit failure is modelled as leaving the table unchanged, as a rolled-back transaction would.
- `int` in `parseVersion` and `loadApplied` is taken to be 64 bits wide.
- Logging (`slog`), `loggingMiddleware`, the `/healthz` handler, and the `-interval` and `-v` flags. Tick instants are given directly, so the interval is not needed.
