# go-sqlite, modelled in Dafny

This project models the core of `sqlite.go` in unixmonks/go-sqlite. That package is a thin layer over
`database/sql` and the go-sqlite3 driver. Its `DB` keeps two connection pools: a single-connection write
pool and a ten-connection read pool. The pieces modelled are:

- **Open / Close lifecycle** (`Sqlite.DB`). Open rejects an empty DSN. It builds the writer's DSN
  (write-ahead logging, foreign keys, 5000 ms busy timeout) and the reader's DSN (the same plus `mode=ro`),
  or one shared-cache DSN for `:memory:`. It configures both pools and closes the write pool when the read
  pool cannot be opened. Close cancels the handle's context, closes every pool there is and reports the
  first error.
- **Migration runner** (`Migrations`, `Sqlite.DB.Migrate`, `Sqlite.DB.MigrateFile`):
  - It creates the `migrations` table.
  - It globs `migration/*.sql`, sorts the names and runs each script in its own transaction.
  - A recorded name is skipped. Otherwise the script is executed and its name recorded, both or neither.
  - The run stops at the first error, which is wrapped with the script's name.
  - The database is abstracted to the set of recorded names plus the log of executed scripts. The engine
    and the file system are an oracle that may fail any stage of a script's transaction.
- **Transactions** (`Sqlite.DB.BeginTx`, `Sqlite.DB.BeginReadTx`, `Sqlite.Tx`). A transaction carries a
  timestamp frozen at begin: the clock's reading, truncated to the second.
- **NullTime** (`NullTimes`). The `Scan`/`Value` codec between the zero instant and SQL NULL, with RFC 3339
  text for every other instant (section 5.6 of RFC 3339, UTC, no fraction). The formatter and the parser
  of the canonical `YYYY-MM-DDTHH:MM:SSZ` form are concrete (`Rfc3339`, `Calendar`).
- **Pagination** (`Pagination.FormatLimitOffset`): the `LIMIT n OFFSET m` clause.

Time is modelled as a natural number of nanoseconds since Go's zero time, 0001-01-01T00:00:00Z. So
`IsZero` is `t == 0`, and `Truncate(time.Second)` rounds down to a multiple of 10^9. Strings are
sequences of characters. Go's `sort.Strings` order (byte-wise lexicographic) is `StringOrder.Less`.

Where the code and its documentation differ, the model follows the code:
- The read pool of an in-memory database uses the same DSN as the write pool, so its DSN carries no
  `mode=ro` (`DsnSettings.MemoryDsnSettings`).
- `Value` formats with the `time.RFC3339` layout, which has no fractional seconds. Sub-second digits are
  therefore dropped, and Value then Scan gives back the instant truncated to the second
  (`NullTimes.EncodeThenDecode`).

## Model

| member | source | states |
|---|---|---|
| `Sqlite.DB.constructor` | sqlite.go:27-34 | NewDB: the DSN is kept, no pool is open yet and the context is live |
| `Sqlite.DB.Open` | sqlite.go:36-68 | An empty DSN fails with "dsn required" and touches no pool. `:memory:` opens both pools on the shared-cache DSN. A directory failure returns its error. Otherwise the write DSN is DSN + WAL parameters and the read DSN adds `&mode=ro`. On a new handle (no pool yet), a failed open leaves no open pool behind. |
| `Sqlite.DB.OpenMemory` | sqlite.go:70-89 | Both pools are opened on `file::memory:?cache=shared&_foreign_keys=on`, with the same limits and cleanup as Open |
| `Sqlite.DB.OpenPools` | sqlite.go:49-65 | A failed write open leaves that pool nil. A failed read open closes the configured write pool and leaves the read pool nil. Success yields write limits 1/1/0/0 and read limits 10/5. |
| `Sqlite.DB.Close` | sqlite.go:141-159 | The context is cancelled and every non-nil pool is closed, even after an earlier failure. The result is the write pool's error if there is one, else the read pool's, else none. |
| `Sqlite.DB.Migrate` | sqlite.go:95-112 | The loop leaves the store and the error that `Migrations.Migrate` specifies. A closed write pool makes table creation fail. No pool changes. |
| `Sqlite.DB.MigrateFile` | sqlite.go:114-139 | The transaction works on a copy of the store that replaces it only at commit. The result is `Migrations.MigrateFile`, a closed pool failing at Begin. |
| `Sqlite.DB.BeginTx` | sqlite.go:163-179 | A closed pool, a failed begin or a failed `BEGIN IMMEDIATE` return their error and no transaction. Otherwise the transaction is immediate and writable. Its `Now` is a whole second within one second below the clock, and equals a whole-second clock (Tx.Now, sqlite.go:203-205). |
| `Sqlite.DB.BeginReadTx` | sqlite.go:183-194 | A closed pool or a failed begin returns its error and no transaction. Otherwise the transaction is read-only and deferred, with the same frozen, truncated `Now`. |
| `Sqlite.MigrateTwice` | sqlite_test.go:29-52 | On a new in-memory database, if the first Migrate succeeds then the second one does too and changes no state |
| `Sqlite.CreateOutcome` | sqlite.go:96 | CREATE TABLE succeeds exactly when the write pool is open and the engine reports no error; a closed pool gives "database is closed", otherwise the engine's error |
| `Sqlite.BeginOutcome` | sqlite.go:115 | Begin succeeds exactly when the write pool is open and the engine has no fault; a closed pool fails at Begin with "database is closed", an open one with the engine's fault |
| `Pools.OpenedPool` | sqlite.go:51-60 | A pool just opened by sql.Open is open, on its DSN, with database/sql's defaults (no open limit, 2 idle, no lifetimes), which keep `WellLimited` |
| `Pools.SetMaxOpenConns` | sqlite.go:54 | A positive limit is kept and any other means unlimited (0). A positive limit below the idle limit lowers it. Nothing else changes, and `WellLimited` is preserved. |
| `Pools.SetMaxIdleConns` | sqlite.go:55 | A limit that is not positive keeps no idle connection. One above a positive open limit is cut to it. Nothing else changes, and `WellLimited` is preserved. |
| `Pools.SetConnMaxLifetime` | sqlite.go:56 | A positive duration is kept and any other means forever (0). Nothing else changes, and `WellLimited` is preserved. |
| `Pools.SetConnMaxIdleTime` | sqlite.go:57 | A positive duration is kept and any other means forever (0). Nothing else changes, and `WellLimited` is preserved. |
| `Pools.QueryParameters` | sqlite.go:49 | The driver reads no settings from a DSN without `?` or one starting with `?` (see `Pools.QueryAfterDsn` for the query after the first `?`) |
| `Pools.QueryAfterDsn` | sqlite.go:49 | For a non-empty DSN without `?`, the settings of `dsn?query` are those the query lists |
| `Pools.ClosePool` | sqlite.go:146-153 | Closing marks the pool closed. An open pool reports the driver's error, a closed pool reports none. |
| `Pools.WritePool` | sqlite.go:54-57 | Through database/sql's setters, the write pool ends with 1 open, 1 idle, no lifetime and no idle-time limit |
| `Pools.ReadPool` | sqlite.go:64-65 | Through the setters, the read pool ends with 10 open and 5 idle |
| `Pools.ParseQueryText` | sqlite.go:49 | key=value settings joined with `&` and read back by the driver give exactly those settings, the first of repeated keys winning |
| `Pools.QueryTextAppend` | sqlite.go:59 | Appending `&k=v` to a query is appending one setting |
| `DsnSettings.WalQueryText` | sqlite.go:49 | The literal query appended to the DSN is the WAL, foreign-key and busy-timeout settings joined |
| `DsnSettings.ReadOnlyParameterText` | sqlite.go:59 | The read-only suffix is `&mode=ro` |
| `DsnSettings.MemoryDsnText` | sqlite.go:71 | The in-memory DSN is the literal of the source |
| `DsnSettings.FileDsnSettings` | sqlite.go:49-59 | For a DSN without `?`, the driver reads `_journal_mode=wal`, `_foreign_keys=on` and `_busy_timeout=5000` from the write DSN, and those plus `mode=ro` from the read DSN |
| `DsnSettings.MemoryDsnSettings` | sqlite.go:71-81 | The in-memory DSN sets only `cache=shared` and `_foreign_keys=on`, and no read-only mode |
| `Migrations.MatchesPatternOf` | sqlite.go:100 | `migration/` + name + `.sql` matches the pattern exactly when the name holds no `/` |
| `Migrations.Glob` | sqlite.go:100 | The names are exactly the listed paths that match `migration/*.sql`, where the star matches no `/` |
| `Migrations.GlobCount` | sqlite.go:100 | Each matching path appears as often as in the listing, and no other path appears |
| `Migrations.MigrateFile` | sqlite.go:114-139 | A Begin or Count failure fails for any name. A recorded name is skipped with no change. Any later failure leaves the store unchanged, because the rollback undoes both the script and the record. Success executes the script once and records its name. |
| `Migrations.NewScripts` | sqlite.go:122-133 | The scripts a clean run executes are exactly the names not recorded before them |
| `Migrations.FirstFailure` | sqlite.go:106-110 | The first failing position, when there is one, lies within the names and has a fault |
| `Migrations.Run` | sqlite.go:106-110 | With no failure, the loop ends in the closed form `Advance` with no error. Otherwise it ends at the first failing script k: the store is that of running only `names[..k]`, and the error is `MigrationFailed(names[k], cause)`. |
| `Migrations.AdvanceCons` | sqlite.go:106-110 | A clean run over names is one clean `migrateFile`, then a clean run over the rest |
| `Migrations.StopsAtFirstFailure` | sqlite.go:106-110 | A failed run carries the failing name and stops there: its store is the store of the clean run over the names before it |
| `Migrations.FirstFailureFails` | sqlite.go:106-126 | The script at the first failing position does fail, given the names the scripts before it recorded |
| `Migrations.FailedScriptNotRecorded` | sqlite.go:114-139 | A script that fails after its count (read, exec, insert or commit) is left unrecorded by the run, because the deferred rollback undoes its INSERT |
| `Migrations.FirstFailurePrefix` | sqlite.go:106-110 | The scripts before the first failure go through on their own |
| `Migrations.NewScriptsSubsequence` | sqlite.go:104-110 | The executed scripts appear in the order of the names, each at most once |
| `Migrations.SubsequenceSorted` | sqlite.go:104 | A subsequence of a sorted list is sorted |
| `Migrations.RunsInOrder` | sqlite.go:104-110 | Over sorted names, scripts execute in sorted order |
| `Migrations.NothingNew` | sqlite.go:122-126 | A run over names that are all recorded executes nothing |
| `Migrations.FirstFailureMonotone` | sqlite.go:122-126 | Recording more names never makes a run fail earlier |
| `Migrations.RunIdempotent` | sqlite.go:106-126 | Repeating a successful run with the same engine succeeds and changes nothing |
| `Migrations.RunAllRecorded` | sqlite.go:122-126 | Once every name is recorded, a run that can begin and count succeeds and changes nothing |
| `Migrations.Migrate` | sqlite.go:95-112 | A table-creation failure is wrapped as "cannot create migrations table" and changes nothing. Otherwise the table exists afterwards. On success, the recorded names are the old ones plus every matching path. |
| `Migrations.SortedNames` | sqlite.go:100-104 | The sorted names are exactly the matching paths |
| `Migrations.ListingOrderIrrelevant` | sqlite.go:100-104 | Two listings with the same entries give the same outcome, because the names are sorted before any script runs |
| `Migrations.MigrateIdempotent` | sqlite.go:95-112 | Migrating twice over the same files with the same engine outcomes (the same `faults` oracle): the second run succeeds and changes nothing |
| `Migrations.MigrateAgainAnyEngine` | sqlite.go:95-126 | After a successful Migrate, migrating again over the same files succeeds and changes nothing for any engine that can begin a transaction and count, whatever it would do at later stages |
| `Migrations.MigrateExecutes` | sqlite.go:104-110 | A successful Migrate appends to the log the sorted names that were not recorded |
| `Migrations.NewScriptsOfListing` | sqlite.go:100-110 | The scripts Migrate would execute are sorted. They are exactly the matching paths not already recorded. |
| `Migrations.MigrateRunsNewScriptsInOrder` | sqlite.go:95-112 | A successful Migrate keeps the old log as a prefix. It appends exactly the new matching scripts, in sorted order. |
| `StringOrder.LessIrreflexive` | sqlite.go:104 | No string sorts before itself |
| `StringOrder.LessTransitive` | sqlite.go:104 | The string order is transitive |
| `StringOrder.LessTotal` | sqlite.go:104 | Of two different strings, one sorts before the other |
| `StringOrder.LessAsymmetric` | sqlite.go:104 | Two strings never sort before each other |
| `StringOrder.Insert` | sqlite.go:104 | Inserting into a sorted list keeps it sorted and adds exactly one copy of the element |
| `StringOrder.SortStrings` | sqlite.go:104 | sort.Strings: the result is sorted and a permutation of the input |
| `StringOrder.SortedPermutationUnique` | sqlite.go:104 | Two sorted permutations of the same strings are equal, so the sorted order is unique |
| `Instants.Truncate` | sqlite.go:177 | Truncate(time.Second) gives the whole second at or below t, less than a second away |
| `Instants.TruncateUnique` | sqlite.go:177 | That whole second is the only one within a second below t |
| `Instants.TruncateIdempotent` | sqlite.go:192 | Truncating a truncated instant changes nothing |
| `NullTimes.GoTypeName` | sqlite.go:217 | The name `%T` prints for each non-nil driver value; each type has its own name |
| `NullTimes.Decode` | sqlite.go:209-218 | nil gives the zero instant. A string gives its parsed instant, or the zero instant when it does not parse. Any other type is rejected with its Go type name. |
| `NullTimes.Encode` | sqlite.go:220-225 | The zero instant is NULL. Any other instant is its RFC 3339 UTC text. |
| `NullTimes.NullTime.Scan` | sqlite.go:209-218 | Scan stores what Decode says with no error, or reports the rejected type and leaves the value as it was |
| `NullTimes.Value` | sqlite.go:220-225 | A nil receiver is NULL. Otherwise the result is Encode of the stored instant. |
| `NullTimes.EncodeThenDecode` | sqlite.go:209-225 | Before year 10000, Value then Scan gives back the instant truncated to the second, NULL included |
| `NullTimes.WholeSecondRoundTrip` | sqlite.go:209-225 | A whole-second instant before year 10000 round-trips unchanged |
| `NullTimes.DecodeThenEncode` | sqlite.go:209-225 | Canonical text naming a non-zero instant is written back exactly as it was read |
| `NullTimes.FarFutureReadsAsNull` | sqlite.go:214-224 | From year 10000 on, Value writes a year that Scan cannot parse, so the instant reads back as the zero one |
| `NullTimes.ScanValueExample` | sqlite_test.go:136-179 | `2025-01-15T12:00:00Z` scans to 2025-01-15 12:00:00 UTC, and that instant is written back as the same text |
| `Rfc3339.Format` | sqlite.go:224 | Before year 10000, the text has the `YYYY-MM-DDTHH:MM:SSZ` shape and its fields are the UTC date and time of the instant's whole second (round trips: `Rfc3339.FormatThenParse`, `Rfc3339.ParseThenFormat`) |
| `Rfc3339.Parse` | sqlite.go:214 | A parsed instant is a whole second before year 10000 |
| `Rfc3339.FormatThenParse` | sqlite.go:214-224 | Formatting then parsing gives the instant truncated to the second, for every instant before year 10000 |
| `Rfc3339.ParseThenFormat` | sqlite.go:214-224 | Text that parses formats back to exactly itself |
| `Rfc3339.FormatBeyondYear9999` | sqlite.go:214-224 | From year 10000 on, formatted text does not parse |
| `Rfc3339.FieldsOf` | sqlite.go:224 | The broken-down UTC date and time of any second count is a real date from year 1 with a valid time of day |
| `Rfc3339.FieldsOfSeconds` | sqlite.go:224 | Breaking down the second count of an in-range date and time gives back that date and time |
| `Rfc3339.SecondsOfFields` | sqlite.go:224 | Counting the seconds of a broken-down second count gives back that count |
| `Rfc3339.TextFields` | sqlite.go:214-224 | Text written from fields with a four-digit year has the layout's shape and reads back as those fields |
| `Rfc3339.TextOfLayout` | sqlite.go:214-224 | Text of the layout's shape is exactly the text written from the fields read out of it |
| `Rfc3339.InstantBelowMax` | sqlite.go:214 | Every date and time before year 10000 names a whole second before the first instant of year 10000 |
| `Calendar.DateOf` | sqlite.go:224 | The civil date of a day count is a valid date whose day count is that number |
| `Calendar.DateOfDaysOf` | sqlite.go:224 | The civil date of a valid date's day count is that date |
| `Digits.Decimal` | sqlite.go:229-233 | `%d` of a natural number: non-empty decimal digits with no leading zero |
| `Digits.ValueOfDecimal` | sqlite.go:229-233 | The digits `%d` writes read back as the number |
| `Pagination.FormatLimitOffset` | sqlite.go:227-236 | The clause is empty exactly when limit ≤ 0 and offset ≤ 0. It starts with `LIMIT ` exactly when limit > 0, and with `OFFSET ` exactly when only the offset is positive. |
| `Digits.DecimalOfValue` | sqlite.go:229-233 | Digits with no leading zero are exactly what `%d` prints for their (positive) value |
| `Pagination.FormatThenParse` | sqlite.go:227-236 | The strict reader takes the clause back to `Some((limit, offset))` of the effective bounds, 0 standing for a bound left out |
| `Pagination.ParseThenFormat` | sqlite.go:227-236 | Any text the strict reader accepts as `(limit, offset)` is exactly the clause formatted from them: the formatter writes only `""`, `LIMIT n`, `OFFSET n` and `LIMIT n OFFSET m`, with the numbers as `%d` prints them |
| `Pagination.RejectsOtherText` | sqlite.go:227-236 | A zero or zero-padded number, or a dangling `OFFSET`, is no clause the formatter writes |
| `Pagination.FormatLimitOffsetExamples` | sqlite_test.go:182-199 | The four rows of the table test: `""`, `LIMIT 10`, `OFFSET 5`, `LIMIT 10 OFFSET 5` |

## Left out

- The SQL engine: statement execution, the schema a script creates, `SELECT COUNT(*)`. The engine is an oracle of faults per script, plus a record of names and executed scripts.
- Concurrency: the single-writer pool, WAL readers, lock waits, `BEGIN IMMEDIATE` against `DEFERRED` contention, and context cancellation. Cancellation is a flag that Close sets.
- The driver's and the file system's outcomes are method parameters: `os.MkdirAll` of the DSN's directory, `sql.Open`, `Close`, `Begin`, `Exec` and `fs.ReadFile`.
- Migrate: the error return of `fs.Glob` is dropped. For the constant, well-formed pattern the standard `fs.Glob` cannot fail, but a file system that implements `fs.GlobFS` may return any error, and the source passes it on unwrapped (sqlite.go:101-103); the model never takes that branch.
- Calling Migrate, migrateFile, BeginTx or BeginReadTx before a successful Open dereferences a nil `*sql.DB` and panics in Go (sqlite.go:96, 115, 164, 184). The panic is not modelled: `Sqlite.DB.Migrate`, `Sqlite.DB.MigrateFile`, `Sqlite.DB.BeginTx` and `Sqlite.DB.BeginReadTx` require the pool they use to exist.
- Which DSN settings the driver applies is not modelled, only which settings each DSN carries. In particular, whether `mode=ro` makes the file read pool read-only (the driver may ignore the query of a DSN that is not a `file:` URI) is left open.
- Glob: the model matches file paths. Directories whose names match the pattern are not distinguished.
- The clock (`db.Now`) is a parameter of BeginTx and BeginReadTx. The `*sql.TxOptions` argument of BeginTx is not modelled, and the tests pass nil.
- Tx.Now has no contract of its own. It returns the field set at begin, and BeginTx and BeginReadTx state what that field is.
- Time zones and locations: every instant is UTC, and `UTC()` is the identity.
- Instants before year 1 are not modelled, because the model counts nanoseconds from Go's zero time as a natural number.
- NullTimes.Decode: reads only the canonical `YYYY-MM-DDTHH:MM:SSZ` form. `time.Parse` with the RFC 3339 layout also accepts numeric offsets and fractional seconds; such text is treated as not parsing (zero instant), where Go would give an instant. Year 0000, which Go parses, also fails here.
- Rfc3339.Parse: weaker than `time.Parse` in the same way as NullTimes.Decode.
- Pools.ParseQueryText: models how the driver splits a DSN's query into settings, without percent-decoding.
- DsnSettings.FileDsnSettings: assumes a DSN without `?`. A DSN that already has a query would merge its own parameters with the appended ones.
- The error text and `%w` wrapping are modelled as tagged `Errors.Error` values that carry the script name or the Go type name.
- `Scan` for driver values is limited to the types `database/sql` hands to `Scan`: nil, int64, float64, bool, []byte, string and time.Time.
