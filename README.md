# blueprint migration engine in Dafny

blueprint is a command-line schema-migration tool. A repository directory holds pairs of SQL
files, `<stamp>_<note>.sql` (up) and `<stamp>_<note>_rollback.sql` (down). Here `<stamp>` is a
`200601021504`-style timestamp. A `migrations` table in each configured database records what
has been applied. Each record has an id, a migration name and a batch number.

This project models:

- `run`, which applies every unrecorded migration in one transaction per database and gives
  the whole run the next batch number;
- `rollback`, which undoes the newest `--step` records or the newest `--batch` batches (by
  default the last batch), again in one transaction per database.

Around those two commands it also models:

- discovery of the migration files;
- the two database drivers, MySQL and PostgreSQL: the bookkeeping table, statement splitting
  and execution, inserting and deleting records, reading table definitions;
- `create`/`update`, which writes a new empty pair of migration files;
- `dump`, which writes a pair of files per existing table;
- the repository-emptiness test;
- the command line of `main`;
- the `mysql` default for database entries without a type.

Modules, one per file:

| file | module | what |
|---|---|---|
| base.dfy | Base | the error values of the tool, `Option`, `Result` |
| text.dfy | Text | the Go library functions the core relies on: `strings.Split`, `strings.TrimSpace`, `strings.ToLower`, `path.Ext`, `path.Join`, `strconv.Atoi` |
| migration.dfy | Migration | `MigrationInfo`, `Migrations`, `LoadSQLFile`, `LoadMigrations` and the properties of discovery |
| store.dfy | Store | one database as a value (`Tables`: table present, records, next id, executed statements), the driver operations on it, and the classes `Database` and `Tx` whose methods update it in place |
| engine.dfy | Engine | the apply and rollback algorithms as specification functions, and the imperative `runMigration`, `rollbackMigration`, `DoTransaction` and rollback-selection loop proved against them |
| apply_facts.dfy | ApplyFacts | properties of `run` |
| rollback_facts.dfy | RollbackFacts | properties of `rollback`, and of a rollback right after a run |
| repo.dfy | Repo | migration file names, `createMigration`, `isEmptyRepo`, `dumpSchemas` |
| config.dfy | Config | the database-type default of `loadJsonConfig` |
| cli.dfy | Cli | the dispatch and parameter parsing of `main` |

Failures of the outside world are modelled as parameters:

- a `Faults` value per database. It says which queries fail. It also holds oracles: which SQL
  statement the server refuses, given the statements executed before it, and which insert or
  delete fails, given the rows present;
- a `FileMap` of readable files;
- a `Listing` of the directory;
- a set of paths the file system refuses to write;
- the clock, as a stamp string per table;
- a `Catalog` for the tables and definitions a database reports.

Behaviours of the code worth knowing, each stated by a lemma:

- Migrations run in the order their files are first seen in the directory listing. They are
  not sorted by migration name: `LoadMigrations` never sorts, and `runMigration` iterates
  `GetNames()` as built (`Migration.DiscoverFirstSeenOrder`). `os.ReadDir` lists the directory
  by file name, so in practice this is file-name order.
- A file counts as a rollback file only when its name without the extension is longer than nine
  characters and ends with `_rollback`. So `_rollback.sql` is the up file of migration
  `_rollback` (`Migration.BareRollbackIsUpFile`). The suffix test is case sensitive while the
  extension test is not (`Migration.CaseOfExtensionAndSuffix`).
- A note that itself ends in `_rollback` makes `create` write an up file that discovery reads as
  a rollback file (`Repo.RollbackNoteMisread`).
- `isEmptyRepo` compares the extension case-sensitively, while discovery lowers it first. A
  directory holding only `X.SQL` is "empty" for `dump` even though `run` would apply it
  (`Repo.UpperCaseSqlCountsAsEmpty`).
- The batch loop of `rollbackMigration` treats batch number 0 as "no batch seen yet"
  (`Engine.NewBatch`). Batches are at least 1 in every reachable state (`Store.Valid`).
- The check that `--step` and `--batch` are not both given comes after the parameter loop. It
  replaces an error the loop already met (`Cli.StepAndBatchWins`). The token after a flag is
  always read as its value, even when it is itself a flag (`Cli.ValueNeverReadAsFlag`).
- PostgreSQL cannot dump. Its `ShowTableCreate` always fails, so `dump` on a PostgreSQL database
  with any table other than `migrations` fails before writing anything
  (`Repo.PostgreSQLDumpFails`).

## Model

| member | source | states |
|---|---|---|
| Text.TrimLeftCuts | mysql.go:90 | TrimSpace's left half removes exactly a white-space prefix and stops at the first other character |
| Text.TrimRightCuts | mysql.go:90 | the right half removes exactly a white-space suffix |
| Text.TrimSpaceEnds | mysql.go:90-94 | a trimmed statement has no white space at either end, and is empty exactly when the piece was all white space |
| Text.TrimSpaceKeepsOut | mysql.go:90 | trimming never introduces a character |
| Text.Split | mysql.go:86 | `strings.Split` gives at least one piece and no piece contains the separator |
| Text.JoinSplit | mysql.go:86 | joining the pieces with the separator gives back the SQL text: splitting loses nothing |
| Text.Lower | migration.go:79 | `ToLower` keeps the length and maps each character on its own |
| Text.LowerIdempotent | main.go:78 | lowering twice is lowering once |
| Text.Ext | migration.go:79 | `path.Ext` is a suffix that starts with '.', holds no '/' and no other '.' |
| Text.ExtFromLastDot | migration.go:79 | the extension starts at the last dot of the final path element |
| Text.SqlExt | migration.go:79-82 | a lowered extension is ".sql" exactly when the last four characters, lowered, are ".sql" |
| Text.SqlExtSuffix | migration.go:79-84 | an accepted file name has at least four characters, the ones line 84 cuts |
| Text.SqlSuffixExt | migration.go:79-82 | a name ending in ".sql" in any case has that extension |
| Text.LowerCharPunctuation | migration.go:79 | lowering does not create or remove a '.' or '/' |
| Text.SqlTailChar | migration.go:79 | inside a ".sql" tail only the first character is a dot and none is a slash |
| Text.PathJoin | migration.go:99-103 | the joined path ends with the file name |
| Text.Atoi | main.go:118 | `strconv.Atoi` accepts only 64-bit values, from text that starts with a digit or a sign |
| Text.DecimalString | main.go:118 | decimal digits of a number, at least one |
| Text.DecimalValueOfString | main.go:118 | the digits denote the number |
| Text.AtoiDecimalString | main.go:118 | `Atoi` reads back any decimal number up to the 64-bit maximum |
| Migration.ReadFile | migration.go:26-32 | `os.ReadFile` succeeds exactly on a non-empty readable path, with its contents; otherwise it fails with that path |
| Migration.LoadSQLFile | migration.go:25-39 | loading succeeds exactly when both files are readable. It fills in both contents and changes nothing else. A failure names the up file when that is unreadable, otherwise the down file |
| Migration.Migrations.GetInfo | migration.go:58-60 | the info stored for a name, or Go's zero value when there is none |
| Migration.UnknownNameFailsToLoad | action.go:346-352 | a record whose migration is not in the directory fails to load, on the empty path |
| Migration.Classify | migration.go:84-89 | name plus (for a rollback file) the suffix is the file name without its last four characters; it is a rollback file exactly when that is longer than nine characters and ends with `_rollback` |
| Migration.UpFileCandidate | migration.go:84-89 | `n.sql` is the up file of `n` |
| Migration.RollbackFileCandidate | migration.go:84-89 | `n_rollback.sql`, with the extension in any case, is the rollback file of `n` |
| Migration.BareRollbackIsUpFile | migration.go:86 | `_rollback.sql` is the up file of migration `_rollback` |
| Migration.CaseOfExtensionAndSuffix | migration.go:79-89 | the extension is matched in any case, the suffix only in lower case |
| Migration.LoadMigrations | migration.go:62-109 | an unreadable directory is an error; otherwise the result is the discovery of its entries in listing order |
| Migration.DiscoverWellFormed | migration.go:91-105 | the names are duplicate-free and exactly the keys of the infos; each info is filed under its own name; no SQL is loaded yet |
| Migration.AddEntryWellFormed | migration.go:91-105 | one entry keeps that shape |
| Migration.Dedup | migration.go:91-93 | first occurrences keep the same elements |
| Migration.DiscoverFirstSeenOrder | migration.go:73-97 | the names are the candidate names of the SQL files, each kept at its first occurrence; a name is known exactly when some file yields it |
| Migration.DiscoverFiles | migration.go:99-105 | each migration carries the path of the last up file and of the last rollback file listed for it, or "" when there is none |
| Migration.DiscoverNoFileWithoutName | migration.go:99-103 | no file path exists for a name no file yields |
| Migration.SqlFiles | migration.go:73-82 | the SQL files of the listing |
| Migration.DiscoverIgnoresOtherEntries | migration.go:73-82 | directories and non-SQL files do not affect the result |
| Migration.PairOfFiles | migration.go:91-105 | a new up/rollback pair adds one name with both paths |
| Migration.DiscoverUp | migration.go:91-102 | a new up file alone adds a name with no rollback path |
| Migration.DiscoverRollback | migration.go:99-100 | a rollback file of a known name sets only its down path |
| Migration.DiscoverHalfPair | migration.go:91-105 | a full pair then a lone up file yields both names, in that order, with the paths listed |
| Migration.HalfPairFailsLate | action.go:129-139 | a migration whose rollback file is missing is still discovered and ordered; only loading it fails, while its complete neighbour loads |
| Store.EnsureTable | mysql.go:18-40 | the check succeeds exactly when the existence query works and the table exists or can be created; success leaves the table present, failure changes nothing |
| Store.EnsureTableIdempotent | postgresql.go:32-55 | a second check finds the table and changes nothing |
| Store.ReadRecords | mysql.go:43-62 | reading succeeds exactly on an existing table whose query works, and returns its rows |
| Store.Insert | mysql.go:65-75 | an insert succeeds exactly when the table exists and the server accepts it for the rows present; it appends one row with the next id, the name and the batch, and advances the id |
| Store.RemoveIdMembers | mysql.go:78-81 | the delete keeps exactly the rows with another id |
| Store.Delete | mysql.go:78-81 | a delete succeeds exactly when the table exists and the server accepts it; it removes the rows of the id and nothing else |
| Store.RemoveIdSubsequence | mysql.go:78-81 | deleting keeps the ids ascending |
| Store.RemoveLastId | mysql.go:78-81 | deleting the newest id drops the last row |
| Store.InsertValid | mysql.go:65-75 | inserting a batch of at least 1 keeps the table invariant: ascending ids below the next id, batches at least 1 |
| Store.DeleteValid | mysql.go:78-81 | deleting keeps the table invariant |
| Store.ExecStatement | mysql.go:97-100 | one statement runs exactly when the server accepts it, and is then logged; a refusal names it |
| Store.Statements | mysql.go:86-94 | the statements executed are trimmed, non-empty and contain no ';' |
| Store.NothingToExecute | mysql.go:86-94 | a migration executes nothing exactly when its text is only white space and semicolons |
| Store.ExecPiece | mysql.go:89-100 | the loop step over one split piece: a blank piece is skipped, a refused statement stops the loop |
| Store.ExecAllOutcome | mysql.go:84-104 | on success every statement was accepted, in order, and logged; on failure some statement was refused after all before it were accepted, and the error names it |
| Store.ExecAllAccepted | mysql.go:84-104 | the success half of that statement |
| Store.ExecAllRejected | mysql.go:84-104 | the failure half of that statement |
| Store.ExecSQLKeepsRecords | mysql.go:84-104 | executing a migration's SQL changes only the schema, never the bookkeeping rows |
| Store.Tx.ExecMigration | postgresql.go:95-113 | the transaction's working state becomes the result of executing the SQL; on error the error is the refused statement's, and only the log of executed statements has grown |
| Store.Tx.InsertMigrationInfo | postgresql.go:78-88 | the working state is the insert's; a failure changes nothing |
| Store.Tx.DeleteMigrationInfo | postgresql.go:90-93 | the working state is the delete's; a failure changes nothing |
| Store.Database.CheckMigrationInfoTable | postgresql.go:32-55 | the database is as `EnsureTable` says |
| Store.Database.GetMigrationInfos | postgresql.go:57-76 | the rows as `ReadRecords` says |
| Store.Database.Begin | action.go:266-269 | a transaction starts on the committed state unless beginning fails |
| Store.Database.Commit | action.go:275 | a commit installs the transaction's state; a failed commit keeps the old state |
| Store.Database.GetTables | postgresql.go:123-139 | the table list the database reports, or an error |
| Store.Database.ShowTableCreate | postgresql.go:115-121 | PostgreSQL always fails; MySQL returns the definition the database reports, or fails |
| Engine.RecordedMembers | action.go:119-125 | the set of recorded names holds exactly the names of the rows |
| Engine.MaxBatchBound | action.go:114-127 | the maximum batch bounds every row's batch and is one of them, or 0 without rows |
| Engine.Newest | action.go:315 | the rows newest first |
| Engine.LongestPrefix | action.go:325-341 | the longest newest-first prefix spanning at most the requested number of batches |
| Engine.Selection | action.go:299-342 | what a rollback removes is a newest-first prefix of the rows |
| Engine.Transaction | action.go:265-276 | `DoTransaction`: the body's state is committed exactly when begin, body and commit all succeed; otherwise nothing changes and the error is the first that occurred |
| Engine.Sweep | action.go:108-158 | the fan-out over databases keeps one state per database |
| Engine.RunSpec | action.go:101-161 | the same for `run` |
| Engine.RollbackSpec | action.go:279-374 | the same for `rollback` |
| Engine.ApplyMigrations | action.go:128-154 | the closure of `runMigration` leaves the transaction in the state of the apply specification, with its error |
| Engine.UndoMigrations | action.go:344-367 | the closure of `rollbackMigration` leaves it in the state of the undo specification |
| Engine.RunBody | action.go:270 | running either closure agrees with its specification |
| Engine.DoTransaction | action.go:265-276 | the database and error are those of `Transaction` |
| Engine.ApplyToDatabase | action.go:109-157 | one database of `runMigration` ends as `ApplyOnDb` says |
| Engine.ScanRecords | action.go:114-125 | the loop over the rows computes the maximum batch and the set of recorded names |
| Engine.SelectForRollback | action.go:299-342 | the selection loop, as written with its counters and batch-0 sentinel, computes `Selection` |
| Engine.GroupsStep | action.go:330-332 | one more row adds a batch exactly when it starts a new batch |
| Engine.GroupsMonotone | action.go:330-332 | a longer prefix spans no fewer batches |
| Engine.LongestPrefixAt | action.go:334-336 | the loop stops at the first row past the requested number of batches |
| Engine.RollbackDatabase | action.go:290-370 | one database of `rollbackMigration` ends as `RollbackOnDb` says |
| Engine.States | action.go:108 | one state per connection |
| Engine.FaultsOf | action.go:108 | one failure oracle per connection |
| Engine.OnDatabase | action.go:108-158 | the loop body for either action |
| Engine.ForEachDatabase | action.go:108-158 | the loop over the connections leaves each database as the fan-out specification says |
| Engine.Visit | action.go:108-158 | one iteration updates only the database it visits |
| Engine.RunMigration | action.go:101-161 | `runMigration` leaves every database and returns the error as `RunSpec` says |
| Engine.RollbackMigration | action.go:279-374 | `rollbackMigration` leaves every database as `RollbackSpec` says |
| ApplyFacts.PendingMembers | action.go:129-133 | the migrations a run applies are exactly the listed names that are not yet recorded |
| ApplyFacts.NewRowsCons | action.go:145-148 | the rows of a run are consecutive ids with one batch |
| ApplyFacts.RowsStep | action.go:129-151 | the per-name step of the rows a run appends |
| ApplyFacts.ApplyOneRecords | action.go:129-151 | a recorded name is skipped; otherwise the statements of its up file are executed and then exactly one row with the next id and the run's batch is added |
| ApplyFacts.ApplyAllRecords | action.go:128-154 | a successful body executes the up files of the pending names in `GetNames` order and appends one row per pending name, in the same order, with consecutive ids and one batch |
| ApplyFacts.ApplyAllNothingPending | action.go:130-133 | with every name recorded, the body changes nothing |
| ApplyFacts.ApplyOnDbSuccess | action.go:108-157 | after a successful run the table exists, the up files of the pending migrations have been executed in `GetNames` order, and the rows are the old ones followed by the pending ones with batch max+1 |
| ApplyFacts.ApplyOnDbFailure | action.go:128-157 | a failed run leaves the rows as they were (at most the empty table was created) |
| ApplyFacts.ApplyOnDbEarlyFailure | action.go:109-118 | a failed table check or record read stops before any migration, with the wrapped error |
| ApplyFacts.AllRecordedAfterRun | action.go:128-154 | after a successful run every listed migration is recorded |
| ApplyFacts.RecordedAfterAppend | action.go:145-148 | appending the pending rows records every name |
| ApplyFacts.NothingToApply | action.go:129-133 | when everything is recorded and the database works, a run succeeds and changes nothing |
| ApplyFacts.SecondRunChangesNothing | action.go:119-133 | running twice is running once: migrations are applied at most once |
| ApplyFacts.ApplyOnDbValid | action.go:108-157 | a run keeps the table invariant |
| ApplyFacts.AppendRowsValid | action.go:145-148 | appending a run's rows keeps the invariant |
| ApplyFacts.SweepOutcome | action.go:108-158 | databases are handled in order: on success each ran successfully; on failure some database failed after the ones before it succeeded, and the ones after it are untouched |
| ApplyFacts.RunSpecOutcome | action.go:101-161 | the same for `runMigration`, with each database's result being `ApplyOnDb` |
| ApplyFacts.UnreadableDirTouchesNothing | action.go:103-106 | an unreadable migration directory fails either command without touching any database |
| RollbackFacts.StepSelection | action.go:315-323 | with a positive step the newest `min(step, n)` rows are removed, newest first, whatever the batch |
| RollbackFacts.GroupsPositive | action.go:325-341 | a non-empty run of rows spans at least one batch |
| RollbackFacts.BatchSelectionWholeGroups | action.go:325-341 | with a positive batch the selection is non-empty, spans `min(batch, batches present)` batches and stops only at a batch boundary |
| RollbackFacts.FiveRecordGroups | action.go:325-341 | batch counts along five rows of batches 1,1,2,2,3 |
| RollbackFacts.BatchExample | action.go:299-342 | on batches 1,1,2,2,3: `--batch 1` removes the 3, `--batch 2` removes 3,2,2, `--batch 3` removes all, `--step 2` removes the two newest |
| RollbackFacts.OneGroupOneBatch | action.go:325-341 | rows spanning one batch share one batch number |
| RollbackFacts.DefaultRollsBackLastBatch | action.go:285-287 | with neither flag exactly the rows of the last batch are removed |
| RollbackFacts.NewestTail | action.go:315 | the newest-first order after dropping the newest row |
| RollbackFacts.UndoOneRecords | action.go:346-363 | undoing one record executes the statements of its rollback file and deletes exactly its id |
| RollbackFacts.UndoAllRecords | action.go:345-365 | a successful undo executes the rollback files of the list in its order and removes exactly the selected rows |
| RollbackFacts.RemoveNewest | action.go:345-365 | removing the newest k rows leaves the oldest ones |
| RollbackFacts.UndoNewest | action.go:344-367 | undoing the newest k rows executes their rollback files newest first and leaves the others, with the id counter untouched |
| RollbackFacts.RollbackOnDbOutcome | action.go:289-370 | a failed rollback leaves the database as it was; an empty table is "nothing to rollback"; success executes the selected records' rollback files newest first and removes exactly those newest rows |
| RollbackFacts.RollbackOnDbValid | action.go:289-370 | a rollback keeps the table invariant |
| RollbackFacts.UnknownNameBlocksUndo | action.go:346-352 | a selected record whose files are gone makes the undo fail |
| RollbackFacts.UnknownNameBlocksRollback | action.go:344-370 | and then the rollback fails and changes nothing |
| RollbackFacts.RollbackSpecOutcome | action.go:279-374 | `rollbackMigration` handles the databases in order, with the default batch, and stops at the first failure |
| RollbackFacts.SameBatchOneGroup | action.go:325-341 | rows of one batch span one batch |
| RollbackFacts.LastBatchIsNewRows | action.go:325-341 | the default rollback selects exactly the rows of the newest batch |
| RollbackFacts.DefaultRollbackRemovesNewer | action.go:285-370 | the default rollback removes exactly the newest batch's rows |
| RollbackFacts.RunAddsNewestBatch | action.go:127-148 | a run with something to do appends rows with one batch larger than every earlier batch |
| RollbackFacts.RunThenDefaultRollback | action.go:285-342 | a successful `run` followed by a default `rollback` restores the rows from before the run |
| Repo.Zeros | action.go:422 | a string of n zero digits |
| Repo.DecimalStringWidth | action.go:422 | a number below 10^w has at most w digits |
| Repo.LeadingZeros | action.go:422 | leading zeros do not change the value |
| Repo.PaddedField | action.go:422 | a zero-padded field has exactly its width and denotes the number |
| Repo.StampLayout | action.go:421-423 | the stamp is twelve digits: year, month, day, hour and minute in that order |
| Repo.FilenamesOfName | action.go:420-425 | the two names are the migration name plus ".sql" and plus "_rollback.sql" |
| Repo.FilenamesDiscovered | action.go:420-425 | a new pair of files is discovered as one migration with both paths |
| Repo.RollbackNoteMisread | action.go:422 | a note ending in "_rollback" yields an up file read back as a rollback file |
| Repo.CreateMigrationFiles | action.go:164-189 | outside a repository nothing is created. Otherwise two empty files are created in order; creation stops at the first refused path, whose error it returns |
| Repo.CreatedPairDiscovered | action.go:175-186 | the created pair is discovered as one new migration at the end of the order, with those two paths |
| Repo.IsEmptyRepo | action.go:394-418 | the loop finds a file with extension ".sql" exactly as `EmptyRepo` says; a missing or unreadable path and a plain file are errors |
| Repo.UpperCaseSqlCountsAsEmpty | action.go:412 | a directory with only `X.SQL` is empty here, yet discovery finds migration `X` |
| Repo.EmptyButScanned | action.go:412 | any entry discovery accepts but the emptiness test ignores behaves so |
| Repo.UpperCaseUpFile | migration.go:79 | `X.SQL` is an up file whose extension is not ".sql" as written |
| Repo.FilterTablesMembers | action.go:207-215 | the filtered list holds exactly the tables other than `migrations`, and is the listing itself when that is absent |
| Repo.FilterTablesIdempotent | action.go:207-215 | filtering twice is filtering once |
| Repo.FilterOutMigrations | action.go:207-215 | the loop computes that filter |
| Repo.ShowAllFirstFailure | action.go:217-224 | collecting succeeds exactly when every table's definition is available, and otherwise fails with the first failing table's error |
| Repo.CreationsSnoc | action.go:223 | each table adds its definition to the map |
| Repo.CollectCreations | action.go:217-224 | the loop returns the map of definitions, or the first failure |
| Repo.Jobs | action.go:246-249 | one write job per table |
| Repo.JobAt | action.go:247-249 | the k-th job writes `create_<lowered table>` with the table's definition and a `DROP TABLE` rollback |
| Repo.WriteStep | action.go:246-259 | one step of the writing loop |
| Repo.WriteTables | action.go:246-259 | the writing loop produces exactly `WriteAll` of the jobs |
| Repo.PairsCons | action.go:226-244 | a table's two files precede the later tables' |
| Repo.WriteAllSuccess | action.go:226-259 | a successful write produced two files per table, in order, none of them refused |
| Repo.StoppedAtCons | action.go:226-259 | the stop point carries through earlier tables |
| Repo.WriteAllFailure | action.go:226-259 | a failed write stopped at some table, after writing every earlier table's pair |
| Repo.DumpSchemas | action.go:192-262 | `dumpSchemas` returns the error and writes the files `DumpSpec` says |
| Repo.NonEmptyRepoRefused | action.go:198-200 | without `--force` a repository holding a ".sql" file is refused and nothing is written |
| Repo.PostgreSQLDumpFails | postgresql.go:115-121 | a PostgreSQL dump with a table to dump fails on the first table, writing nothing |
| Repo.DumpSuccess | action.go:192-262 | a successful dump was allowed (empty or forced) and wrote, per non-`migrations` table in order, its definition and its `DROP TABLE` text under the table's two names |
| Repo.DumpedPairDiscovered | action.go:246-255 | the dumped files of a table are discovered as one migration with both paths |
| Config.WithDefaultType | config.go:37-41 | an entry without a type becomes "mysql"; every other field and any given type stay |
| Config.WithDefaultTypeIdempotent | config.go:37-41 | defaulting twice is defaulting once |
| Config.ApplyTypeDefaults | config.go:37-41 | the in-place loop leaves the list `Defaulted` |
| Config.Defaulted | config.go:37-41 | the same length, every entry typed |
| Config.DefaultedKeepsFields | config.go:37-41 | each entry keeps its place and every field but an empty type |
| Config.DefaultedTyped | config.go:37-41 | a fully typed list is unchanged |
| Cli.ParseRollbackParams | main.go:105-137 | the parameter loop as written computes `RollbackParams` |
| Cli.ForceRequested | main.go:97-102 | `--force` is set exactly when one parameter is `--force` |
| Cli.Dispatch | main.go:72-148 | the command chosen is `CommandFor` of the arguments |
| Cli.ActionCaseInsensitive | main.go:78 | the action word is matched in any case |
| Cli.ScanValues | main.go:110-134 | values read are at least 1 |
| Cli.AcceptedRollbackParams | main.go:108-137 | an accepted rollback has non-negative values and never both a step and a batch |
| Cli.ScanShift | main.go:110-134 | an index shift: the loop over `a + [x] + b` from a position after `x` equals the loop over `a + b` from the matching position, for any `x` |
| Cli.IgnoredAt | main.go:110-134 | a non-flag token at the position the loop examines is skipped: the loop from there equals the loop without the token |
| Cli.ScanConcat | main.go:110-134 | when the loop reads `a` without an error, the loop over `a + c` reaches the end of `a` in the state it ended `a` in, taking no value from `c` |
| Cli.IgnoredBetween | main.go:110-137 | a non-flag token anywhere the loop examines it (after error-free parameters `a`) leaves the rollback parameters as without it |
| Cli.IgnoredToken | main.go:110-134 | a leading non-flag token does not change the result |
| Cli.MissingValue | main.go:113-116 | a flag as the last token, after any error-free parameters, stops the loop with an invalid-parameter error, keeping the values read so far; the final error is that one unless both a step and a batch were read |
| Cli.ValueNeverReadAsFlag | main.go:117-121 | wherever a flag stands and whatever follows, the token after it is read as its value even when it is a flag, and the loop stops with not-an-integer |
| Cli.ValueBelowOne | main.go:122-132 | wherever the flag stands, a value of 0 is refused with the flag and the token; a value of at least 1 sets that flag and the loop continues after the value |
| Cli.LastValueWins | main.go:126-131 | after any error-free parameters (earlier values of the same flag and any tokens between included), a final flag and value set that flag to the value and keep the other flag's value |
| Cli.StepAndBatchWins | main.go:135-137 | a step and a batch together are refused, whatever follows |
| Cli.Dispatching | main.go:72-147 | no arguments or `RUN` runs, `dump` forces per `--force`, anything else shows help |

## Left out

- `initBlueprint` (interactive prompts, writing `blueprint.json`) and the `input` prompt: interactive I/O. `createMigration` takes the typed table name as a parameter.
- JSON parsing and reading the configuration file in `loadJsonConfig`: only the type default after parsing is modelled.
- Connecting (`connectToDb`, the drivers' `Connect`), `bootstrap`, `cleanup`, printing, `echoHelp` and `os.Exit`: I/O outside the engine.
- The literal DDL and DML strings the drivers send: the bookkeeping table is modelled by its effect, and statements by the `rejects` oracle.
- MySQL DDL is not transactional. The model treats every statement as rolled back with the transaction, as the code assumes.
- The MySQL `SHOW CREATE TABLE` query and the PostgreSQL/MySQL table listings: a `Catalog` parameter stands for what the server reports.
- mysql.go defines free functions, not a `DatabaseDriver`, and has no `GetTables`. The model gives both drivers the same interface, with the MySQL tables coming from the `Catalog`.
- The partial update `LoadSQLFile` makes before its second read fails: no caller looks at the info after an error.
- Text.PathJoin: does not clean `.`, `..` or doubled slashes as `path.Join` does; it only joins with one slash.
- `Text.Lower`: lowers ASCII letters, the Kelvin sign and U+0130 only; other Unicode case mappings are left out.
- Go's `uint` widths for ids and batches: integers are unbounded.
- `RollbackFacts.RollbackOnDbOutcome`: assumes the rows come back in ascending id order. The queries have no `ORDER BY`, and the rollback loop relies on that order.
- The `Listing` is taken in the order given: the model does not assume that `os.ReadDir` sorts by file name.
- `time.Now`: the clock is a parameter, one stamp per dumped table.
- `isBlueprintRepo`'s `os.Stat` error: whether the directory is a repository is a parameter.
- Partial writes of `os.WriteFile` and `os.Create`: a path is either written whole or refused.
- `dumpSchemas(dbs[0], …)` panics when there is no database: the model takes one database.
- `Engine.RunMigration`, `Engine.RollbackMigration`: require distinct connection objects, which the configuration creates one per entry.
- The error of `tx.Rollback` is ignored by the code and left out.
- A failed commit is modelled as leaving the committed state unchanged.
- Store.ExecStatement: an executed statement only appends to the log of executed statements. A migration's SQL that creates, drops or changes the `migrations` table or its rows (`DELETE FROM migrations`, `DROP TABLE migrations`) is not modelled. `ApplyFacts.SecondRunChangesNothing`, `ApplyFacts.AllRecordedAfterRun` and `RollbackFacts.RunThenDefaultRollback` rely on this assumption.
- Store.ExecSQLKeepsRecords: holds because of that same assumption.
- Engine.Transaction: a failed transaction restores the whole state, the id counter included. MySQL auto-increment values and PostgreSQL sequences are not rolled back, so real ids skip after a failed run. The model's ids stay consecutive.
- `GetUpSQL` is not called by the engine, which reads the field; `GetDownSQL` is a plain accessor.
