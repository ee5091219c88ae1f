# ctlstore: verification model of the ledger pipeline

ctlstore keeps a local SQLite copy (the LDB) of a central database (the ctldb) on every host. The
executive applies each Mutate to the ctldb tables and logs the same statements in a ledger; a reflector
on each host tails the ledger and replays it. This project models that pipeline in Dafny and proves what
it promises, above all that an LDB is always an exact ctldb snapshot at a Mutate boundary, whatever fails.

Two kinds of files stand beside each other. Files named after a component hold its imperative model (a
class whose methods follow the Go control flow, with SQL calls that may fail) and the function that
specifies each method. The theorems are about those functions, and about the state machines built from
them:

- `Tables`, `TableEffects`, `Ledger`: SQL values and tables, what statements do to rows, ledger rows, blocks,
  replay.
- `LdbWriter`, `LdbWriterTheorems`: the replay writer with its open ledger transaction.
- `DmlSource`, `Shovel`, `Reflector`, `ReflectorProgress`: the paging cursor, the pump loop, the crash-and-restart
  loop and its progress.
- `Mutators`, `CtlDb`, `Limiter`, `Executive`, `MutateTheorems`: cookies, the ledger writer, rate limits, Mutate and
  what it does in terms of its requests.
- `Interleaving`, `InterleavingTheorems`, `SoloMutates`, `CookieReuse`: Mutates running at the same time, statement
  by statement.
- `Replication`, `CatchUp`: the whole system as one state machine: prefix consistency and progress.
- `Names`, `SqlText`: the `family___table` encoding and the SQL text of ledger statements.
- `ChangeFeed`, `LogWriter`, `LineReader`, `Changelog`: the changelog from row change to iterator, and end to end.
- `ChangeEffects`: which of the changes handed to callbacks have taken effect.
- `Lifecycle`: the start/stop controller.

How the outside world is modelled:

- A database handle is a committed value plus the value its open transaction sees. A `sql.Tx` that has
  been committed or rolled back, but is still referenced, answers every call with an error.
- Each call takes as a parameter which SQL, file or network call fails. One fault per call is enough,
  because whatever follows the first failure is a rollback.
- Endless loops take a script: one element for each turn, saying what the environment does in it.
- Integers are unbounded. Ledger numbers come from a 32-bit auto-increment column, so the 64-bit
  arithmetic of the Go code does not wrap on them. The counter is not restored by a rollback (it may also
  be set back to anything above the committed rows), so rolled-back Mutates leave holes.

Where the code and its comments disagree, the model follows the code:

- `pkg/reflector/shovel.go:67-74` expects `context.DeadlineExceeded` from a slow source, but
  `sqlDmlSource.Next` wraps every error, so with the SQL source a timeout ends the shovel
  (`TimeoutEndsTheLoop`; exactly when a poll ends it: `FailedPollsEndTheLoop`).
- `pkg/executive/db_executive.go:389-391` says that an unknown writer gives a cookie conflict; the code
  returns `ErrWriterNotFound` (`UnknownWritersAreNotFound`).
- `pkg/reflector/reflector_ctl.go:60-62` calls the controller last-write-wins; after a stop that timed
  out, a start is acknowledged without starting anything (`StartAfterStopTimeout`; exactly when a start serves:
  `StartServesExactlyWhen`).
- The skip check of the shovel takes sequence 0 for "nothing applied yet" (`ZeroHidesAnySkip`; exactly when the
  check keeps its promise: `StepRuleHoldsExactlyWhen`).
- A table of a family whose name ends in an underscore can be created, but its name does not decode, so
  every Mutate on it fails (`AnUnderscoreFamily`, `UnderscoreFamiliesAlwaysFail`; exactly when the tables are
  found: `TablesAreFetchedExactlyWhen`).
- Callbacks are not handed only changes that took effect: the buffer drains at every statement that succeeds,
  also inside a ledger transaction that is rolled back later (`AChangeHandedOverAndUndone`; exactly when they
  are: `HandedAreEffectiveExactlyWhen`).

## Model

| member | source | states |
|---|---|---|
| Ledger.AppendBlock | pkg/executive/db_executive.go:397-471 | appending a block above the last number keeps the ledger well formed (markers alternate, no hole inside a transaction, none left open), and its end is the only new boundary |
| Ledger.BlocksAreWellFormed | pkg/executive/db_executive.go:404-413 | a concatenation of blocks with climbing numbers is exactly what a reader may rely on: every row fits the rows before it |
| Ledger.ReplayBlock | pkg/executive/db_executive.go:416-464 | replaying a logged block, markers included, gives the same tables as running the batch |
| TableEffects.FitsExactlyWhen | pkg/sqlgen/sqlgen.go:191-266 | when a statement is no SQL error: its table exists, its fields are the columns or key columns, it has one value for each, and an upsert has no NULL in the key |
| TableEffects.ExecSetsItsRow | pkg/sqlgen/sqlgen.go:191-266 | an upsert makes the row under its key exactly its values, a delete leaves no row under its key; every other row of every table, and all columns and keys, stay |
| TableEffects.LastStatementDecides | pkg/executive/db_executive.go:452-456 | after any list of statements the last one on a key decides its row: the values of an upsert, none after a delete, the row of the start if there is none on it |
| LdbWriter.SqlLdbWriter.ApplyDMLStatement | pkg/ldbwriter/ldb_writer.go:44-185 | every call, with any SQL call failing, moves the handle, the ledger transaction and the error exactly as the specification `Apply` says, about which the rows below are proved |
| LdbWriter.SqlLdbWriter.Close | pkg/ldbwriter/ldb_writer.go:187-193 | rolls back what is left and gives back a fresh writer |
| LdbWriterTheorems.ChangesExactlyOnCommit | pkg/ldbwriter/ldb_writer.go:130-184 | the committed LDB changes if and only if a lone statement outside a ledger transaction, or a COMMIT of an open one, returns success; each change strictly raises the stored number, to that of the statement |
| LdbWriterTheorems.ReplaysAreRefused | pkg/ldbwriter/ldb_writer.go:90-120 | a statement at or below the number its transaction sees is an error and never takes effect |
| LdbWriterTheorems.JournalExplainsRun | pkg/ldbwriter/ldb_writer.go:44-185 | for any calls, well formed or not, with any failures: the committed LDB is the starting one after exactly the statements whose transactions returned success, in order, with climbing numbers |
| TableEffects.JournalDecidesTheRows | pkg/ldbwriter/ldb_writer.go:44-185 | for any calls with any failures, the committed LDB holds under every key what the last statement on it leaves, of those whose transactions returned success |
| TableEffects.LoneStatementSetsItsRow | pkg/ldbwriter/ldb_writer.go:153-184 | a successful statement outside a ledger transaction has written or deleted its row in the committed LDB, and no other |
| TableEffects.AppliesExactlyWhen | pkg/ldbwriter/ldb_writer.go:44-185 | a call succeeds if and only if no SQL call it makes fails, the writer is not poisoned, the number is above the visible one, BEGIN is outside and COMMIT inside a ledger transaction, and a row statement fits its table |
| LdbWriterTheorems.PoisonedExactlyWhen | pkg/ldbwriter/ldb_writer.go:58-75 | which calls poison the writer: any failure with a ledger transaction set, also of a BEGIN after opening it or a nested BEGIN, and no other |
| LdbWriterTheorems.PoisonedUntilClose | pkg/ldbwriter/ldb_writer.go:58-162 | a poisoned writer refuses every apply and changes nothing until Close, after which it is a new writer |
| DmlSource.SqlDmlSource.ReadRows | pkg/reflector/dml_source.go:70-105 | whichever scan fails, exactly the rows scanned before it are buffered, and lastSequence is that of the last of them |
| DmlSource.SqlDmlSource.Next | pkg/reflector/dml_source.go:40-124 | one call, with its fault, is one step of the cursor specification `NextStatement` |
| DmlSource.NextHandsOutNext | pkg/reflector/dml_source.go:113-124 | a reader that has been handed the first p rows of the ledger gets row p next, or nothing |
| DmlSource.SourceIsExact | pkg/reflector/dml_source.go:40-124 | for every page size, mid-page failure and growth of the ledger: rows delivered, followed by the buffer, are exactly the ledger rows with start < seq <= lastSequence, in order |
| DmlSource.ReadsOnePage | pkg/reflector/dml_source.go:42-119 | a read that nothing fails takes exactly the next rows up to the block size, 100 unless configured, hands out the first and buffers the rest |
| Shovel.ShovelLoop.LoopPass | pkg/reflector/shovel.go:43-128 | one pass over the SQL source and the writer is one step `Once`: stop, poll, skip check, apply, context check |
| Shovel.ShovelLoop.Start | pkg/reflector/shovel.go:28-129 | the loop runs passes until one ends it; the result is that of `RunShovel` |
| Shovel.ShovelIsPump | pkg/reflector/shovel.go:53-62 | the loop over the SQL source is an instance of the loop over an arbitrary source |
| Shovel.NextPassExactly | pkg/reflector/shovel.go:60-127 | in any run so far: the next pass aborts if and only if aborting is on, something not numbered 0 has been applied, and the offered number leaves a hole after it above maxSeqOnStartup; otherwise it applies the row, or fails with its error, or ends when the context is done |
| Shovel.StopsNormallyExactlyWhen | pkg/reflector/shovel.go:44-50 | a running loop ends normally if and only if it is stopped before the next pass, which does nothing |
| Shovel.FailedPollsEndTheLoop | pkg/reflector/shovel.go:60-90 | with the SQL source no failed poll is retried: in every run the loop ends with the source's error if and only if a pass that was not stopped has to read and its read fails |
| Shovel.TimeoutEndsTheLoop | pkg/reflector/shovel.go:63-74 | at a concrete input: a first poll that times out ends the loop, while a source returning DeadlineExceeded itself would be asked again |
| Shovel.StepRuleHoldsExactlyWhen | pkg/reflector/shovel.go:95-117 | with abortOnSeqSkip, and for every source and failures, each applied number above maxSeqOnStartup is its predecessor plus one if and only if the LDB had a stored number when the shovel started and it was not negative |
| Shovel.RunIsSafe | pkg/reflector/shovel.go:38-117 | on any LDB: applied numbers strictly climb in every run, and the step rule fails at most right after a statement numbered 0 |
| Shovel.ZeroHidesAnySkip | pkg/reflector/shovel.go:95-96 | the run that breaks the rule on every other LDB: after a statement numbered 0, any skip is applied |
| CtlDb.MutatorStore.ExecUpdate | pkg/executive/mutators_store.go:106-122 | the guarded UPDATE changes one row exactly when writer, secret and, if given, cookie match |
| CtlDb.MutatorStore.Update | pkg/executive/mutators_store.go:93-144 | compare-and-set: success stores the cookie; any error leaves the transaction as it was, and tells a wrong cookie from an unknown writer |
| Mutators.UpdateSetsOneCookie | pkg/executive/mutators_store.go:103-114 | a successful update sets the cookie of this writer and moves its clock on; its secret and all other writers are as before |
| CtlDb.DmlLedgerWriter.Add | pkg/executive/dml_ledger_writer.go:31-57 | appends one row numbered by the counter and moves the counter on; a failed insert changes neither, a failed LastInsertId comes after both |
| Mutators.NoRequestTwice | pkg/executive/mutators_store.go:93-144 | in a chain of checked cookie writes by a writer that reuses no cookie, no request is committed twice |
| CookieReuse.FirstCookieReusedCommitsTwice | pkg/executive/mutators_store.go:109-112 | that the first cookie counts is needed: from any idle state there is a run of the interleaved machine in which a writer that keeps to every other rule commits one request twice |
| Limiter.DbLimiter.CheckWriterRates | pkg/executive/db_limiter.go:72-119 | charges the current bucket of the writer in the open transaction and allows exactly up to its limit; zero mutations are always allowed; an SQL error is neither |
| Limiter.DbLimiter.DeleteOldUsageData | pkg/executive/db_limiter.go:169-185 | deletes exactly the rows of buckets below the epoch |
| Limiter.EpochMonotone | pkg/executive/db_limiter.go:231-233 | the bucket of a later time is never an earlier bucket |
| Limiter.CurrentBucketIsKept | pkg/executive/db_limiter.go:169-172 | collection never deletes the current bucket or a later one |
| Limiter.TruncateIsPeriodStart | pkg/executive/db_limiter.go:231-233 | truncation gives the multiple of the period at or before the time, less than one period back |
| Limiter.BucketsArePeriods | pkg/executive/db_limiter.go:231-233 | for a period of a second or more two times share a bucket if and only if they are in one period, and buckets are ordered as periods are |
| Limiter.BucketsArePeriodsExactlyWhen | pkg/executive/db_limiter.go:231-233 | buckets are periods if and only if the period is at least a second, because buckets are numbered in seconds |
| Limiter.CollectedExactlyWhen | pkg/executive/db_limiter.go:169-172 | for a period of a second or more, a collection deletes a bucket if and only if its period is before the one that was current a day ago |
| Limiter.UsageIsExact | pkg/executive/db_limiter.go:72-119 | over any serial run with a clock that never goes back: each uncollected bucket holds exactly the requests its writer committed in it, at most the limit at the last of those commits; a collected one is gone for good |
| Limiter.AcceptedExactlyWhen | pkg/executive/db_limiter.go:72-119 | in any run, a Mutate with which everything else is in order commits if and only if the requests its writer has committed in the current period and its own are within the limit |
| Executive.ValuesAreInOrder | pkg/executive/executive.go:77-87 | valuesByOrder succeeds exactly when no field is missing, and then gives the value of each field in order |
| Executive.TablesAreFetchedExactlyWhen | pkg/executive/db_executive.go:322-333 | the tables of a call with valid names are found if and only if it names some, the lookups succeed, all exist, and the family does not end in an underscore |
| Executive.UnderscoreFamiliesAlwaysFail | pkg/executive/db_executive.go:322-333 | every Mutate on a family whose name ends in an underscore fails, whatever it asks for |
| Executive.AnUnderscoreFamily | pkg/schema/family_name.go:25-54 | such a family name is valid and its table can exist: the concrete call that fails |
| Executive.UnknownWritersAreNotFound | pkg/executive/db_executive.go:389-395 | a writer that is not registered, or gives another secret, never commits and is never told of a cookie conflict; it gets ErrWriterNotFound if and only if the cookie is checked and neither cookie is too long |
| Executive.DbExecutive.WriteRequests | pkg/executive/db_executive.go:416-464 | the loop executes and logs the requests in order with consecutive numbers, or stops at the first that fails |
| Executive.DbExecutive.PassGate | pkg/executive/db_executive.go:345-395 | rate limit, ledger lock and cookie check, in that order; passing charges the usage and stores the cookie |
| Executive.DbExecutive.LogBatch | pkg/executive/db_executive.go:397-471 | what is logged is one block for the batch, with markers exactly when it has more than one request |
| Executive.DbExecutive.Mutate | pkg/executive/db_executive.go:291-490 | all or nothing: an error leaves tables, ledger, cookie and usage as they were; success leaves the cookie, the charge, the batch and one block (`CommittedAs`); the first failing check decides the error |
| MutateTheorems.PlansWhatIsRequested | pkg/executive/db_executive.go:424-450 | a request becomes an upsert of all columns, or if it deletes, a delete by the key columns, with the values of the request in order, if the text is not too long |
| MutateTheorems.CommittedAsRequested | pkg/executive/db_executive.go:415-464 | the statements that a committed Mutate executes and logs are, one for one and in order, those its requests ask for |
| MutateTheorems.LastRequestDecides | pkg/executive/db_executive.go:415-476 | after a committed Mutate the last request for a key decides its row: gone if it deletes, the values of the request for every column if it writes, as before if there is none |
| MutateTheorems.CommitsExactlyWhen | pkg/executive/db_executive.go:302-476 | without SQL failures a Mutate commits if and only if it has 1 to 100 requests on existing tables, the family does not end in an underscore, the writer is within its limit, registered with this secret and passes the cookie check with short cookies, and the statements asked for can run |
| MutateTheorems.FaultsAreNeverHidden | pkg/executive/db_executive.go:302-476 | with an SQL failure a Mutate commits if and only if it would without it and does not make the failing call |
| Executive.SerialMutateIsAtomic | pkg/executive/db_executive.go:335-476 | the serial Mutate is the indivisible Mutate that the interleaved ones reduce to |
| Executive.LoggedTextReadsBack | pkg/executive/db_executive.go:421-463 | the statement text that a committed Mutate logs reads back, row by row, as the statement it executed |
| Interleaving.CommitIsAtomic | pkg/executive/db_executive.go:358-377 | because the row lock is held from before the cookie check, a commit is an indivisible Mutate on the committed state, whatever ran between its statements |
| InterleavingTheorems.StepKeeps | pkg/executive/db_executive.go:335-476 | every step of every Mutate keeps the invariant; only commits touch committed tables and ledger |
| InterleavingTheorems.StepKeepsOk | pkg/executive/db_executive.go:358-376 | the committed ledger only grows at its end, by a whole block: no row appears below a number already visible, and it always replays to the tables |
| InterleavingTheorems.LedgerIsBlocks | pkg/executive/db_executive.go:397-476 | however Mutates interleave and roll back: the ledger is the concatenation of one block per committed Mutate, in commit order, and the tables are the result of those batches |
| SoloMutates.SoloCommits | pkg/executive/db_executive.go:335-476 | any batch can commit: from every state with a free lock in which the cookie check passes and the statements can be executed, there is a run that commits it, as one block and one cookie write |
| InterleavingTheorems.OutsideStepsArePossible | pkg/executive/mutators_store.go:93-144 | a Mutate can always begin and roll back; with a free lock a writer can register, and can set its cookie, exactly when its secret and cookie allow it |
| InterleavingTheorems.CookiesChain | pkg/executive/mutators_store.go:109-140 | in every run, also of writers that register during it, each committed checked write of a cookie names the cookie committed just before it, the first one the cookie the writer had or registered with |
| InterleavingTheorems.RetriesEnterTheLedgerOnce | pkg/executive/db_executive.go:382-395 | a writer, registered before or during the run, that reuses no cookie may retry: no request of its enters the ledger twice |
| Replication.BuildKeeps | pkg/reflector/reflector.go:168-227 | a shovel built on a closed LDB starts at the block boundary stored there |
| Replication.PollKeeps | pkg/reflector/dml_source.go:40-124 | a poll, failing or not, keeps the source exactly behind the ledger |
| Replication.PushKeeps | pkg/reflector/shovel.go:95-117 | a delivery, with any failure or a skip, keeps the LDB a snapshot at a boundary and the open transaction a prefix beyond it |
| Replication.BoundariesWereEnds | pkg/executive/db_executive.go:473-476 | every boundary of the ledger was the end of the ledger at some moment of the run |
| Replication.PrefixConsistency | pkg/reflector/reflector.go:168-283 | in every interleaving of Mutates, rollbacks, polls, applies, SQL failures, crashes and restarts, the committed LDB is the ctldb as it stood at some moment, with the number of the last ledger row at that moment |
| Replication.NeverGoesBack | pkg/ldbwriter/ldb_writer.go:90-120 | no step of the system lowers the number stored in the LDB |
| Replication.Timeline | pkg/reflector/reflector.go:168-283 | over a whole run there is a moment of the ctldb for every step, not after it and never going back, that the LDB shows exactly |
| Replication.FaultsArePossible | pkg/reflector/reflector.go:244-283 | the machine leaves nothing out: a reflector can crash at any time, be interrupted, and meet any fault at any poll and delivery |
| CatchUp.QuietApplySucceeds | pkg/ldbwriter/ldb_writer.go:44-185 | without faults, no row of a ledger written by Mutates is ever refused |
| CatchUp.SkipsBetweenBlocks | pkg/reflector/shovel.go:95-108 | the shovel meets a skip only at the start of a block, so an abort loses no half-applied transaction |
| CatchUp.QuietProgress | pkg/reflector/reflector.go:244-283 | until the LDB has caught up every step without faults lowers a measure, and an abort uses up a hole |
| CatchUp.StaysCaughtUp | pkg/reflector/reflector.go:244-282 | a caught-up LDB stays so through any number of further steps, none of them an abort |
| CatchUp.CatchUp | pkg/reflector/reflector.go:244-282 | from any reachable state, once Mutates and faults stop: after 8 steps per ledger row and 7 more, and ever after, the LDB is at the last committed Mutate, with at most as many SkippedSequence aborts in all as the ledger has holes |
| CatchUp.OldHolesNeverAbort | pkg/reflector/reflector.go:216-226 | in every run, while all ledger numbers are at most the one read at boot, a delivery without faults is applied, whatever holes the ledger has |
| Reflector.ReflectorLoop.BuildShovel | pkg/reflector/reflector.go:168-227 | a new writer and source on the number read from the LDB, or nothing if a call fails |
| Reflector.ReflectorLoop.Start | pkg/reflector/reflector.go:247-282 | build, run, close, and start over whatever the error, until told to quit |
| Reflector.RestartsKeepSnapshots | pkg/reflector/reflector.go:247-283 | however often shovels fail and restart, an LDB that was a snapshot at a block boundary is one again |
| ReflectorProgress.GoodTurnAdvances | pkg/reflector/reflector.go:248-258 | a turn of the loop in which nothing fails brings the LDB to the end of the ledger, or past at least one row to a block boundary in front of a hole |
| ReflectorProgress.RestartsCatchUp | pkg/reflector/reflector.go:247-282 | once nothing fails, one turn more than the ledger has holes ahead brings the LDB to the end of the ledger, and later turns keep it there |
| SqlText.UpsertDML | pkg/sqlgen/sqlgen.go:191-225 | the loop prints the text of the upsert; a wrong number of values is an error |
| SqlText.DeleteDML | pkg/sqlgen/sqlgen.go:229-266 | the loop prints the text of the delete; a wrong number of values or an unknown key column is an error |
| SqlText.ReadQuote | pkg/sqlgen/sqlgen.go:404-450 | a quoted NULL, integer, boolean, string or byte array is read back as itself by an ANSI literal reader, whatever follows it |
| SqlText.TextRoundTrip | pkg/sqlgen/sqlgen.go:190-266 | an upsert or delete text reads back as exactly its table, fields and values, and is never a marker |
| SqlText.TextIsInjective | pkg/schema/dml.go:8-11 | two ledger statements, markers included, with the same text are the same statement |
| Names.EncodingIsInjective | pkg/schema/ldb_table_name.go:15-19 | two pairs of valid names never share an encoded name |
| Names.NormalizesExactlyWhen | pkg/schema/family_name.go:39-54 | a name is accepted if and only if its lower-case form has 3 to the maximum of letters, digits and single underscores and starts with a letter, and it becomes that form |
| Names.DecodeInvertsEncode | pkg/schema/ldb_table_name.go:15-40 | decoding inverts encoding if and only if the family name does not end in an underscore; otherwise it is an error |
| Names.DecodedReencodes | pkg/schema/ldb_table_name.go:22-40 | any name that decodes, in whatever case, encodes again to its lower-case form |
| LogWriter.SizedLogWriter.File | pkg/logwriter/sized_log_writer.go:33-45 | opening never changes what is in the file |
| LogWriter.SizedLogWriter.Rotate | pkg/logwriter/sized_log_writer.go:47-64 | success removes the file; failure leaves its contents; and exactly when each |
| LogWriter.SizedLogWriter.WriteLine | pkg/logwriter/sized_log_writer.go:79-119 | success appends the line, to an empty file if it would not fit; whatever fails, the file is as it was or a beginning of what success would leave |
| LogWriter.FileIsTail | pkg/logwriter/sized_log_writer.go:76-119 | after any run without I/O errors the file is the encoding of a contiguous tail of the accepted lines that includes the last, in at most RotateSize + 1 bytes; lines are left out only by a rotation before a line that would not have fitted |
| LogWriter.BoundIsMet | pkg/logwriter/sized_log_writer.go:98-99 | the extra byte is real: the newline is not counted in the check |
| LineReader.EventReader.ReadEvents | pkg/event/changelog.go:151-175 | one call hands over exactly the complete lines of buffer and new bytes and keeps the tail; a failed read keeps the lines handed over and drops the buffer |
| LineReader.LinesMakeUpText | pkg/event/changelog.go:162-169 | the reference lines and tail are the text itself, each line ending in its only newline and the tail having none |
| LineReader.ChunksDoNotMatter | pkg/event/changelog.go:151-193 | however the bytes are split by EOFs, the lines handed over and the buffer left are those of the whole text |
| LineReader.ReaderGetsTail | pkg/event/changelog.go:151-193 | writer and reader together: reading the log in any stretches gives exactly a contiguous tail of the accepted lines |
| ChangeFeed.SQLChangeBuffer.Add | pkg/sqlite/sql_change_buffer.go:13-17 | appends one change |
| ChangeFeed.SQLChangeBuffer.Pop | pkg/sqlite/sql_change_buffer.go:20-26 | hands over everything and leaves nothing |
| ChangeFeed.ChangelogCallback.LDBWritten | pkg/ldbwriter/changelog_callback.go:17-52 | one numbered entry per key of each change that decodes; a failed write loses its entry but uses its number; so all entries of a callback are numbered from 1 without a hole and those written are an in-order part of them |
| ChangeFeed.CallbackWriter.ApplyDMLStatement | pkg/ldbwriter/ldb_callback_writer.go:21-36 | an error keeps all changes buffered and calls no callback; a success hands everything buffered, in order, to every callback |
| ChangeFeed.ChangesAreConserved | pkg/ldbwriter/ldb_callback_writer.go:21-35 | over any calls and restarts, changes handed over followed by the buffer are all hooked changes, each once and in order; when a call has changed the committed LDB nothing is left in the buffer |
| ChangeEffects.EffectsAreTheJournal | pkg/ldbwriter/ldb_writer.go:44-185 | the statements whose changes count as in effect are those of the writer's journal, committed and pending |
| ChangeEffects.HandedAreEffectiveExactlyWhen | pkg/ldbwriter/ldb_callback_writer.go:21-26 | callbacks have been handed exactly the changes in effect if and only if no call undid changes already handed over and none succeeded while those of a failed one were waiting; otherwise they have been handed more |
| ChangeEffects.AChangeHandedOverAndUndone | pkg/ldbwriter/ldb_callback_writer.go:21-35 | at a concrete input, on any LDB: a BEGIN hooks a change and the shovel closes; the change has been handed over and the LDB has not changed |
| ChangeFeed.EntriesAreNumbered | pkg/ldbwriter/changelog_callback.go:37-44 | the entries of a callback carry consecutive numbers |
| ChangeFeed.EveryKeyGetsItsEntry | pkg/ldbwriter/changelog_callback.go:37-44 | each key of each change to a table of the LDB gets an entry, in order, with the next number and the family and table that the LDB table stands for |
| ChangeFeed.OtherChangesGetNoEntry | pkg/ldbwriter/changelog_callback.go:19-35 | a change whose table name does not decode, or whose keys are not known, gets none |
| ChangeFeed.SurvivingDelivers | pkg/ldbwriter/changelog_callback.go:37-49 | the written entries are an in-order part of the numbered ones, which leaves out exactly those whose write fails |
| ChangeFeed.Iterator.Next | pkg/event/iterator.go:59-73 | an event is out of sync exactly when there was one before it and its number does not follow on |
| ChangeFeed.FlagsExactlyGaps | pkg/event/iterator.go:64-71 | for any in-order subsequence of a callback's entries, an event is flagged if and only if the entry just before it was not delivered |
| ChangeFeed.UnflaggedIsGapFree | pkg/event/iterator.go:59-72 | a stretch without flags is a gap-free stretch of the entries |
| Changelog.FlagsExactlyTheTooLong | pkg/event/iterator.go:59-73 | a callback after any number of calls, rotating log, reader and iterator together: a reader gets an in-order tail of what was written, and ErrOutOfSync comes at exactly the events whose predecessor was too long for the log |
| Changelog.CallbackNumbersOn | pkg/ldbwriter/changelog_callback.go:17-52 | over any number of calls the entries of a callback are numbered from 1 without a hole, and those written are the ones whose write did not fail |
| Lifecycle.LifecycleLoop.HandleMessage | pkg/reflector/reflector_ctl.go:143-178 | one message, with what happens while a stop waits, is one step `Handle` of the controller |
| Lifecycle.AtMostOneReflector | pkg/reflector/reflector_ctl.go:130-180 | in every interleaving at most one reflector is alive, none when running is false, and none when a stop is acknowledged without error |
| Lifecycle.StopsAreAnswered | pkg/reflector/reflector_ctl.go:157-176 | a stop is answered with the timeout error if and only if a reflector did not return in time; otherwise it is acknowledged and nothing runs |
| Lifecycle.StartServesExactlyWhen | pkg/reflector/reflector_ctl.go:147-175 | in every run a start leaves a reflector serving if and only if, starts aside, the last event was a stop acknowledged without error, or there was none |
| Lifecycle.StartAfterStopTimeout | pkg/reflector/reflector_ctl.go:158-175 | a run that shows it: after a stop that timed out, a start is acknowledged and nothing runs, until another stop succeeds |

## Left out

- HTTP endpoints, the sidecar, heartbeat, CLI, website and generated fakes: plumbing and user interface.
- S3 and gzip bootstrap, the supervisor's uploads, the ECS monitor, stats and logging: external services and observability.
- Real SQL engines: a statement is a deterministic function on tables, a failed commit is no commit; the differences of MySQL and SQLite (booleans, column types, NULL in keys) are not modelled.
- Serialisation failures and deadlocks of the database: they show only as the failure of an SQL call.
- CreateTable, AddFields and ClearTable: they append to the ledger without its lock and run DDL outside the transaction, so the table set is fixed and Mutate is the only appender.
- Concurrent limiter reads: usage is read and written before the ledger lock, so rate accounting is stated for Mutates one after another.
- Reading writer limits and adjusting them to the period (floating point): the adjusted limit is given. The table sizer is a check that may fail.
- The SetWriterCookie, GetWriterCookie and RegisterWriter endpoints, beyond what their updates do to cookies in the interleaved machine.
- Hashing of secrets and the HMAC token: secrets are their digests and the first token is given.
- Name normalisation of the arguments of Mutate: names arrive normalised, so two value keys that differ only in case do not arise.
- A NULL cookie column, which the Go code reads as a missing writer.
- Base64 decoding, floats, `fmt.Stringer` values and the placeholder splicing of SqlSprintf: integers, booleans, strings and byte arrays are printed.
- Unicode: characters stand for bytes, and case folding is ASCII only.
- The timestamp text of ledger rows: a row whose timestamp does not parse is one of the mid-page read failures.
- MetaTable lookups: the schema of a table is the one the ctldb table has when Mutate starts.
- The JSON encoding of changelog entries, and extracting keys with SQL: keys are given, or known to be missing.
- Changelog numbers across shovels: the counter restarts with each shovel, so gap detection covers one callback.
- The LDBWriteCallback that a configuration may add: arbitrary code, which gets what the changelog callbacks get.
- A process crash between a commit and its callbacks.
- Reopening the changelog after rotation or a read error, file notifications, a reader running while the writer rotates, and removal of the log by others.
- The panic of a lifecycle message whose error channel is full, reuse of the wait group while it is waited on, and the application context ending the controller.
- LDBReader and its caches of statements and keys, which rest on the driver.
- Sleeps, jitter, poll timeouts and the pooling of connections by database/sql.
- Prepared statement caching in the ledger writer: a failing PrepareContext is a failing Add.
- Shovel.RunIsSafe: keeps the exception of a predecessor numbered 0, because it speaks of every LDB; StepRuleHoldsExactlyWhen says on which LDBs the exception cannot occur.
- CatchUp.CatchUp: steps are polls, deliveries, closes and rebuilds; real time between them is not modelled.
- LogWriter.SizedLogWriter.WriteLine: when a file operation fails, which error is returned is not stated, only what it does to the file.
