# Transporter: a verified model of its core

Dafny 4.11 model of the parts of the transporter in which a mistake loses data, leaks data or
corrupts state: the relays that mask a database dump while it streams, the life of a transfer job
shared by dispatcher, worker, stop view and clean-up, the two lockouts, the export and import of an
account's configuration, the periodic tasks derived from schedules, the server-to-server copy, the
path checks of uploads and the dashboard's aggregates. `dafny verify dfyconfig.toml` checks it all.

| files | what they model |
|---|---|
| `Text`, `Streams`, `LinePatterns`, `TabLines`, `TextFiles`, `Warnings` | Python's string operations, folds over the lines of a stream, the shape of the two anchored line patterns, tab-separated lines, files read and written in text mode, tables named once |
| `Masking` | rules, draws and the masking loop that all three relays run over a row |
| `Identifiers` | names as the dump tools quote them, and what splitting and stripping makes of them |
| `MysqlTokens`, `MysqlRelay`, `MysqlDump`, `MysqlRows`, `MysqlNames` | tokenizer, escaper, recogniser and relay for INSERT dumps; what dumps mean to it; which rows and which names it gets right |
| `PostgresRelay`, `PostgresDump`, `PostgresRows`, `PostgresNames`, `CopyFormat` | the COPY-block state machine, the block-level meaning of a dump, which rows and which names the machine gets right, and what the server reads back |
| `MssqlTypes`, `MssqlDdl`, `MssqlFiles`, `MssqlRows`, `MssqlTransfer` | the DDL script with its column types and a reader for it; data files and their masking; which rows it gets right; temporary files, the order of steps and what is delivered |
| `TransferJobs`, `TransferProtocol` | the job row with its column-selective writes; the four writers as interleaved steps |
| `Limiter`, `Users`, `Webhooks`, `Logins` | one threshold/cooldown automaton and its two uses |
| `Portability`, `PortabilityLaws`, `ImportOutcomes` | configuration files: export, import, the round trip, and how an import of any file ends |
| `BeatSync` | schedules, periodic tasks, queue and jobs |
| `DirectoryRelay`, `TransferPaths`, `DashboardStats` | copy between servers, upload paths, aggregates |

How the outside enters: subprocesses, sockets, database drivers and the network are parameters that
say how a call ends (`World`, `Weather`, `Reply`, `failing`); a mask is what a function `fake(provider,
draw number)` answers; key derivation and authenticated encryption are functions of which only
"opening what was sealed under the same key gives the text back" is assumed; time is an integer that
does not go back. Code that updates state in the source is a method or a class here, proved equal to
a function of the old state; the theorems are about those functions.

## Where the code and a plausible promise part

* **MySQL, look-back of one character** (`services/worker/modules/mysql/handler.py:110`). A value that ends
  in an escaped backslash swallows the comma after it. No such value before the last is the exact condition for
  a row to be masked under every profile (`MysqlRows.MaskedForAllIffPlain`, for dumps `RefinedForAllIffPlain`)
  and for its ruled values to leave no trace (`HidesIffPlain`); `BackslashLeaksNextColumn` and `MysqlNames.LeakExample`
  show a ruled value leaving unmasked.
* **Names that need quoting.** A profile names columns as they are; the relays read them out of the dump. The
  Postgres relay strips quotes from the table's name only (`services/worker/modules/postgres/handler.py:93-94`), so
  that a rule for `userName` masks nothing (`PostgresNames.UserNamePasses`); the MySQL relay takes a backtick, a
  comma or a closing parenthesis in a name for its own. Lines that are not recognised, and rows of columns that
  are misread, pass unmasked. `MasksRealColumnsIffReadable` gives the exact condition for each relay, and
  `RealNoninterference` is noninterference by the real names. The plain `RelayNoninterference` lemmas are about
  positions that the relay reads as ruled.
* **Postgres, filter and header test before the block state** (`services/worker/modules/postgres/handler.py:86-88`).
  A data row that begins like the filtered setting is lost, and one shaped like a COPY header goes out
  unmasked and switches tables. `RefinedForAllIffPlain` proves these two kinds of row are exactly what breaks
  the block-level meaning.
* **SQL Server, character mode** (`services/worker/modules/mssql/handler.py:113-118`, `141-149`). Fields are extracted
  without escapes and split at every tab and line end, so that a tab, a newline or a carriage return in any field
  shifts columns or breaks the row, and ruled values leave unmasked (`MssqlRows.TabShiftsRow`, `NewlineSplitsRow`,
  `TabLeaksLastColumn`, `TabLeakExample`). That no field holds one is the exact condition for the file of a table's
  rows to be masked by the columns that the profile names (`MssqlRows.MasksRealColumnsIffClean`), and an assumption
  of the noninterference of deliveries.
* **Masks without escapes.** The design document promises the escapes of COPY for masks
  (`docs/superpowers/specs/2026-07-29-db-transfer-masking-design.md:33`, `106`); the Postgres and the SQL Server relay
  write them as they are drawn. They are read back as themselves exactly if none holds a tab, a newline, a carriage
  return or a backslash (`CopyFormat.MaskedRowReadsBackIff`), or, for SQL Server, a tab or a newline
  (`MssqlRows.MaskedFileReadsBackIff`). With the escapes every mask would be (`CopyFormat.EscapedReadsBack`). Nothing
  is assumed of masks in the other results.
* **SQL Server, length -1.** A `max` column cuts the last character off each mask; one is uncut only if it is
  empty (`MssqlFiles.MaxColumnIsCutIff`).
* **Transfer jobs.** A terminal status is not absorbing by itself. `TerminalIsAbsorbing` needs four
  assumptions about deployment and broker, and `EachAssumptionIsNeeded` gives a run against each.
* **Configuration import.** A flow whose end belongs to somebody else is resolved after all when the exporter
  owns a connection of the same name (`FlowIsRestoredIff`, `ForeignEndIsRebound`).
* **Periodic tasks.** Deleting a flow leaves the tasks of its schedules behind (`CascadeLeavesItsTasks`);
  they start no job (`GoneForGood`).
* **Schedules without a flow.** The branch for them in `services/worker/tasks.py:99-105` reads fields that
  `ScheduledTransfer` no longer has; no reachable schedule takes it (`BeatSync.AlwaysAgrees`).

## Model

| member | source | states |
|---|---|---|
| Text.StripIsMiddle | services/worker/modules/mysql/handler.py:136 | stripping leaves the text from the first to the last character that is not blank |
| Text.StripCharIsMiddle | services/worker/modules/postgres/handler.py:93 | the same for a single character |
| Masking.MaskRow | services/worker/modules/mysql/handler.py:144-149 | the in-place masking loop over a row: raises exactly when a ruled position has an unknown provider; otherwise each column that the profile names holds what the column's length leaves of the answer of its provider to the next draw, the others are untouched, and the draws are counted |
| Masking.MaskedRowIff | services/worker/modules/mysql/handler.py:144-149 | the row the loop leaves is the only row of that kind, by the profile's tables, columns, providers and lengths themselves |
| Masking.RowDrawsAreNamed | services/worker/modules/mssql/handler.py:144-148 | each row draws one answer for every field of it that is masked, and none for the others |
| Masking.RowNoninterference | services/worker/modules/mysql/handler.py:144-149 | rows that agree outside ruled positions mask to the same row |
| Masking.MaskIsCutText | services/worker/modules/masking/faker_engine.py:20-27 | a mask is the one beginning of the drawn text that has as many characters as the length, as the text if that is shorter, or all but as many as a negative length |
| Masking.MaskFitsColumn | services/worker/modules/masking/faker_engine.py:25-26 | of a text that a column cannot hold the beginning that it can hold is left, and a text that fits is left whole |
| Masking.MaskIsUncutIff | services/worker/modules/masking/faker_engine.py:24-27 | a mask is uncut exactly when there is no length, the text fits it, or the length is negative and the text empty |
| Masking.MaxColumnLosesOneCharacter | services/worker/modules/masking/faker_engine.py:25-26 | with length -1 a non-empty mask loses exactly its last character |
| MysqlTokens.TokensUnique | services/worker/modules/mysql/handler.py:99-120 | a text has one tokenisation only: cut-free pieces joined by the commas that stand outside quotes |
| MysqlTokens.SplitValues | services/worker/modules/mysql/handler.py:99-120 | the loop returns that tokenisation; joining it with commas gives the text back |
| MysqlTokens.TwoReplacesAreOneEscape | services/worker/modules/mysql/handler.py:122-124 | the two sequential replaces are one character-wise escape |
| MysqlTokens.QuoteIsLossless | services/worker/modules/mysql/handler.py:122-124 | decoding a quoted value gives the value back, for every string |
| MysqlTokens.QuotedIsClosedIff | services/worker/modules/mysql/handler.py:110-124 | a quoted value holds no cut, and leaves the tokenizer outside quotes exactly when the raw value does not end in a backslash |
| MysqlTokens.DumpedRowTokenisesIff | services/worker/modules/mysql/handler.py:99-120 | a dumped row is read literal by literal if and only if no literal before the last ends in an escaped backslash |
| MysqlTokens.ReplacedRowReadsBackIff | services/worker/modules/mysql/handler.py:99-124 | for any text and any replaced tokens, joining and splitting again gives the replaced list if and only if no replaced value before the last ends in a backslash |
| MysqlRelay.ParseInsertExact | services/worker/modules/mysql/handler.py:97 | the recogniser accepts exactly the lines of the pattern and reads each in one way |
| MysqlRelay.PrintedInsertReadsBackIff | services/worker/modules/mysql/handler.py:97-150 | the written line is recognised with the same parts if and only if these can be told apart |
| MysqlRelay.RelayLine | services/worker/modules/mysql/handler.py:128-150 | one turn of the loop is one step of the relay |
| MysqlRelay.RelayLines | services/worker/modules/mysql/handler.py:126-150 | the loop is the fold of that step over the lines, cut short by an unknown provider |
| MysqlDump.MaskedPositions | services/worker/modules/mysql/handler.py:143-150 | ruled positions decode to their masks, which are what the column's length leaves of the drawn texts, all others are unchanged character for character, and their number stays |
| MysqlDump.StoredMaskFits | services/worker/modules/mysql/handler.py:146-148 | what the server stores for a ruled column is the drawn text, or its first characters, as many as the column's length, since truncation precedes quoting |
| MysqlDump.RewrittenLineReadsBackIff | services/worker/modules/mysql/handler.py:97-150 | the rewritten line is recognised with the same table, columns and values if and only if no mask holds a line end |
| MysqlDump.RewrittenValuesReadBackIff | services/worker/modules/mysql/handler.py:99-150 | its values are tokenised back one by one if and only if no mask before the last position ends in a backslash |
| MysqlDump.LineCount | services/worker/modules/mysql/handler.py:126-150 | one line out for each line in, fewer exactly when a provider was unknown |
| MysqlDump.WarnsOncePerUnprofiledTable | services/worker/modules/mysql/handler.py:137-140 | in a whole-database run each table without rules is named once, and only those |
| MysqlDump.RelayNoninterference | services/worker/modules/mysql/handler.py:126-150 | dumps of separable rows that differ only in positions the relay reads as ruled are relayed alike under the same draws, at every prefix |
| MysqlRows.MaskedForAllIffPlain | services/worker/modules/mysql/handler.py:99-150 | under every profile with known providers and from every live state the relay writes the row with its ruled literals masked, exactly when no literal before the last ends in an escaped backslash |
| MysqlRows.RefinedForAllIffPlain | services/worker/modules/mysql/handler.py:126-150 | the same for whole dumps |
| MysqlRows.PlainDumpIsMasked | services/worker/modules/mysql/handler.py:126-150 | on dumps of such rows the relay writes the masked literals, draws as many masks as they call for, and does not raise |
| MysqlRows.HidesIffPlain | services/worker/modules/mysql/handler.py:99-150 | under no profile and from no state does the output tell two values of a ruled column apart, exactly under the same condition |
| MysqlRows.BackslashLeaksNextColumn | services/worker/modules/mysql/handler.py:110 | in a row of any width whose columns up to the first such literal are unruled, the output begins with the values up to and including the next column as they came, whatever its rule, unless that value holds a comma |
| MysqlNames.NamesReadIff | services/worker/modules/mysql/handler.py:136 | the relay reads the real column names exactly when none holds a comma or a backtick |
| MysqlNames.MasksRealColumnsIffReadable | services/worker/modules/mysql/handler.py:97-150 | under every profile the relay masks the columns of a table that the profile names, exactly when the table's name holds no backtick and no column's a comma, a backtick or a closing parenthesis |
| MysqlNames.RealNoninterference | services/worker/modules/mysql/handler.py:126-150 | dumps of such tables that differ only in columns the profile names are relayed alike, at every prefix |
| MysqlNames.LeakExample | services/worker/modules/mysql/handler.py:110 | two lines as a dump holds them, of one readable table and different in the ruled column only, that both go out as they came |
| PostgresRelay.ParseCopyExact | services/worker/modules/postgres/handler.py:47 | the header pattern accepts exactly the printed headers |
| PostgresRelay.RelayLine | services/worker/modules/postgres/handler.py:85-115 | one turn of the loop is one step of the state machine |
| PostgresRelay.RelayLines | services/worker/modules/postgres/handler.py:80-115 | the loop is the fold of that step, cut short by an unknown provider |
| PostgresDump.RelayRefinesSpec | services/worker/modules/postgres/handler.py:80-115 | on a well-formed dump the relay writes the printed lines of the masked dump without the filtered setting, draws as many masks, ends between blocks, and raises exactly when a provider is unknown |
| PostgresDump.RelayRefinesSpecIff | services/worker/modules/postgres/handler.py:86-88 | for rows that are no headers in disguise: it does so exactly when no data row begins like the filtered setting |
| PostgresDump.BlockRowsAreMasked | services/worker/modules/postgres/handler.py:101-110 | each row of a block holds, in the columns that the profile names, what their lengths leave of the drawn texts, and nothing else changes |
| PostgresRows.RefinedForAllIffPlain | services/worker/modules/postgres/handler.py:86-101 | for all printable rows: it does so under every profile exactly when no data row begins like the setting or has the shape of a header |
| PostgresDump.WithoutRulesRelayIsFilter | services/worker/modules/postgres/handler.py:80-115 | without rules the relay is the filter, for every input |
| PostgresDump.OneLinePerKeptLine | services/worker/modules/postgres/handler.py:80-115 | for every input, one line out for each line the filter keeps, fewer exactly when a provider was unknown |
| PostgresDump.WarnsOncePerUnprofiledTable | services/worker/modules/postgres/handler.py:95-98 | the same for the tables of the blocks |
| PostgresDump.RelayNoninterference | services/worker/modules/postgres/handler.py:80-115 | well-formed dumps that differ only in positions the relay reads as ruled are relayed alike under the same draws, at every prefix |
| PostgresNames.NamesReadIff | services/worker/modules/postgres/handler.py:94 | the relay reads the real column names exactly when none needs quoting |
| PostgresNames.TableReadIff | services/worker/modules/postgres/handler.py:90-93 | it reads the real table name exactly when the schema's name holds no dot and the table's no quote |
| PostgresNames.HeaderReadIffReadable | services/worker/modules/postgres/handler.py:47-94 | it recognises a header and reads it rightly exactly when also no name holds a blank, unless the schema's name holds a blank before a parenthesis |
| PostgresNames.ReadByCoincidence | services/worker/modules/postgres/handler.py:47-94 | a table with such a schema whose header is misrecognised and still read rightly |
| PostgresNames.MasksRealColumnsIffHeaderRead | services/worker/modules/postgres/handler.py:80-115 | for every table: under every profile the relay masks the columns that the profile names, exactly when it reads the header rightly |
| PostgresNames.MasksRealColumnsIffReadable | services/worker/modules/postgres/handler.py:80-115 | the same condition by the names themselves |
| PostgresNames.RealNoninterference | services/worker/modules/postgres/handler.py:80-115 | dumps of readable tables that differ only in columns the profile names are relayed alike, at every prefix |
| PostgresNames.QuotedColumnsPass | services/worker/modules/postgres/handler.py:93-105 | if the profile names only columns that need quoting, every row goes out as it came |
| PostgresNames.UsersHeader | services/worker/modules/postgres/handler.py:47 | the header of a table with a column `userName`, as it stands in a dump |
| PostgresNames.UserNamePasses | services/worker/modules/postgres/handler.py:93-105 | a rule for that column masks no row of it |
| PostgresDump.HeaderRowUnmasksTheRest | services/worker/modules/postgres/handler.py:88-101 | a header-shaped row in a masked block lets it and the next row pass unmasked |
| PostgresDump.LostRowExample | services/worker/modules/postgres/handler.py:86-87 | a concrete dump that loses a data row |
| CopyFormat.MaskedRowReadsBackIff | services/worker/modules/postgres/handler.py:101-110 | the server reads a masked data row back with the masks in the ruled columns and the other values as they were, if and only if no mask holds a tab, a newline, a carriage return or a backslash |
| CopyFormat.EscapedReadsBack | docs/superpowers/specs/2026-07-29-db-transfer-masking-design.md:33 | with the promised escapes every mask, whatever it holds, would be one field and be read back as itself |
| CopyFormat.OctalEscape | docs/superpowers/specs/2026-07-29-db-transfer-masking-design.md:33 | three octal digits after a backslash are read as the character of that number |
| CopyFormat.HexEscape | docs/superpowers/specs/2026-07-29-db-transfer-masking-design.md:33 | so are two hexadecimal ones after an x |
| MssqlDdl.ReadIdentifierExact | services/worker/modules/mssql/handler.py:23-29 | quoted identifiers are self-delimiting, whatever characters they hold |
| MssqlTypes.DeclaredTypeSays | services/worker/modules/mssql/handler.py:82-90 | the type text of a column is that of the one type which says what the catalogue says: `max` exactly for -1, no length for none, zero or a type without lengths, otherwise the length; precision and scale in that order |
| MssqlTypes.ReadTypeExact | services/worker/modules/mssql/handler.py:82-90 | a text is read as a type with its length or precision and scale if and only if it is that type's text and the name holds no opening parenthesis |
| MssqlDdl.BuildCreateTableSql | services/worker/modules/mssql/handler.py:82-104 | the appending loop builds the printed statement |
| MssqlDdl.WriteScript | services/worker/modules/mssql/handler.py:166-169 | the file is the concatenation of the statements |
| MssqlDdl.ReadExact | services/worker/modules/mssql/handler.py:82-104 | reader and printer of scripts are inverse to each other on exactly the printed scripts |
| MssqlDdl.ScriptReadsBackIff | services/worker/modules/mssql/handler.py:82-104 | for any names, the reader recovers from the script every table with its columns in order, their type names, lengths or precisions and scales, nullability and key, if and only if no data type name holds a blank or an opening parenthesis |
| MssqlDdl.ScriptDeterminesDeclarations | services/worker/modules/mssql/handler.py:166-169 | equal scripts declare the same tables, lengths, precisions and scales included |
| MssqlDdl.PriceScript | services/worker/modules/mssql/handler.py:92-104 | the statements for one table, as text |
| MssqlFiles.MaskDatFile | services/worker/modules/mssql/handler.py:135-149 | on the text of any file: the loop masks it row by row as it sees the rows, leaves it alone without rules, and raises exactly when a provider is unknown |
| MssqlFiles.MaskedCell | services/worker/modules/mssql/handler.py:135-149 | every cell of a masked file is, in a column that the profile names, what the column's declared length leaves of the drawn text, and otherwise the value that was there |
| MssqlFiles.MaxColumnIsCutIff | services/worker/modules/mssql/handler.py:135-149 | in a masked file, the field of a column with length -1 is the drawn text if and only if that is empty, and otherwise the text without its last character |
| MssqlRows.MasksRealColumnsIffClean | services/worker/modules/mssql/handler.py:113-149 | for every table and rows: under every profile the data file is masked as the rows are by the columns that the profile names, exactly when no field holds a tab, a newline or a carriage return |
| MssqlRows.TabShiftsRow | services/worker/modules/mssql/handler.py:145 | with a tab in a field the step sees two fields there, and all later ones one column too far |
| MssqlRows.NewlineSplitsRow | services/worker/modules/mssql/handler.py:141-142 | with a newline in a field it sees two rows |
| MssqlRows.TabLeaksLastColumn | services/worker/modules/mssql/handler.py:145-149 | under every profile with rules for the table: if a field before the last holds a tab, the value of the last column is written as it came |
| MssqlRows.TabLeakExample | services/worker/modules/mssql/handler.py:145-149 | a concrete row with a rule on its last column only, whose value leaves unmasked |
| MssqlRows.MaskedFileNoninterference | services/worker/modules/mssql/handler.py:135-149 | files of clean rows that differ only in columns the profile names are masked to the same file, by as many draws |
| MssqlRows.MaskedFileReadsBackIff | services/worker/modules/mssql/handler.py:135-149 | the masked file of clean rows is read back as the masked rows if and only if no mask holds a tab or a newline |
| MssqlTransfer.Session.TransferOnce | services/worker/modules/mssql/handler.py:159-191 | whatever the outside answers, also on exceptions: what ran is a prefix of the plan, the result is success exactly when all of it ran well, the script that ran is the printed one of all tables' schemas, the loaded content is the planned content of the first tables, and no file survives |
| MssqlTransfer.DeliveredRowsAreMasked | services/worker/modules/mssql/handler.py:174-187 | for tables of clean rows the planned content is the file of the masked rows |
| MssqlTransfer.DeliveryNoninterference | services/worker/modules/mssql/handler.py:174-187 | source databases that differ only in columns the profile names have the same delivery, if the tables with rules hold clean rows |
| MssqlTransfer.AttemptNoninterference | services/worker/modules/mssql/handler.py:159-187 | whichever step an attempt stopped at, what it loaded and the script it ran do not tell such databases apart |
| MssqlTransfer.Session.MoveTables | services/worker/modules/mssql/handler.py:174-187 | the loop over the tables keeps to the plan |
| MssqlTransfer.Session.Unlink | services/worker/modules/mssql/handler.py:188-191 | clean-up restores the files from before |
| MssqlTransfer.StepDiscipline | services/worker/modules/mssql/handler.py:159-187 | no step before a successful script run, none after a failing step, and every load of a ruled table follows an extract and a mask of that same file in character mode |
| TransferJobs.StaleCopyIsHarmless | services/web/apps/transfers/models.py:57-83 | each method saves exactly the columns it assigns: a stale copy does to the row what a fresh one would |
| TransferJobs.TransferStop | services/web/apps/transfers/views.py:163-171 | exactly pending and running jobs are cancelled, by that user and at that time, their recorded task is revoked, and nothing else of the row changes |
| TransferJobs.ReportProgress | services/worker/tasks.py:217-223 | the callback writes a percentage only when it changes, and the last one stays |
| TransferJobs.ExecuteTransfer | services/worker/tasks.py:207-246 | every column of the row after an undisturbed run, by the way the transfer and the queueing of notifications ended |
| TransferJobs.ChangesAlternate | services/worker/tasks.py:217-223 | no percentage is written twice in a row |
| TransferProtocol.EveryRunKeepsRowRight | services/web/apps/transfers/models.py:57-83 | in every interleaving: the task id is empty or the dispatched one, running implies started, done implies started, finished and 100, cancelled implies a canceller and a finish time |
| TransferProtocol.CancelledByTheLastStop | services/web/apps/transfers/views.py:163-171 | in every interleaving, who cancelled the job is the user of the last stop that found it pending or running, and nobody without one |
| TransferProtocol.StartedAtTheLastStart | services/web/apps/transfers/models.py:57-62 | its start is the time of the last marking as running |
| TransferProtocol.FinishedAtTheLastEnd | services/web/apps/transfers/models.py:64-83 | its finish is the time of the last marking as done, failed or cancelled; clean-up sets none |
| TransferProtocol.ErrorOfTheLastFailure | services/worker/tasks.py:225-257 | its error is the text of the last failing writer, the worker's message or the text of clean-up, which takes only jobs running for more than an hour |
| TransferProtocol.ProgressOfTheLastReport | services/worker/tasks.py:217-223 | its percentage is the one reported last, none after a start, and 100 when done |
| TransferProtocol.StatusOfTheLastWriter | services/worker/tasks.py:207-257 | its status is what the last of the four writers made it |
| TransferProtocol.TaskIdOnceRecorded | services/worker/tasks.py:207-216 | the task id is there exactly once the dispatcher or the worker has written it |
| TransferProtocol.SentThenRecorded | services/web/apps/transfers/views.py:34-36 | the task is sent once, and its id recorded by the dispatcher once, afterwards |
| TransferProtocol.StepForgetsNothing | services/worker/tasks.py:207-257 | no step of the worker or of clean-up touches who cancelled; no step forgets a time or a task id |
| TransferProtocol.RunForgetsNothing | services/worker/tasks.py:207-257 | the same over any stretch of a run |
| TransferProtocol.StatusMoves | services/web/apps/transfers/views.py:163-171 | stop moves only pending or running to cancelled, clean-up only running to failed, and only the worker's status writes leave a terminal status |
| TransferProtocol.TerminalIsAbsorbing | services/worker/tasks.py:207-257 | done, failed and cancelled are absorbing in every run in which stop saw a task id, a revoked worker is silent, clean-up hits dead workers and queueing never raises |
| TransferProtocol.EachAssumptionIsNeeded | services/worker/tasks.py:225-257 | for each of the four there is a run that keeps the others and leaves a terminal status |
| Limiter.CounterCountsFailures | services/web/apps/webhook_deliveries/services.py:12-27 | in every run the counter is the number of failures since the last success, and open implies at least five |
| Limiter.RefusedIffCooling | services/web/apps/webhook_deliveries/services.py:12-27 | in a serial run an attempt is refused exactly when it starts within 15 minutes after a failure that was the fifth or later in a row |
| Limiter.RateBound | services/web/apps/accounts/views.py:27-43 | a failure streak spanning time T has at most 5 + floor(T / 15 min) failures |
| Limiter.RateBoundIsTight | services/web/apps/accounts/views.py:27-43 | the bound is met for every number from five on |
| Limiter.RunAdvances | services/web/apps/webhook_deliveries/services.py:12-27 | advancing a limiter attempt by attempt follows the run |
| Webhooks.RecordSuccess | services/web/apps/webhook_deliveries/services.py:16-20 | closes the breaker, and saves only if there is something to clear |
| Webhooks.RecordFailure | services/web/apps/webhook_deliveries/services.py:23-27 | the automaton's failure step |
| Webhooks.SendWebhook | services/worker/tasks.py:147-172 | a post is sent exactly if the address is set and public, the breaker is closed and the user wants that status; an error adds one failed row with its text, counts, opens the breaker from the fifth on and asks for a retry; a success adds one row and clears both fields; an open breaker adds one skipped row; otherwise nothing changes |
| Webhooks.SendHealthNotification | services/worker/tasks.py:421-450 | the same without retry; not reached if the e-mail or Telegram call ahead of it raises |
| Webhooks.DeliveryIsAttempt | services/worker/tasks.py:147-172 | a delivery is one attempt at the limiter, with its verdict |
| Webhooks.FiveFailuresThenSkip | services/web/apps/webhook_deliveries/services.py:23-27 | after five failing posts in a row the next delivery within fifteen minutes is skipped, and logged as skipped |
| Logins.RegisterFailedLogin | services/web/apps/accounts/views.py:39-43 | the automaton's failure step |
| Logins.RegisterSuccessfulLogin | services/web/apps/accounts/views.py:46-50 | closes the lockout, and saves only if there is something to clear |
| Logins.Login | services/web/apps/accounts/views.py:68-89 | the page by lockout, password and second factor, and the fields it leaves; one attempt of the automaton; a locked account's password is not checked; the webhook breaker is untouched |
| Portability.Database.ExportConfig | services/web/apps/connections/portability.py:56-87 | the two loops build the exported file |
| Portability.Database.ImportConnections | services/web/apps/connections/portability.py:90-109 | the loop is the fold of the row step, stopped by the first error |
| Portability.Database.ImportFlows | services/web/apps/connections/portability.py:112-132 | the loop is the fold of the row step, stopped by the first error |
| Portability.Database.ImportConfig | services/web/apps/connections/portability.py:135-151 | all or nothing: an error leaves both tables as they were |
| ImportOutcomes.ConnectionsOutcome | services/web/apps/connections/portability.py:90-109 | of any rows, an import ends at the first one without a name key, or that is new and has a secret that does not open or a column without a value, with that row's error; without one every new row is stored as it says, and the others are counted as skipped |
| ImportOutcomes.FlowsOutcome | services/web/apps/connections/portability.py:112-132 | the same for flows: refused exactly if a key that is looked up is missing or a new, resolved row lacks a value; otherwise stored as they say, and counted as skipped or unresolved |
| ImportOutcomes.ImportOutcome | services/web/apps/connections/portability.py:135-151 | how an import of any file into any account ends, by format, version, passphrase and rows |
| PortabilityLaws.ImportKeepsAndBalances | services/web/apps/connections/portability.py:90-132 | a successful import leaves existing items alone, adds only the importer's, keeps names unique, and balances added, skipped and unresolved against the rows and the tables |
| PortabilityLaws.SecondImportAddsNothing | services/web/apps/connections/portability.py:90-151 | a second import of the same file succeeds and changes nothing |
| PortabilityLaws.ExportNamesTheEnds | services/web/apps/connections/portability.py:66-77 | an exported flow names the two connections that its ends are |
| PortabilityLaws.ExportHoldsTheSecrets | services/web/apps/connections/portability.py:60-65 | an exported connection holds name and settings as they are and each non-empty secret sealed in its place |
| PortabilityLaws.ExportThenImport | services/web/apps/connections/portability.py:56-151 | export then import with the same passphrase into an empty account yields exactly the restored connections and portable flows, in order, with the other flows unresolved |
| PortabilityLaws.ConnectionsAreRestored | services/web/apps/connections/portability.py:90-109 | one connection for each of the exporter's, with its name, fields and secrets each in its place, and no other |
| PortabilityLaws.RestoredExactlyIff | services/web/apps/connections/portability.py:19-23 | a connection comes back unchanged exactly when it is an SSH connection without database name and without empty secrets |
| PortabilityLaws.FlowIsRestoredIff | services/web/apps/connections/portability.py:119-123 | a flow comes back exactly when each of its ends is a connection whose name one of the exporter's own connections bears |
| PortabilityLaws.EndsAreBoundByName | services/web/apps/connections/portability.py:119-128 | a restored flow is one of the exporter's, bound to the importer's own connections that bear the names of the connections at its ends |
| PortabilityLaws.ForeignEndIsRebound | services/web/apps/connections/portability.py:69-77 | a flow from another owner's connection that is resolved to the importer's namesake |
| BeatSync.Scheduler.SyncCeleryBeat | services/web/apps/scheduler/views.py:68-85 | upserts the task of that id, or raises exactly when there are not five cron fields |
| BeatSync.Scheduler.Create | services/web/apps/scheduler/views.py:20-30 | the state after a creation, or none after a rejected form |
| BeatSync.Scheduler.Edit | services/web/apps/scheduler/views.py:33-44 | the state after an edit |
| BeatSync.Scheduler.Toggle | services/web/apps/scheduler/views.py:48-55 | the state after a toggle; in reachable states the upsert does not raise |
| BeatSync.Scheduler.Delete | services/web/apps/scheduler/views.py:60-65 | the state after a deletion |
| BeatSync.Scheduler.CreateJobFromSchedule | services/worker/tasks.py:84-108 | a job is created exactly for a schedule that exists, is enabled and has a flow, with the schedule's owner and the flow's paths |
| BeatSync.TaskNamesDiffer | services/web/apps/scheduler/views.py:76 | different ids have different task names |
| BeatSync.WordsAreSplitAtBlanks | services/web/apps/scheduler/views.py:71 | the fields of an expression are its texts between blanks, in order and whole |
| BeatSync.AlwaysAgrees | services/web/apps/scheduler/views.py:20-90 | agreement of tasks with schedules holds after every sequence of actions |
| BeatSync.ExactlyOneTask | services/web/apps/scheduler/views.py:68-85 | each schedule has exactly one task, with its five fields, id and enabled flag |
| BeatSync.FormReachesBeat | services/web/apps/scheduler/views.py:20-44 | an accepted form leaves a task with the fields as typed and the flag as ticked, and touches no other schedule or task |
| BeatSync.ToggleTwice | services/web/apps/scheduler/views.py:48-55 | toggling twice restores schedules, tasks and crontabs |
| BeatSync.OnlyCascadesGoStale | services/web/apps/scheduler/views.py:20-90 | only the deletion of a flow makes a task stale |
| BeatSync.CascadeLeavesItsTasks | services/web/apps/scheduler/models.py:9-12 | what it leaves behind are exactly the tasks of the flow's schedules |
| BeatSync.NoStaleWithoutCascade | services/web/apps/scheduler/views.py:60-90 | without flow deletions no task is ever stale |
| BeatSync.OthersUntouched | services/web/apps/scheduler/views.py:68-90 | no action touches periodic tasks that carry no schedule id |
| BeatSync.JobsNeedEnabledSchedules | services/worker/tasks.py:84-108 | in any state, a step that adds a job adds one, with the owner of a schedule that exists and is enabled at that moment and the paths of its flow |
| BeatSync.GoneForGood | services/worker/tasks.py:87-91 | a schedule that is gone is never runnable again, so that stale tasks and messages start nothing |
| DirectoryRelay.TransferFile | services/worker/modules/relay/handler.py:57-95 | on success the destination gains that file, otherwise only its path is touched; the outcome by cause; no temporary file is left |
| DirectoryRelay.FirstTroubleDecides | services/worker/modules/relay/handler.py:71-95 | a file is done exactly when nothing went wrong, an asked-for checksum included; otherwise the first trouble decides how the relay ends |
| DirectoryRelay.TransferDirectory | services/worker/modules/relay/handler.py:97-121 | outcome and destination, file by file; on success the destination is the overlay of the regular files, also within one server; otherwise a listing prefix was copied; temporary files balance to zero |
| DirectoryRelay.RegularKeepsOrder | services/worker/modules/relay/handler.py:104 | the regular files are taken in the order of the listing |
| DirectoryRelay.Execute | services/worker/modules/relay/handler.py:146-168 | the same through the entry point: for a file the outcome by cause and what is left, for a directory also when it stops early |
| DirectoryRelay.OverlayIsPointwise | services/worker/modules/relay/handler.py:114-119 | the overlay holds each file's content at dest_dir/name and every other path is as before |
| DirectoryRelay.StoppedTouchesAPrefix | services/worker/modules/relay/handler.py:114-119 | after a failure, paths of later files and all other paths are as before |
| DirectoryRelay.ThresholdDoesNotMatter | services/worker/modules/relay/handler.py:71-119 | the sizes of the listed files make no difference to the outcome nor to the destination, early stops included |
| TransferPaths.PathIsAcceptedIff | services/web/apps/transfers/forms.py:10-16 | a path is accepted exactly if it begins with no dash, holds no control character and has no component of two dots, with either slash |
| TransferPaths.NameIsAcceptedIff | services/web/apps/transfers/forms.py:19-27 | a name is accepted exactly if it is neither empty nor a dot name, begins with no dash, and holds neither slash nor control character |
| TransferPaths.JoinIsValid | services/web/apps/transfers/forms.py:10-27 | a valid destination followed by a valid file name is a valid destination |
| TransferPaths.JoinOnDirectory | services/web/apps/transfers/forms.py:83-94 | on a directory the components are the directory's and the name, and the join is valid exactly when the directory is and the name has no control character and is not ".." |
| TransferPaths.Transfers.Create | services/web/apps/transfers/views.py:40-93 | jobs for all uploads or for none, each sent to the queue once after all were created |
| TransferPaths.CreatedJobs | services/web/apps/transfers/views.py:66-84 | every created job has a valid destination, different names give different destinations and local files, and the local file holds the upload |
| DashboardStats.TransfersPerDay | services/web/apps/dashboard/stats.py:10-30 | each entry is the direct count of that day |
| DashboardStats.SeriesSumsToWindow | services/web/apps/dashboard/stats.py:10-30 | the series sum to the jobs of the window, no gap and no overlap |
| DashboardStats.RateBalances | services/web/apps/dashboard/stats.py:33-40 | done, failed and other are the numbers of such jobs, and the rate is the share of done ones among done and failed |
| DashboardStats.TopSources | services/web/apps/dashboard/stats.py:43-52 | the two counting loops, the sort and the cut |
| DashboardStats.CountsAreDirect | services/web/apps/dashboard/stats.py:44-50 | each label's count and their sum are direct counts, even when labels collide |
| DashboardStats.RankedIsStableSort | services/web/apps/dashboard/stats.py:51 | the ranking is a non-increasing, stable rearrangement |
| DashboardStats.NoOmittedSourceBeatsAShownOne | services/web/apps/dashboard/stats.py:51-52 | shown and omitted sources make up all, and no omitted one beats a shown one |

## Left out

- MysqlRelay.RelayLines: collation stripping, a text replacement before the recogniser, is taken as off.
- MysqlNames.MasksRealColumnsIffReadable: names with a line end, which the dump tool prints over two lines, are not modelled.
- PostgresNames.MasksRealColumnsIffReadable: the same; and the condition by names leaves out schemas whose name holds a blank before a parenthesis, where the pattern may find a column list inside the name and read the right columns by coincidence (ReadByCoincidence); MasksRealColumnsIffHeaderRead covers them.
- PostgresDump.RelayRefinesSpecIff: says nothing about header-shaped rows, whose effect under one fixed profile can agree with the block-level meaning by a coincidence of masks; RefinedForAllIffPlain settles them over all profiles.
- TransferProtocol.TerminalIsAbsorbing: task redelivery by the broker and deletion of a job during its run are not steps; revoking and cancelling within one stop are one step.
- Limiter.RateBound: the counters are unbounded, not the database's small integers; attempts of one account are serial.
- CopyFormat.MaskedRowReadsBackIff: a row that is just `\.` and a first row that ends in a carriage return, which the server treats apart, are read like any other row here; such masks are not read back either way.
- MssqlRows.MaskedFileReadsBackIff: code pages and the empty field, which the server loads as NULL, are not modelled.
- MssqlTransfer.Session.TransferOnce: failures of closing or deleting a temporary file, and tables partly loaded by a failing load, are not modelled.
- DirectoryRelay.TransferFile: failures of deleting the temporary file and of writing the job's log are not modelled.
- DashboardStats.RateBalances: the rounding of the rate to one decimal is left out.
- Portability.Database.ImportConfig: of the database's refusals only missing values are modelled, not lengths or types; undecodable base64 and a file without its header keys are not modelled; items are ordered by creation.
- BeatSync.Scheduler.Create: cron fields are counted, not checked; duplicates among stored crontabs, the admin pages and the deletion of accounts are left out.
- TransferPaths.Transfers.Create: failures of the database during the creating transaction, and uploads' chunking.
- Threads, pipes, output parsing, retries and row-count checks around the relays: plumbing around the line transformers.
- Database transfers' own job rows: the same life cycle without progress.
- Second-factor attempts, API tokens, audit log, health checks, URL blocking, notifications' texts: single checks or formatting.
- Templates, forms' widgets, roles, settings, migrations and deployment.
