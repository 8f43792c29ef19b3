# stingy, modelled in Dafny

stingy is a command-line tool for personal finances. It imports the CSV
statements of two banks (AIB and Revolut) into a SQLite database, tags
transactions by rules, keeps a list of accounts with aliases and a
selection, answers reports (debits, credits, totals by month, totals by tag)
and prints them as text tables sized to the terminal. Every command that
writes opens an undo step, and `stingy undo` reverts the newest step.

This project models that core:

- `store.dfy`, `store_facts.dfy`, `sqlite_impl.dfy`, `migrations.dfy`,
  `values.dfy`: the SQLite store behind the program as a state of three
  model tables, the undo tables, the `foreign_keys` pragma and the
  persisted `user_version`; the effect of every statement the storage
  layer issues, including the triggers that capture an inverse of each
  write; the `SqliteDatabase` class whose methods (`get_all`, `update`,
  `insert_or_get`, `delete`, `begin_undo_step`, `undo_last_step`,
  `get_last_undo_step`, migrations, opening) change that state in place
  and are proved against it; and the conversions between records and rows.
- `undo.dfy`: the `undo` command and the history of its tests.
- `accounts.dfy`, `tags.dfy`, `import.dfy`, `statements.dfy`, `query.dfy`,
  `cli.dfy`: the account, tag-rule, import and query commands and the
  command-line parsers of ranges, months and periods.
- `table.dfy`, `table_facts.dfy`, `output_table.dfy`: the two text-table
  renderers and the report tables.
- `wrappers.dfy`, `numerals.dfy`, `dates.dfy`, `strings.dfy`, `utf8.dfy`:
  the error wrapper, decimal text, calendar dates, string operations and
  UTF-8.

The storage layer was written against one revision of the records: an
account is a name, an alias and a selected flag, stored with the name as
its key; a transaction has nine fields and a tag rule ten, each with the
SQLite rowid as its first field. The model follows that revision
throughout. The importer's own revision, where an account also carries a
bank, is modelled on its own (`Import.BankAccount`).

The undo engine is modelled as the program behaves, not as one might
expect: an update is undone by an `UPDATE` without a `WHERE` clause, which
overwrites every row of the table; the captured statements of a step are
replayed in the order they were captured; and every captured statement
goes to the step with the largest id, or to no step when there is none.

## Model

| member | source | states |
|---|---|---|
| Numerals.NatToString | src/table.rs:172-177 | the shortest decimal rendering of a count: digits only, one digit exactly below 10, no leading zero |
| Numerals.NatToStringValue | src/table.rs:172-177 | the digits `NatToString` writes read back as the number |
| Numerals.ZeroPadded | src/table.rs:163-163 | `{:02}`: digits only, worth the number, at least the requested width |
| Numerals.PadLeft | src/commands/query.rs:28-32 | right alignment: the text ends the result and only fill characters precede it |
| Numerals.IntToString | src/commands/query.rs:28-32 | `{}` of an integer: a minus sign exactly for negative values, then the decimal digits |
| Numerals.ParseI64 | src/commands/tags.rs:150-150 | `str::parse::<i64>`: a parsed value lies in the 64-bit range and comes from digits |
| Numerals.ParseI64OfIntToString | src/commands/tags.rs:150-150 | every 64-bit integer parses back from its rendering |
| Numerals.ScanNumber | src/main.rs:542-542 | the number scanner takes a run of between `min` and `max` digits and returns their value and the rest |
| Numerals.ScanNumberOfDigits | src/main.rs:542-542 | a digit run of allowed length followed by a non-digit scans to its value and that rest |
| Dates.FromYmd | src/main.rs:624-627 | `from_ymd_opt`: a date exactly when year, month and day name a valid calendar date |
| Dates.Pred | src/main.rs:629-635 | `pred_opt`: none exactly for the first representable date; otherwise the valid date immediately before |
| Dates.Parse | src/database/sqlite_impl.rs:451-455 | `parse_from_str(s, "%Y-%m-%d")`: whatever it accepts is a valid date |
| Dates.ParseDayFirst | src/commands/import.rs:323-326 | `parse_from_str(s, "%d/%m/%Y")`: whatever it accepts is a valid date |
| Dates.FormatParseRoundTrip | src/database/sqlite_impl.rs:443-455 | every valid date, written with `%Y<sep>%m<sep>%d`, parses back as itself |
| Strings.Trim | src/commands/import.rs:154-154 | `str::trim`: no whitespace left at either end |
| Strings.TrimIsSlice | src/commands/import.rs:346-348 | the trimmed text is a slice of the input and only whitespace is cut |
| Strings.TrimIdempotent | src/commands/import.rs:346-348 | trimming twice is trimming once |
| Strings.RemoveFirst | src/commands/import.rs:359-360 | `replacen(",", "", 1)`: unchanged without a comma, one character shorter with one |
| Strings.SplitOnce | src/main.rs:557-577 | the two parts around the first separator rebuild the input; none exactly when the separator is absent |
| Utf8.EncodeChar | src/commands/import.rs:123-134 | one to four bytes per scalar value, one exactly for ASCII |
| Utf8.DecodeEncode | src/commands/import.rs:123-134 | `String::from_utf8` gives back every encoded string |
| Utf8.DecodeFirstEncodeChar | src/commands/import.rs:123-134 | each scalar value's encoding decodes back to it whatever follows |
| Utf8.DecodeAscii | src/commands/import.rs:123-134 | bytes below 0x80 decode one character each, to the same code |
| Values.TextFrom | src/database/sqlite_impl.rs:533-540 | a string field reads only from a TEXT value |
| Values.OptionalTextFrom | src/database/sqlite_impl.rs:533-540 | an optional string reads from NULL or TEXT and nothing else |
| Values.IntegerFrom | src/database/sqlite_impl.rs:533-540 | an integer field reads only from an INTEGER value |
| Values.OptionalIntegerFrom | src/database/sqlite_impl.rs:479-496 | an optional integer reads from NULL or INTEGER and nothing else |
| Values.RealFrom | src/database/sqlite_impl.rs:467-477 | a REAL field also accepts an INTEGER (the `as_float!` work-around) and nothing else |
| Values.OptionalRealFrom | src/database/sqlite_impl.rs:467-477 | an optional REAL field reads from NULL, REAL or INTEGER |
| Values.TransactionTypeFrom | src/database/sqlite_impl.rs:420-431 | a transaction type reads only from the text its writer produces |
| Values.TransactionTypeRoundTrip | src/database/sqlite_impl.rs:420-441 | every transaction type reads back as itself |
| Values.OptionalTransactionTypeFrom | src/database/sqlite_impl.rs:566-595 | an absent type is exactly a NULL value |
| Values.DateTo | src/database/sqlite_impl.rs:443-449 | the last representable date is stored exactly as "Inf", the first exactly as "-Inf", others as text |
| Values.DateFromAsWritten | src/database/sqlite_impl.rs:451-455 | the reader as written accepts only `%Y-%m-%d` and yields valid dates |
| Values.InfiniteDatesDoNotRoundTrip | src/database/sqlite_impl.rs:443-455 | the reader as written rejects what the writer stores for the two extreme dates |
| Values.DateFrom | src/database/sqlite_impl.rs:443-455 | the corrected reader, which also accepts the two sentinels, yields valid dates |
| Values.DateRoundTrip | src/database/sqlite_impl.rs:443-455 | every valid date, the two sentinels included, reads back as itself through the corrected reader |
| Values.OptionalDateFrom | src/database/sqlite_impl.rs:457-465 | NULL reads as no date, and every date read is valid |
| Values.AccountToRow | src/database/sqlite_impl.rs:543-562 | an account is stored as three fields led by its name |
| Values.AccountFromRow | src/database/sqlite_impl.rs:530-541 | an account read back carries the name of the row's first field |
| Values.AccountRoundTrip | src/database/sqlite_impl.rs:530-562 | every account reads back as itself |
| Values.TransactionToRow | src/database/sqlite_impl.rs:498-526 | a transaction is stored as nine fields led by its id |
| Values.TransactionFromRow | src/database/sqlite_impl.rs:479-496 | a transaction read back carries the id of the row's first field |
| Values.TransactionRoundTrip | src/database/sqlite_impl.rs:479-526 | every transaction reads back as itself |
| Values.TagRuleToRow | src/database/sqlite_impl.rs:597-637 | a tag rule is stored as ten fields led by its id |
| Values.TagRuleFromRow | src/database/sqlite_impl.rs:566-595 | a tag rule read back carries the id of the row's first field |
| Values.TagRuleRoundTrip | src/database/sqlite_impl.rs:566-637 | every tag rule reads back as itself, including rules bounded by the extreme dates |
| Values.TagRuleFromRowAsWritten | src/database/sqlite_impl.rs:566-595 | the tag-rule reader as written, with the as-written date reader |
| Values.OpenLowerBoundRuleUnreadableAsWritten | src/database/sqlite_impl.rs:443-455 | a stored rule whose lower date bound is the first representable date cannot be read back as written |
| Migrations.RunFromShape | src/database/sqlite_impl.rs:81-111 | the scripts attempted are consecutive; on success the version is the last index, on failure the run stops at the failing script with the version before it |
| Migrations.MigrateRunsPendingScripts | src/database/sqlite_impl.rs:81-111 | exactly the scripts after the persisted version run, in order, and `true` is returned iff there were some |
| Migrations.MigrateStopsAtFailure | src/database/sqlite_impl.rs:91-105 | on failure the scripts attempted run from the one after the persisted version up to the failing one, the version left is the one before it, and that script or its version bump failed; no later script is attempted |
| Migrations.FailureCause | src/database/sqlite_impl.rs:93-105 | a run that fails stops at a script that failed or whose version update failed |
| Migrations.MigrateIdempotent | src/database/sqlite_impl.rs:81-111 | migrating again after a success changes nothing and reports nothing pending |
| Store.Tables.Set | src/database/sqlite_impl.rs:325-405 | writing one table leaves the other two unchanged |
| Store.FreshRowid | src/database/sqlite_impl.rs:368-371 | the rowid SQLite picks is above every rowid in use |
| Store.FindKey | src/database/sqlite_impl.rs:396-399 | `WHERE <first field> = key`: the first row with that key, none exactly when no row has it; NULL matches nothing |
| Store.FindNonKey | src/database/sqlite_impl.rs:376-385 | `WHERE (f2, ..) IS (..)`: the first row, in rowid order, whose non-key fields are those given, none exactly when there is none |
| Store.Capture | src/database/sqlite_impl.rs:200-247 | a trigger appends one statement for the step with the largest id and changes nothing else |
| Store.Insert | src/database/sqlite_impl.rs:204-210 | an insert changes only tables and statements, changes nothing on failure, and returns a full row (with an integer key where the key is the rowid) |
| Store.UpdateByKey | src/database/sqlite_impl.rs:350-366 | an update changes only tables and statements, and nothing on failure |
| Store.DeleteByKey | src/database/sqlite_impl.rs:403-415 | a delete never fails and changes only tables and statements |
| Store.DeleteRowidStmt | src/database/sqlite_impl.rs:209-209 | the captured inverse of an insert changes only tables and statements |
| Store.Overwrite | src/database/sqlite_impl.rs:212-219 | an UPDATE without WHERE gives every row the same fields |
| Store.CaptureEach | src/database/sqlite_impl.rs:221-228 | the update trigger captures one statement per updated row |
| Store.SetAllStmt | src/database/sqlite_impl.rs:212-228 | the captured inverse of an update changes only tables and statements, and nothing on failure |
| Store.Execute | src/database/sqlite_impl.rs:298-301 | one replayed statement changes only tables and statements |
| Store.Replay | src/database/sqlite_impl.rs:298-301 | replaying in fetch order changes only tables and statements |
| Store.InsertOrGet | src/database/sqlite_impl.rs:368-401 | a successful insert is reported as new with exactly the insert's effect; otherwise nothing changes |
| Store.StatementsOf | src/database/sqlite_impl.rs:289-294 | a step's statements are a sub-sequence of those captured |
| StoreFacts.KeepStepsMembers | src/database/sqlite_impl.rs:279-283 | the steps kept are exactly those with ids above the bound |
| Store.DropStatementsOf | src/database/sqlite_impl.rs:279-283 | the cascade drops exactly the statements of the deleted steps |
| Store.RemoveStep | src/database/sqlite_impl.rs:302-306 | deleting a step by id keeps every other step |
| Store.KeepReferenced | src/database/sqlite_impl.rs:258-261 | `NOT IN (SELECT ..)` keeps exactly the steps that some statement names, or every step once a NULL step id is stored |
| StoreFacts.FirstIsLeast | src/database/sqlite_impl.rs:338-348 | the first row of a table is the one with the least rowid |
| StoreFacts.InsertSortedSorted | src/database/sqlite_impl.rs:338-348 | placing a row by rowid keeps the table in rowid order |
| StoreFacts.InsertEffect | src/database/sqlite_impl.rs:204-210 | a successful insert stores the row under a fresh rowid, captures the delete of that rowid, and keeps the store valid |
| StoreFacts.InsertedRowidFresh | src/database/sqlite_impl.rs:368-371 | the rowid an insert takes is not in use |
| StoreFacts.KeyIdentifiesRow | src/database/sqlite_impl.rs:316-324 | two distinct rows of a valid table never share a key |
| StoreFacts.DeleteByKeyEffect | src/database/sqlite_impl.rs:238-247 | a delete by key removes exactly that row, captures its re-insert first, and keeps the store valid |
| StoreFacts.DeleteByKeyAbsent | src/database/sqlite_impl.rs:403-415 | a key no row carries deletes nothing and reports 0 changes |
| StoreFacts.DeleteTwice | src/database/sqlite_impl.rs:403-415 | deleting the same key twice reports 1, then 0 |
| StoreFacts.InsertAccepted | src/database/sqlite_impl.rs:368-371 | an insert that meets no key, UNIQUE or other constraint succeeds |
| StoreFacts.DeleteThenInverse | src/database/sqlite_impl.rs:229-247 | running the re-insert a delete captured puts the row back under its own rowid, unless a constraint refuses it |
| StoreFacts.DeleteThenInverseAccounts | src/database/sqlite_impl.rs:229-247 | in `accounts` the re-insert brings back the same set of rows, under a fresh rowid |
| StoreFacts.InsertThenInverse | src/database/sqlite_impl.rs:204-210 | running the delete an insert captured takes the row out again and captures its re-insert |
| StoreFacts.UpdateByKeyEffect | src/database/sqlite_impl.rs:350-366 | an update by key replaces exactly that row's fields, keeps its rowid, captures the old fields and keeps the store valid |
| StoreFacts.UpdateThenInverseOneRow | src/database/sqlite_impl.rs:212-228 | undoing an update of a table of one row restores it |
| StoreFacts.UpdateThenInverseFails | src/database/sqlite_impl.rs:212-228 | the update inverse has no WHERE: with two rows or more it fails on the key and changes nothing |
| StoreFacts.InsertRefused | src/database/sqlite_impl.rs:370-374 | an insert that clashes with a stored row fails on UNIQUE and changes nothing |
| StoreFacts.FindNonKeyUnique | src/database/sqlite_impl.rs:376-385 | the lookup by non-key fields, none NULL, finds the one row carrying them |
| StoreFacts.InsertOrGetAgain | src/database/sqlite_impl.rs:368-401 | inserting the same model twice, no non-key field NULL, reports the first row as existing and changes nothing |
| StoreFacts.InsertOrGetNullsDuplicate | src/database/sqlite_impl.rs:368-401 | with a NULL non-key field UNIQUE does not apply: the same model is stored twice |
| StoreFacts.BeginUndoStepSteps | src/database/sqlite_impl.rs:270-285 | the steps left: the old ones above the bound, then the new one |
| StoreFacts.BeginUndoStepRetention | src/database/sqlite_impl.rs:270-285 | the new step is the newest, at most `max_undo_steps` steps remain, and older steps inside the window survive |
| StoreFacts.BeginUndoStepValid | src/database/sqlite_impl.rs:270-285 | opening a step leaves the tables alone and keeps the store valid |
| StoreFacts.EmptyStepCannotBeUndone | src/database/sqlite_impl.rs:287-297 | a step with no write since it was opened cannot be undone ("there is nothing to undo.") |
| StoreFacts.ExecuteIgnoresForeignKeys | src/database/sqlite_impl.rs:39-54 | statements do not read `foreign_keys`; the pragma only decides whether deleting a step cascades |
| StoreFacts.UndoStepBookkeeping | src/database/sqlite_impl.rs:287-308 | after an undo foreign keys are on again; success removes exactly the newest step, failure keeps every step |
| StoreFacts.FreshStep | src/database/sqlite_impl.rs:270-285 | a step just opened owns no statement and is the newest |
| StoreFacts.DeleteRowidAbsent | src/database/sqlite_impl.rs:209-209 | deleting a rowid no row has changes nothing |
| StoreFacts.UndoRestoresSingleInsert | src/commands/undo.rs:39-59 | undoing a step that inserted one row takes it out again and removes the step |
| StoreFacts.UndoIsReplay | src/database/sqlite_impl.rs:287-308 | undo succeeds exactly when replaying the newest step's statements does, leaving the tables the replay leaves |
| StoreFacts.AddInFreshStep | src/database/sqlite_impl.rs:204-210 | an insert as the first write of a fresh step stores the row and the step holds only the delete undoing it |
| StoreFacts.UndoAddThenDeleteKeepsRow | src/commands/undo.rs:61-83 | undo replays in capture order: after add-then-delete in one step, the row remains |
| StoreFacts.UndoDeleteOfAdded | src/commands/undo.rs:61-83 | deleting, in the same step, a row whose only statement is its own delete, then undoing |
| StoreFacts.ExecuteKeeps | src/database/sqlite_impl.rs:200-247 | triggers write only to the newest step: every other step keeps its statements |
| StoreFacts.ReplayDeletesOk | src/database/sqlite_impl.rs:298-301 | replaying deletes by rowid never fails |
| StoreFacts.InsertAllEffect | src/database/sqlite_impl.rs:185-189 | a run of inserts keeps existing rows, adds rows under fresh rowids, and captures one delete per new rowid for the newest step |
| StoreFacts.ReplayDeletesEffect | src/database/sqlite_impl.rs:298-301 | replaying deletes removes exactly the rows with those rowids, whatever the order |
| StoreFacts.RowsRestored | src/commands/undo.rs:85-94 | after deleting the inserted rowids each table holds the rows it held before |
| StoreFacts.UndoRestoresInserts | src/commands/undo.rs:85-94 | undoing a step that inserted any number of rows removes exactly those rows |
| StoreFacts.InitializeUndoEffect | src/database/sqlite_impl.rs:252-267 | from scratch every step goes; otherwise exactly the steps some statement names survive; the tables never change |
| StoreFacts.InitializeUndoWithOrphanKeepsAll | src/database/sqlite_impl.rs:258-261 | with a statement captured under no step, `NOT IN` deletes nothing |
| SqliteImpl.SqliteDatabase.constructor | src/database/sqlite_impl.rs:126-151 | a freshly opened connection: empty tables, no steps or statements, foreign keys off, version 0 |
| SqliteImpl.SqliteDatabase.PerformMigrations | src/database/sqlite_impl.rs:81-111 | the loop over the scripts ends in the state and result of `Migrations.Migrate` |
| SqliteImpl.SqliteDatabase.InitializeSqlite | src/database/sqlite_impl.rs:113-119 | foreign keys on, then the migrations |
| SqliteImpl.SqliteDatabase.InitializeUndo | src/database/sqlite_impl.rs:252-267 | the new state is `Store.InitializeUndo` of the old |
| SqliteImpl.SqliteDatabase.Open | src/database/sqlite_impl.rs:126-140 | migrate, then prepare undo, wiping the history exactly when the schema changed |
| SqliteImpl.SqliteDatabase.BeginUndoStep | src/database/sqlite_impl.rs:270-285 | the new state is `Store.BeginUndoStep` of the old |
| SqliteImpl.SqliteDatabase.GetLastUndoStep | src/database/sqlite_impl.rs:310-323 | the newest step's name, or "there is nothing to undo." without a step; nothing changes |
| SqliteImpl.SqliteDatabase.Execute | src/database/sqlite_impl.rs:298-301 | the new state is `Store.Execute` of the old |
| SqliteImpl.SqliteDatabase.UndoLastStep | src/database/sqlite_impl.rs:287-308 | the replay loop ends in the state and result of `Store.UndoLastStep` |
| SqliteImpl.SqliteDatabase.GetAll | src/database/sqlite_impl.rs:338-348 | every row of the table, in rowid order; nothing changes |
| SqliteImpl.SqliteDatabase.Update | src/database/sqlite_impl.rs:350-366 | the new state is `Store.UpdateByKey` of the old |
| SqliteImpl.SqliteDatabase.InsertOrGet | src/database/sqlite_impl.rs:368-401 | the new state and result are those of `Store.InsertOrGet` |
| SqliteImpl.SqliteDatabase.Delete | src/database/sqlite_impl.rs:403-415 | the new state and change count are those of `Store.DeleteByKey` |
| Undo.BeginUndoStep | src/commands/undo.rs:7-9 | every command opens a step with a window of 128 |
| Undo.CommandUndo | src/commands/undo.rs:11-17 | with no step the command fails with "there is nothing to undo." and changes nothing; otherwise it undoes the newest step |
| Undo.BeginWindow | src/commands/undo.rs:96-116 | with gapless ids, opening a step keeps every step while the window has room and drops exactly the oldest once full |
| Undo.BeginConsecutive | src/commands/undo.rs:96-116 | round `k`'s step: ids stay gapless, the window grows by one until full, the new step owns nothing |
| Undo.BeginUndoable | src/commands/undo.rs:96-116 | opening a step keeps every older surviving step's statements |
| Undo.RoundInsertAccepted | src/commands/undo.rs:96-116 | the account of round `k` clashes with no stored account |
| Undo.RoundUndoable | src/commands/undo.rs:96-116 | a delete captured into the new step makes it undoable and keeps the other steps undoable |
| Undo.InsertKeepsHistory | src/commands/undo.rs:96-116 | inserting round `k`'s account into its step keeps the history invariant |
| Undo.UndoRound | src/commands/undo.rs:109-116 | undoing the newest step of such a history succeeds and removes exactly that step |
| Undo.TruncateHistory | src/commands/undo.rs:96-116 | with one step more than the window: 129 new inserts, exactly 128 undos succeed, and the next one fails |
| Cli.ParseRange | src/main.rs:557-580 | split at the first '-' only; an error without '-', when a part fails, or when present bounds are in descending order; otherwise the two parsed parts |
| Cli.SplitsAtFirstDash | src/main.rs:561-565 | only the first '-' splits: the upper part may hold more |
| Cli.MatchMonth | src/main.rs:598-601 | the pattern `^((\d{4})[-/])?(\d{2}\|[A-Za-z]+)$`: an optional four-digit year and separator, then a month token |
| Cli.MonthFromName | src/main.rs:610-616 | `Month::from_str`: a month in 1..12 whose name starts with the text's first three letters, case-insensitively |
| Cli.MonthNumber | src/main.rs:610-616 | two digits are parsed as a number; a name gives a month in 1..12 |
| Cli.ParseMonth | src/main.rs:596-622 | no match gives the format error; a result is a month in 1..12 with the current year when none is given |
| Cli.YearMonthParses | src/main.rs:709-718 | `YYYY/MM` and `YYYY-MM` name that month of that year |
| Cli.MonthNameParses | src/main.rs:680-696 | a month's name or its abbreviation is that month of the current year |
| Cli.AbbreviationsDistinct | src/main.rs:610-616 | the three-letter abbreviations tell the months apart |
| Cli.FirstMatchingMonth | src/main.rs:610-616 | no other month shares month `k`'s first three letters |
| Cli.MonthOutOfRange | src/main.rs:617-621 | two digits outside 01..12 are refused |
| Cli.FirstDayOfMonth | src/main.rs:624-627 | the first day exactly when the year is representable and the month is in 1..12 |
| Cli.LastDayOfMonth | src/main.rs:629-635 | the day before the first of the next month, a valid date |
| Cli.LastDayIsLast | src/main.rs:629-635 | the last day is the month's length, and the day after it is not in the month |
| Cli.LastYearRefused | src/main.rs:629-635 | in the last representable year the fallback to next January fails, even for months before December |
| Cli.ParseDateRange | src/main.rs:533-555 | both bounds are present and in ascending order |
| Cli.ParsePeriod | src/main.rs:497-510 | no period is no bounds; text that is not a month is a date range |
| Cli.PeriodOfYearMonth | src/main.rs:709-718 | a single `YYYY/MM` covers that whole month |
| Cli.PeriodOfMonthName | src/main.rs:720-743 | a single month name is that whole month of the current year |
| Cli.DateRangeOfDates | src/main.rs:662-678 | two formatted dates read back as the bounds, or are refused in descending order |
| Cli.DatePartOfDate | src/main.rs:542-544 | a formatted date reads back as itself |
| Cli.OpenDateRange | src/main.rs:750-777 | ':' on either side is the extreme date on that side |
| Cli.MonthNameRange | src/main.rs:680-696 | two month names in order span from the first day of the first to the last day of the second |
| Cli.MonthNameDateRange | src/main.rs:680-696 | the same bounds through `parse_date_range` |
| Cli.DatePartOfName | src/main.rs:545-552 | a month name is its first day as a lower bound and its last day as an upper bound |
| Cli.NameIsNotDate | src/main.rs:542-545 | a word is not a `%Y/%m/%d` date |
| Cli.ParseAmountRange | src/main.rs:512-531 | no range is no bounds; a parsed range has both bounds in ascending order |
| Cli.OpenAmountRange | src/main.rs:826-842 | `:-:` spans every `f64` amount |
| Accounts.AccountsFrom | src/commands/accounts.rs:33-33 | `get_all`: one account per row, each the row's conversion, or an error exactly when some row does not convert |
| Accounts.Selected | src/commands/accounts.rs:35-38 | exactly the selected accounts |
| Accounts.FirstNamed | src/commands/accounts.rs:39-43 | the first account, in stored order, whose name or alias is the one given; none exactly when no account has it |
| Accounts.ResolveMeaning | src/commands/accounts.rs:29-50 | no name gives exactly the selected accounts; a name gives exactly the first account it names, and fails exactly when it names none |
| Accounts.GetAccountOrSelected | src/commands/accounts.rs:29-50 | the accounts as stored, resolved as `ResolveMeaning` describes; nothing changes |
| Accounts.ScanAccounts | src/commands/accounts.rs:35-49 | the loop that collects selected accounts and returns at the first match computes the resolution |
| Accounts.WriteSelected | src/commands/accounts.rs:54-57 | the `update` loop changes only tables and statements |
| Accounts.WithSelected | src/commands/accounts.rs:54-57 | every account in the list with `selected` set to the flag |
| Accounts.WriteEach | src/commands/accounts.rs:54-57 | the loop's final state and result are those of `WriteSelected` |
| Accounts.Select | src/commands/accounts.rs:52-59 | the new state and result are those of resolving, then writing each account back selected |
| Accounts.Unselect | src/commands/accounts.rs:61-68 | the new state and result are those of resolving, then writing each account back unselected |
| Accounts.Alias | src/commands/accounts.rs:70-80 | the new state and result are those of resolving, then writing back the first account with the alias |
| Accounts.DeleteAlias | src/commands/accounts.rs:82-88 | the new state and result are those of resolving, then writing back the first account without alias |
| Accounts.NamesUnique | src/commands/accounts.rs:29-50 | stored accounts have distinct names |
| Accounts.UpdateAccountAt | src/commands/accounts.rs:54-57 | writing an account back under its own name replaces that account only, in place |
| Accounts.SelectMarksOne | src/commands/accounts.rs:183-216 | `select` marks the resolved account selected and changes nothing else, so selections accumulate |
| Accounts.WriteSelectedEffect | src/commands/accounts.rs:61-68 | writing back a list of distinct stored accounts flags exactly those accounts |
| Accounts.UnselectAllClears | src/commands/accounts.rs:228-235 | `unselect` with no name clears every selection and changes nothing else |
| Accounts.UnselectUnknownFails | src/commands/accounts.rs:238-245 | `unselect` with a name that designates no account fails and changes nothing |
| Accounts.AliasSetsAlias | src/commands/accounts.rs:96-113 | `alias` sets the alias of the resolved account and changes nothing else |
| Accounts.DeleteAliasClears | src/commands/accounts.rs:138-151 | `delete_alias` clears the alias of the account it designates and changes nothing else |
| Accounts.ListShowsAccounts | src/commands/accounts.rs:9-27 | one row per account under three columns: the name, the alias or "", and the marker exactly when selected |
| Accounts.ListMarksSelection | src/commands/accounts.rs:9-50 | the accounts the listing marks are those resolved with no name |
| Tags.TagRulesFrom | src/commands/tags.rs:15-17 | `get_all`: one rule per row, each the row's conversion with an id, or an error exactly when some row does not convert |
| Tags.Keep | src/commands/tags.rs:18-20 | exactly the rules whose tag starts with the prefix, or every rule without one |
| Tags.InsertById | src/commands/tags.rs:21-21 | inserting a rule adds exactly that rule |
| Tags.SortById | src/commands/tags.rs:21-21 | the sort loses and adds no rule |
| Tags.InsertByIdSorted | src/commands/tags.rs:21-21 | inserting into a sorted list keeps it sorted by id |
| Tags.SortByIdSorts | src/commands/tags.rs:21-21 | `sort_by_key(id)` orders the rules by id and is a permutation |
| Tags.SortSorted | src/commands/tags.rs:21-21 | rules already in id order are left as they are |
| Tags.KeepAscending | src/commands/tags.rs:18-21 | filtering keeps the ids ascending |
| Tags.StoredAscending | src/commands/tags.rs:15-21 | the stored rules, read back, have strictly ascending ids |
| Tags.ListTagRulesMeaning | src/commands/tags.rs:11-38 | the listing shows exactly the stored rules with the prefix, one row each, in ascending id order, under "ID", "Tag", "Description" |
| Tags.AsI64 | src/commands/tags.rs:119-119 | `usize as i64`: the value modulo 2^64 in the 64-bit range, unchanged when it fits |
| Tags.HumanReadable | src/commands/tags.rs:64-113 | the clause builder produces `Describe` of the arguments |
| Tags.ClausesCount | src/commands/tags.rs:64-113 | one clause per filter given, except extreme amounts and a lone extreme date; two date bounds make one "between" clause, the last |
| Tags.AmountSentinelsOmitted | src/commands/tags.rs:73-82 | an extreme amount bound describes the same rule as no bound |
| Tags.DateSentinelsOmitted | src/commands/tags.rs:84-103 | a lone extreme date describes the same rule as no date |
| Tags.RuleOf | src/commands/tags.rs:115-126 | the rule to store is storable: no id yet, the description, the filters as given |
| Tags.AddTagRule | src/commands/tags.rs:53-146 | the new state and result are those of `AddTagRuleOutcome` |
| Tags.AddTagRuleExisting | src/commands/tags.rs:128-131 | an equal rule found by the lookup wins: its id is returned and nothing is stored |
| Tags.AddTagRuleInserts | src/commands/tags.rs:132-145 | otherwise the rule is stored under a fresh id, reads back as itself under it, the id and match count are returned, and no other table changes |
| Tags.RuleWithId | src/commands/tags.rs:133-134 | the rule read from the stored row is the rule given with its new id |
| Tags.KeyedRule | src/commands/tags.rs:148-152 | `TagRule::default()` with the parsed id is a storable rule |
| Tags.DeleteTagRule | src/commands/tags.rs:148-152 | the new state and result are those of parsing the id and deleting by key |
| Tags.DeleteListedRule | src/commands/tags.rs:451-473 | the id a listing prints deletes that rule once: 1, then 0 on a repeat |
| Statements.Latin1Bytes | src/commands/import.rs:123-130 | every character of U+0001..U+00FF becomes the byte with its code point, one byte per character |
| Statements.Repaired | src/commands/import.rs:123-134 | the repair returns the input when a character is outside U+0001..U+00FF or the bytes are not UTF-8, and the decoded text otherwise |
| Statements.FixRevolutEncoding | src/commands/import.rs:123-134 | the byte-collecting loop that gives up on the first character out of range returns exactly the repaired text |
| Statements.Mojibake | src/commands/import.rs:109-122 | text double-encoded as Revolut does it has one character per UTF-8 byte of the original |
| Statements.RepairsMojibake | src/commands/import.rs:109-134 | the repair undoes the double encoding of every text without NUL |
| Statements.AsciiFixedPoint | src/commands/import.rs:123-134 | ASCII text without NUL is left unchanged by the repair |
| Statements.AsKv | src/commands/import.rs:161-165 | the record's map has a key exactly for each header name with a field at the same position |
| Statements.AsKvLookup | src/commands/import.rs:161-165 | a header name not repeated later maps to the record's field at its position |
| Statements.AsKvMissing | src/commands/import.rs:161-165 | a name not in the header is not in the record's map |
| Statements.NoPartsWithoutText | src/commands/import.rs:332-350 | description fields that are missing or blank contribute nothing |
| Statements.OnePartWithText | src/commands/import.rs:332-350 | a single field with text contributes exactly its trimmed value |
| Statements.AibDescriptionCases | src/commands/import.rs:332-350 | with no description field the description is empty; with exactly one it is that field trimmed |
| Statements.AibDescriptionAll | src/commands/import.rs:332-350 | with all four description fields the description is the four trimmed values joined by " / " in field order |
| Statements.AibType | src/commands/import.rs:389-396 | "Topup", "ATM" and "Debit" are debits, "Direct Debit" a direct debit, "Credit" a credit, anything else unknown |
| Statements.AibRecord | src/commands/import.rs:311-405 | an AIB record that converts is a valid transaction without id, with the joined description and the type its "Transaction Type" names |
| Statements.RevolutTransaction | src/commands/import.rs:200-236 | a non-negative amount is a credit, a negative one a debit; credit minus debit is the amount minus the fee; the other amount is zero |
| Statements.RevolutMoney | src/commands/import.rs:200-256 | a record is taken only with amount, fee, balance and currency present; an empty balance passes the record over without counting its line |
| Statements.RevolutRecord | src/commands/import.rs:167-256 | reverted and pending records and records of another product are passed over; a taken record is of the product asked for and is a valid transaction of the statement's account |
| Statements.EmptyBalanceRecordPassedOver | src/commands/import.rs:238-242 | a completed record of the product with an empty balance is passed over on the same line |
| Statements.EmptyRecordFails | src/commands/import.rs:174-176 | a record without fields fails on its missing product |
| Import.ImporterInsertEffect | src/commands/import.rs:25-40 | an insert keeps the store valid, loses no transaction, adds at most one, and on success records the account and stores the transaction |
| Import.RecordStep | src/commands/import.rs:155-260 | a taken record is a valid transaction without id; a Revolut one carries the statement's account; an AIB record is never passed over |
| Import.Steps | src/commands/import.rs:158-165 | one step per record, in order, each the step of the record's map |
| Import.ImportStepsEffect | src/commands/import.rs:157-260 | importing a file's records keeps the store valid and loses no stored transaction |
| Import.ImportStepsAccounts | src/commands/import.rs:37-38 | every account newly reported is the account of a record that was taken |
| Import.ErrorsAreLocated | src/commands/import.rs:157-260 | every error starts with the file's path and the line of one of its records |
| Import.SkippedRowsChangeNothing | src/commands/import.rs:167-180 | records that are all passed over leave the store and the accounts unchanged |
| Import.FailureCarriesLine | src/commands/import.rs:157-176 | a record `k` that fails after passed-over records is reported at line `k + 2`, with nothing stored |
| Import.TrimAll | src/commands/import.rs:150-154 | every header name is trimmed, in order |
| Import.AibHeaderChecked | src/commands/import.rs:300-303 | an AIB file without "Local Currency" is refused with "is not in the right format!" before any record is read |
| Import.ImportFilesEffect | src/commands/import.rs:145-262 | importing files keeps the store valid and loses no stored transaction |
| Import.AsWrittenAgreesWithoutEmptyBalance | src/commands/import.rs:157-260 | without records whose balance is empty the line counter as written agrees with the corrected one |
| Import.EmptyBalanceStep | src/commands/import.rs:238-242 | a Revolut record with an empty balance is a step that keeps the same line |
| Import.EmptyRecordStep | src/commands/import.rs:174-176 | an empty Revolut record is a failing step |
| Import.EmptyBalanceShiftsLinesAsWritten | src/commands/import.rs:238-259 | after a record with an empty balance the next record's error names the wrong line (2 instead of 3) |
| Import.Latest | src/commands/import.rs:76-79 | the latest posted date is absent exactly for no transactions, is some transaction's date and is on or after every date |
| Import.FirstAfter | src/commands/import.rs:87-95 | the earliest date strictly after the bound: absent exactly when no date is after it, and on or before every date that is |
| Import.TransactionsFrom | src/database/sqlite_impl.rs:338-348 | reading transactions back yields one per row, each converted from its row |
| Import.TransactionsReadBack | src/database/sqlite_impl.rs:479-526 | stored transactions read back as the same transactions |
| Import.ImportCounts | src/commands/import.rs:67-105 | the imported count is the number of rows added, never negative, and no stored transaction is lost |
| Import.FirstWithoutBank | src/commands/import.rs:42-52 | the index of the first account of that name without a bank, and none exactly when no account qualifies |
| Import.WithBankSetChangesOne | src/commands/import.rs:42-52 | only the first account of that name without a bank gets the bank; every other account is unchanged |
| Import.EnsureBankIsSet | src/commands/import.rs:42-52 | the loop that stops at the first match returns the accounts with only that one account's bank set |
| Import.Importer.constructor | src/commands/import.rs:14-23 | the importer starts with no accounts and the bank of the format ("AIB" or "Revolut") |
| Import.Importer.Insert | src/commands/import.rs:25-40 | the store and accounts after an insert are those of the insert's model |
| Import.Importer.ImportRecords | src/commands/import.rs:157-260 | the record loop leaves the store and accounts the corrected record import gives |
| Import.Importer.ImportOneFile | src/commands/import.rs:143-262 | one file: the header check, then the record loop, as the file model gives |
| Import.Importer.ImportAll | src/commands/import.rs:136-283 | the files in order, stopping at the first error, as the files model gives |
| Import.Import | src/commands/import.rs:67-105 | the command's new store and result are those of the import model |
| Query.InsertAt | src/commands/query.rs:87-89 | inserting at `k` puts the value at `k`, keeps the elements before it and shifts the rest by one |
| Query.IdCell | src/commands/query.rs:27-31 | an id is written right-aligned in at least three columns: spaces, then its decimal text |
| Query.FiltersFor | src/commands/query.rs:62-71 | the filters carry the command-line filters unchanged; only the by-tag report asks for transaction types: debit and direct debit, or credit, or none |
| Query.FlowTable | src/commands/query.rs:74-147 | the debits and credits tables have seven columns, eight with the id, and one rectangular row per query row |
| Query.IdColumnSplicedIn | src/commands/query.rs:87-105 | showing the id inserts "ID" and each row's id at index 1 of the table without it, and changes nothing else |
| Query.ByMonthTable | src/commands/query.rs:148-188 | the by-month table has seven columns, eight with the balance, and one rectangular row per query row |
| Query.BalanceColumn | src/commands/query.rs:149-183 | "Balance" is a column exactly when the balance is shown, then sixth, holding each row's balance, with the rest of the table unchanged |
| Query.ByTagTable | src/commands/query.rs:189-226 | the by-tag table has five columns and one rectangular row per query row |
| Query.CommandQuery | src/commands/query.rs:51-231 | a successful query yields a rectangular table |
| Query.CommandQueryMeaning | src/commands/query.rs:51-231 | a report fails exactly when its query does and then has one row per query row; the by-month balance column is shown exactly when no tag, description or amount filter is given |
| Table.NarrowWidth | src/table.rs:117-117 | a string of one-column characters is as wide on the terminal as it is long |
| Table.Fill | src/table.rs:37-37 | `k` copies of a character have length `k` |
| Table.WrapRow | src/table.rs:98-102 | every cell of a row is wrapped at the maximum column width, in column order |
| Table.WrapRows | src/table.rs:96-104 | every row is wrapped, in row order |
| Table.MaxLineWidthIsMax | src/table.rs:112-121 | the width of a cell's widest line bounds every line and is the least such bound |
| Table.NaturalWidthIsMax | src/table.rs:112-131 | a column's natural width bounds every line of its heading and cells and is the least such bound |
| Table.NaturalWidthStep | src/table.rs:122-131 | taking one more row widens each column to the widest line of that row's cell |
| Table.WidenColumn | src/table.rs:124-129 | the innermost loop widens only column `c`, to the larger of its width and the cell's widest line |
| Table.ColumnWidths | src/table.rs:112-131 | the two passes give each column its natural width over the heading and all rows |
| Table.Padded | src/table.rs:133-137 | a padded width grows by up to four and never past the maximum column width; it is the maximum or four more |
| Table.AddPadding | src/table.rs:133-137 | the padding loop pads every column and nothing else |
| Table.TableFits | src/table.rs:138-144 | columns no wider than the maximum column width make a table no wider than the terminal |
| Table.RowHeightIsMax | src/table.rs:51-55 | a row's height bounds the height of each cell and is the least such bound |
| Table.Pieces | src/table.rs:58-74 | a line of a row has one piece per cell |
| Table.RowLines | src/table.rs:57-76 | a row is drawn as exactly as many lines as its tallest cell |
| Table.RenderLine | src/table.rs:58-75 | the loop over the cells writes exactly the row's line `k` |
| Table.RenderRow | src/table.rs:43-79 | a row without cells is refused with "Failed to compute row height!"; any other row is drawn as its lines |
| Table.RenderHeader | src/table.rs:28-41 | the header is a rule, the headings, and a rule |
| Table.CountTextPadded | src/table.rs:161-161 | the row number is written zero-padded to two digits and reads back as itself |
| Table.CountTextMonotone | src/table.rs:171-176 | a larger row count never has a shorter text |
| Table.Dots | src/table.rs:162-166 | the counter's lead is `n` columns with '.' on even columns and ' ' on odd ones |
| Table.DottedLead | src/table.rs:162-166 | the dot loop writes exactly that lead |
| Table.Schedule | src/table.rs:149-169 | one entry for each row: what follows it |
| Table.ScheduleUpTo | src/table.rs:149-169 | one entry for each of the first `n` rows |
| Table.RenderSchedule | src/table.rs:152-168 | after row `k`: nothing after the last row, else the header after every 20th row, else the counter after every 10th |
| Table.AllRowLines | src/table.rs:150-151 | every row is drawn as its lines, in order |
| Table.RenderRows | src/table.rs:149-169 | the row loop succeeds exactly when every row has cells, and then writes every row followed by what the schedule puts after it |
| Table.Render | src/table.rs:146-179 | the header, the rows and the footer; refused exactly when a row has no cells |
| Table.LayoutWidths | src/table.rs:110-137 | each column is at least its natural width and at most the maximum column width |
| Table.WrappedFit | src/table.rs:96-108 | every wrapped line of every heading and cell fits the maximum column width |
| Table.Layout | src/table.rs:88-144 | one width per column, none past the maximum column width, and a table no wider than the terminal |
| Table.LayoutCellsFit | src/table.rs:133-138 | the padded widths leave room for every line of every heading and cell |
| Table.RenderTable | src/table.rs:81-180 | the table is written exactly when every row has cells, and is then the header, the rows and the footer laid out for the terminal |
| TableFacts.CentredWidth | src/table.rs:62-65 | centred text fills its column exactly |
| TableFacts.CellLineWidth | src/table.rs:60-73 | each line of a cell, or the blank under a short cell, fills its column exactly |
| TableFacts.RowLineWidth | src/table.rs:57-76 | a line of a row with a cell in every column is exactly as wide as the table |
| TableFacts.RowLinesWidth | src/table.rs:57-76 | every line of such a row is as wide as the table |
| TableFacts.HeaderLinesWidth | src/table.rs:28-41 | every line of the header is as wide as the table |
| TableFacts.CountTextWidth | src/table.rs:161-161 | the row number takes one column per digit |
| TableFacts.CounterLineWidth | src/table.rs:160-168 | the counter line is exactly as wide as the table |
| TableFacts.FooterWidth | src/table.rs:170-177 | the footer is exactly as wide as the table |
| TableFacts.BodyWidth | src/table.rs:149-169 | rows and what follows them, all of one width, give a body of that width |
| TableFacts.TableLinesWidth | src/table.rs:140-177 | every line of a table whose rows have a cell in every column is exactly as wide as the table |
| TableFacts.AfterWidth | src/table.rs:155-168 | what follows a row is as wide as the header |
| TableFacts.RenderedWidth | src/table.rs:81-180 | what render_table writes for full rows is a rectangle no wider than the terminal |
| TableFacts.ScheduleSize | src/table.rs:155-168 | before the last row, a 20th row is followed by the header, another 10th by one counter line, others by nothing |
| TableFacts.ScheduleLength | src/table.rs:153-168 | the first `k` rows before the last are followed by the header `k / 20` times and by a counter at the other multiples of 10 |
| TableFacts.TableLength | src/table.rs:146-177 | a table of `n` rows has the header, the rows' lines, the repeated headers and counters, and ends with the footer |
| TableFacts.SingleLineCount | src/table.rs:57-76 | rows whose cells do not wrap take one line each |
| TableFacts.ScheduleBefore20 | src/table.rs:158-168 | before the 20th row only counters follow the rows |
| TableFacts.BodyPosition | src/table.rs:149-169 | with one-line rows, what follows row `k` starts right after it |
| TableFacts.TableBodyLine | src/table.rs:146-169 | the body comes right after the header |
| TableFacts.CounterAfterTenthRow | src/table.rs:224-234 | with more than ten one-line rows, the line after the tenth row is the counter "10" |
| TableFacts.FooterAfterTenRows | src/table.rs:238-248 | with exactly ten one-line rows no counter is written: the footer follows the tenth row and ends the table |
| TableFacts.HeaderAfterTwentiethRow | src/table.rs:252-264 | with more than twenty one-line rows the header lines come again right after the 20th row |
| TableFacts.CounterAndFooterText | src/table.rs:224-248 | at a table width of 12 the counter after ten rows is ". . . . . 10" and the footers of 12 and 10 rows are "==========12" and "==========10" |
| OutputTable.UsizeSub | src/output/table.rs:95-95 | an unsigned subtraction has a value exactly when it does not underflow, and then undoes the addition |
| OutputTable.GuardAsWritten | src/output/table.rs:93-98 | the guard as written panics exactly when the columns are at least the terminal width, and reports "Not enough space" exactly when they are fewer but at least half of it |
| OutputTable.MaxColumnWidthGuard | src/output/table.rs:93-98 | a terminal is accepted exactly when it is wider than twice the columns; then the width is positive and the columns with their borders fit |
| OutputTable.GuardAgrees | src/output/table.rs:93-98 | where the guard as written is reached it gives the corrected guard's result; where it panics the corrected guard refuses the terminal |
| OutputTable.NarrowTerminalUnderflows | src/output/table.rs:93-98 | at the 16-column width of the tests, 8 columns get the error and 16 columns underflow |
| OutputTable.CounterFitsWhenShort | src/output/table.rs:175-183 | a row count with no more digits than the columns plus one fits in the footer |
| OutputTable.RenderTable | src/output/table.rs:83-185 | a narrow terminal is refused before anything is written; otherwise the table is written exactly when every row has cells |
| OutputTable.RectangularShaped | src/output/table.rs:187-335 | a report's rows have no more cells than it has columns |
| OutputTable.RenderReport | src/output/table.rs:83-185 | a report is written exactly when the terminal is wider than twice its columns, and is then the rendered table |
| OutputTable.RenderDebitsTable | src/output/table.rs:187-226 | the debits report is written exactly when the terminal is wider than 16 columns, 14 without ids |
| OutputTable.RenderCreditsTable | src/output/table.rs:228-267 | the credits report is written exactly when the terminal is wider than 16 columns, 14 without ids |
| OutputTable.RenderByMonthTable | src/output/table.rs:269-309 | the by-month report is written exactly when the terminal is wider than 16 columns with the balance, 14 without |
| OutputTable.RenderByTagTable | src/output/table.rs:311-335 | the by-tag report is written exactly when the terminal is wider than 10 columns |

## Left out

- SQL itself: the schema, the migration scripts, the report queries and the test data are not part of this model. A migration script is a function on the tables that may fail. The constraints of the schema other than the keys are a fixed set of refused rows. A report query is a function of the filters.
- `query_filters_to_sql` (src/database/sqlite_impl.rs:641-740) builds SQL text that nothing here executes; it is not modelled.
- Foreign keys are a flag: the checks that SQLite makes while the flag is on are not modelled, only the flag and the cascade of a step's statements.
- Tag matching runs in SQL triggers that are not part of this model. `Tags.AddTagRule` takes the answers of `lookup_tag_rule` and `count_matching_transactions` as parameters.
- Floating point: amounts are exact reals. Parsing an amount (`str::parse::<f64>`) is a parameter `parse`. Writing one (`{:.02}`) is a parameter `show`. The rounding of the Revolut fee arithmetic is not modelled.
- CSV decoding: a statement file is its header and its records, each a sequence of fields. Quoting, delimiters and reader errors of the csv crate are not modelled. Neither is the reading of the files.
- textwrap: `wrap` and the display width of a character are parameters of the table renderers. `wrap` is only required to give lines that fit the width asked for.
- The pager, the terminal width (a parameter `termwidth`), ANSI output and the writer's I/O errors are not modelled. A rendered table is the list of its lines.
- The clock: the year `now()` gives is a parameter of the month parser.
- `with_confirmation` and `confirm` read standard input; `Undo.CommandUndo` follows the path where the user confirms.
- `stingy_main` and the clap dispatch of src/main.rs, src/output/chart.rs, src/fallible_print.rs, src/output.rs, src/commands/info.rs, src/commands/reset.rs and build.rs are I/O, argument plumbing and charting; they are not modelled.
- src/output/format.rs writes cells as the query module does; the report tables reuse `Query`'s cell functions for it.
- Dates are those a chrono `NaiveDate` holds. chrono's `%Y` and the digit classes of the month parser are read as ASCII digits only.
- Import.ImporterInsert stores the account without a bank, as the storage revision has no bank column; setting the bank of an existing account is modelled apart, on accounts that carry one (`Import.EnsureBankIsSet`).
- Import.TransactionsFrom reports a row of the wrong length as an error, where the program's `assert_eq!` panics; the rows the store holds always have the right length.
- Table.RenderTable requires what the program would otherwise panic on: at least one column and a terminal wider than twice the number of columns, no row with more cells than there are columns (the index at src/table.rs:125), and a footer count that fits in the table (the subtraction at src/table.rs:176). With no more columns than the terminal is wide, the `usize` subtraction at src/table.rs:93 underflows. With `|columns| < termwidth <= 2 * |columns|` the maximum column width is 0; textwrap still gives lines one character wide for a non-empty heading, so `max_column_width - column_widths[c]` at src/table.rs:135 underflows. The model renders neither case. It also leaves out the one case there that does not panic, a table whose headings and cells are all empty.
- Table.WrapFits promises nothing about `wrap` at width 0, because textwrap never breaks a non-empty text into empty lines.
- OutputTable.RenderTable requires that the footer count fits the table (`OutputTable.CounterFits`), where the program's subtraction at src/output/table.rs:181 would panic.
- OutputTable.RenderTable, OutputTable.RenderReport, OutputTable.RenderDebitsTable, OutputTable.RenderCreditsTable, OutputTable.RenderByMonthTable and OutputTable.RenderByTagTable return "Not enough space to render the table." for a terminal no wider than the number of columns. There the program panics, because the `usize` subtraction at src/output/table.rs:95 underflows before its guard. That panic is modelled only by `OutputTable.GuardAsWritten` and `OutputTable.NarrowTerminalUnderflows`.
- Values.TransactionFromRow reads the posted date with the corrected reader `Values.DateFrom`, which also accepts "Inf" and "-Inf". The program's reader (src/database/sqlite_impl.rs:451-455) refuses them with "couldn't parse transaction date".
- Values.TransactionRoundTrip holds through the corrected date reader only. As written, a transaction dated at the minimum or maximum date is stored as "-Inf" or "Inf" and does not read back (`Values.InfiniteDatesDoNotRoundTrip`).
- Values.TagRuleFromRow reads the date bounds with the corrected reader. The reader as written is `Values.TagRuleFromRowAsWritten`, which refuses a rule bounded by the minimum or maximum date.
- Tags.TagRulesFrom converts rows with the corrected reader. So it succeeds on a stored rule bounded by "-Inf" or "Inf", where the program's `get_all` fails with "couldn't parse transaction date".
- Tags.ListTagRules and Tags.ListTagRulesMeaning list a stored rule with an open date bound. Once such a rule is stored, the program's `list_tag_rules` fails with "couldn't parse transaction date".
- Tags.AddTagRule and Tags.AddTagRuleOutcome return `Added` for a rule with an open date bound (the ':' of `parse_period`). The program stores that rule and captures its undo delete, then fails with "couldn't parse transaction date" when it converts the row that the insert returns (src/commands/tags.rs:133).
- Tags.AddTagRuleInserts says the stored rule reads back as itself and the command returns `Added`. Both hold only through the corrected reader when the rule is bounded by the minimum or maximum date; as written, such a rule is unreadable (`Values.OpenLowerBoundRuleUnreadableAsWritten`).
- Import.TransactionsFrom and Import.TransactionsReadBack read posted dates with the corrected reader. As written, a stored transaction dated "-Inf" or "Inf" makes the read fail.
- Import.Importer.ImportRecords, Import.Importer.ImportOneFile and Import.Importer.ImportAll count lines with the corrected counter (`Import.ImportSteps`). As written, a Revolut record with an empty balance does not advance the counter (src/commands/import.rs:238-242), so every later error names a line one lower (`Import.EmptyBalanceShiftsLinesAsWritten`). Without such records the two agree (`Import.AsWrittenAgreesWithoutEmptyBalance`).
- Import.Import and Import.ImportCommand use the corrected line counter and the corrected date reader, as the members above do.
- Store.State assumes undo step ids are never reused (`nextStepId`), as AUTOINCREMENT on `undo_steps.id` gives; the schema is not part of this model. `undo_last_step` deletes its step while foreign keys are off (src/database/sqlite_impl.rs:288, 302-306), so the undone step's statements, and those its replay captured, stay behind. If `INSERT INTO undo_steps VALUES(NULL, ?)` (src/database/sqlite_impl.rs:273) reused MAX(id)+1, those statements would join the next step. The model does not capture that.
- Migrations and the undo tables are modelled for one connection; concurrent access to the database file is not modelled.

## Findings

| source | as written | input that shows it | evidently intended | confidence | as-written member | corrected member |
|---|---|---|---|---|---|---|
| src/commands/import.rs:238-242 | a Revolut record with an empty balance is passed over with `continue` before `line += 1`, so every later error names a line one too low | a file whose record on line 2 has an empty balance and whose record on line 3 fails: the error says line 2 | the counter advances for every record, as on every other path that passes a record over | not executed | Import.EmptyBalanceShiftsLinesAsWritten | Import.FailureCarriesLine (with Import.AsWrittenAgreesWithoutEmptyBalance) |
| src/database/sqlite_impl.rs:443-455 | dates are written as "Inf" and "-Inf" for the extreme dates but read back only as `%Y-%m-%d` | a tag rule whose lower bound is the open ':' (the minimum date) is stored with "-Inf" and cannot be read back, so listing the rules fails | the reader accepts what the writer writes | not executed | Values.OpenLowerBoundRuleUnreadableAsWritten | Values.DateFrom (with Values.DateRoundTrip and Values.TagRuleRoundTrip) |
| src/output/table.rs:95-98 | `(termwidth - 1) / n_columns - 1` is computed in `usize` before the "Not enough space" guard, so it underflows and panics when there are at least as many columns as the terminal is wide | 16 columns on the 16-column terminal of the tests: the subtraction underflows instead of giving the error | every terminal too narrow for the columns gets the "Not enough space to render the table." error | not executed | OutputTable.NarrowTerminalUnderflows | OutputTable.MaxColumnWidthGuard (with OutputTable.GuardAgrees) |
