# Verified model of the factory warehouse backend

This project models the parts of the backend whose failures lose data, goods, pay or money, and proves what each of
them keeps. Functions and lemmas stand for what the code computes; classes with methods stand for the services that
change state, each method tied to a function of the state before it.

`dafny verify dfyconfig.toml` checks everything.

## The pieces

**Snapshot and restore of one factory.** `ModelGraph` sorts the models so that parents come first. `Snapshot` pages
every table by cursor and encodes it (`SnapshotCodec`, `Base64`, `CanonicalJson`, which prints the text that is hashed;
`JsonText` is a reader of JSON written from RFC 8259 that knows nothing of the printer). `Database` is a set of tables whose
statements enforce foreign keys, cascades included; `Restore` gives the two strategies as functions of a database and
a file. `RestoreClearing` says what the delete phase does to any database, `RestoreInserts`, `RestoreReplace` and
`RestoreMerge` what the writes do, `RestoreIntegrity` that no key dangles in between, `RestoreFailures` holds inputs
that fail, and `RestoreService` the loops over a transaction and the service around them.

**Batches.** `BatchLedger` holds the three stock ledgers and their transactions, `BatchRuns` what holds over every
interleaving of them, `Fefo` the allocator, `ExpirySweep` the rules and the nightly sweep, `BatchService` the methods
that update the rows.

**Attendance.** `PunchSweep` compares the punch sweep with the minutes in which somebody really was there,
`MissingMinutes` treats lateness, grace, leave and the two engines that charge missing time, `PunchGenerator` the
script that turns monthly totals back into punches.

**Money.** `ExchangeRates` is the archive of daily rates and the documents priced from it, `ExchangeRaces` the same
with every await a step of its own; `Accounting` posts journal
entries and `AccountingReports` draws the trial balance and the statements from them.

**Backup jobs.** `BackupStorage` writes, lists and prunes a factory's files; `BackupProtocol` interleaves the jobs of
all factories at every `await`, restarts included; `BackupService` is the service, one method per stretch of code.

**Leaves.** `LeaveCleanup` removes overlapping leaves.

## Where the code does less than it says

Each of these is a lemma with an input the code can receive, an exact condition, or both.

- A Json cell shaped exactly `{$bytes: "..."}` does not survive export and restore (`SnapshotCodec.CellRoundTrip`).
- Inserts are chunked by 500, so a row whose parent in the same table is in a later chunk makes the restore fail
  although both are in the file (`RestoreInserts.ReplaceInsert`; 501 accounts in `RestoreFailures.LateParentStopsTheInsert`).
- Clearing deletes more than the file's models when rows outside them hang on cleared rows by a cascading key
  (`RestoreClearing.OtherRowsSurviveExactlyWhenIsolated`; a bus and its attendance in `RestoreFailures.AttendanceIsLost`);
  the comment at backend-nest/src/backup/restore.service.ts:268-270 says only covered models are touched.
- The model graph is transcribed from the schema and does not know the key from stock movements to products that only a
  migration adds (backend-nest/prisma/migrations/20260905230000_stock_movement_referential_integrity/migration.sql:21-26).
  It sorts movements before products, so the snapshot of a factory with a movement of a product can be put back by no
  `replace`, and by no `merge` that has to create the two (`RestoreReplace.UndeclaredKeyStopsTheReplace`,
  `RestoreMerge.UndeclaredKeyStopsTheMerge`, `RestoreClearing.RestrictedOutOfTurn`; one product and one movement in
  `RestoreFailures.MovementStopsTheClearing`, `RestoreFailures.MovementStopsTheReplace` and
  `RestoreFailures.MovementStopsTheMerge`).
- A merge silently skips a row whose id belongs to another factory (`RestoreMerge.MergedRowsArriveExactlyWhen`,
  `RestoreFailures.TakenIdIsSkipped`).
- A release of more than the location holds is clamped there but not on the batch (`BatchRuns.ReleaseExactlyWhenHeld`).
- A batch that sold out stays off sale when it is topped up (`BatchRuns.SoldOutBatchStaysHidden`).
- Two overlapping receipts of one batch value the first one's units at the other's blend
  (`BatchRuns.OverlappingReceiptLosesAPrice`).
- The expiry sweep writes statuses decided on an earlier read: goods rejected in between can come back on sale
  (`ExpirySweep.StatusInBetweenSurvivesExactlyWhen`, `ExpirySweep.RejectedGoodsComeBack`).
- A receipt writes back the status it read: a batch the sweep took off sale in between is on sale again, stale
  (`BatchRuns.StatusSurvivesReceiptExactlyWhen`, `BatchRuns.StaleReceiptUndoesTheSweep`, `BatchRuns.ExpiredGoodsComeBack`).
- A freeze checks reservations and writes later: units reserved in between are frozen too
  (`BatchRuns.LateStatusIsHarmlessExactlyWhen`, `BatchRuns.ReservedMeanwhileGoesOffSale`).
- A night shift's IN after midnight is read as the evening before (`PunchSweep.NightReturnIsOverPaid`).
- Morning leave is taken off lateness twice (`MissingMinutes.MorningLeaveHidesLateness`).
- Seven hours of generated overtime end at midnight and read as no work at all (`PunchGenerator.OvertimeToMidnightIsLost`).
- A rate can be rewritten under a document by a stale quote, a late update or a late removal
  (`ExchangeRaces.StaleQuoteRewrites`, `ExchangeRaces.LateUpdateRewrites`, `ExchangeRaces.LateRemovalRewrites`), and
  production cost records are not counted at all (`ExchangeRates.CostRecordStandsExactlyWhen`).
- A journal entry is checked as sent and stored rounded to cents: an accepted entry with two or more sub-cent amounts
  may be stored unbalanced (`Accounting.GuardSufficesExactlyUpToOneFraction`).
- Statements leave inactive accounts out but their lines stay in the ledger (`AccountingReports.BooksAgreeExactlyWhen`,
  `AccountingReports.DeactivatedAccountBreaksTheBooks`), and the balance sheet's flag asks for an equation that holds
  only if nothing was earned (`AccountingReports.BooksAgreeWhileAllAreActive`).
- Two backup requests that both look before either registers leave a job that never runs and shuts its factory out of
  backups until it is forgotten or the process restarts (`BackupProtocol.RacingCallsLeaveALoser`,
  `BackupProtocol.LoserShutsItsFactoryOut`).

## Model

| member | source | states |
|---|---|---|
| ModelGraph.BuildEdges | backend-nest/src/backup/snapshot.model-graph.ts:185-193 | for every declared model, exactly the targets that the table names for it, without itself and the global models |
| ModelGraph.PlaceAll | backend-nest/src/backup/snapshot.model-graph.ts:195-216 | the wave loop ends with the order, or with models that each wait for another of them or for a model that does not exist |
| ModelGraph.TopologicalOrder | backend-nest/src/backup/snapshot.model-graph.ts:184-219 | for every table: on success each declared model stands in the order once, behind every target the table names for it that is neither global nor itself; it fails if and only if such a target is declared nowhere or such targets run in a circle, and then names the blocked models |
| ModelGraph.OrderPutsParentsFirst | backend-nest/src/backup/snapshot.model-graph.ts:184-225 | the order is a permutation of the models with every parent before its children; reversed, children come first |
| ModelGraph.OrderIsByDepthThenName | backend-nest/src/backup/snapshot.model-graph.ts:195-216 | which of the possible orders it is: models by depth, and within a depth by name |
| ModelGraph.ReversedOrder | backend-nest/src/backup/snapshot.model-graph.ts:222-225 | any insert order, reversed, is a delete order |
| ModelGraph.FailsExactlyOnCycles | backend-nest/src/backup/snapshot.model-graph.ts:199-214 | the sort fails if and only if a target is not a model or references run in a circle |
| ModelGraph.ForwardOrderRulesOutCycles | backend-nest/src/backup/snapshot.model-graph.ts:178-184 | a graph that has any parents-first order has no circle and no dangling target |
| ModelGraph.OrderIgnoresDeclarationOrder | backend-nest/src/backup/snapshot.model-graph.ts:195-216 | neither the order of the table nor of a model's targets changes the result |
| CanonicalJson.CanonicalTextIsMeaning | backend-nest/src/backup/snapshot.codec.ts:83-93 | two JSON values get the same text if and only if they mean the same: equal up to the order of object keys and undefined members |
| CanonicalJson.CanonicalTextReadsAsMeant | backend-nest/src/backup/snapshot.codec.ts:83-93 | a reader of JSON written from RFC 8259 alone (literals, numbers of section 6, escapes of section 7, arrays, objects) reads the canonical text of every value as exactly what the value means |
| CanonicalJson.ReadsAsMeant | backend-nest/src/backup/snapshot.codec.ts:83-93 | so it does at every depth, with any text behind the value left unread |
| CanonicalJson.EscapeIsShortest | backend-nest/src/backup/snapshot.codec.ts:84 | of all texts that read as a given string, the one printed is the shortest, and the only one of its length |
| JsText.LessExactlyWhen | backend-nest/src/backup/snapshot.codec.ts:87-89 | the order of the keys: a proper prefix first, else the smaller code unit at the first difference |
| CanonicalJson.SameMeaningSameText | backend-nest/src/backup/snapshot.codec.ts:83-93 | reordering keys never changes the text, so never the checksum |
| CanonicalJson.ReadBack | backend-nest/src/backup/snapshot.codec.ts:83-93 | a value's text determines the value even with more text behind it: no two values can be confused at any depth |
| CanonicalJson.StringsAreDelimited | backend-nest/src/backup/snapshot.codec.ts:83-93 | an escaped string ends at its first bare quote, for all code units including lone surrogates (section 7 of RFC 8259) |
| Base64.DecodeUndoesEncode | backend-nest/src/backup/snapshot.codec.ts:30-67 | bytes written as base64 (section 4 of RFC 4648) and read back are the same bytes, for every length |
| Base64.TheAlphabet | backend-nest/src/backup/snapshot.codec.ts:33-34 | the letters are those of section 4 of RFC 4648 |
| Base64.ThreeAtATime | backend-nest/src/backup/snapshot.codec.ts:33-34 | bytes are written three at a time, each three on their own |
| Base64.KnownTexts | backend-nest/src/backup/snapshot.codec.ts:33-34 | the test vectors of section 10 for texts of none, one, two and three bytes |
| SnapshotCodec.CellRoundTrip | backend-nest/src/backup/snapshot.codec.ts:21-67 | a cell survives export and restore if and only if it is not Json shaped like encoded bytes |
| SnapshotCodec.EncodeRow | backend-nest/src/backup/snapshot.codec.ts:40-46 | the loop encodes every column once |
| SnapshotCodec.DecodeRow | backend-nest/src/backup/snapshot.codec.ts:69-75 | the loop decodes every column once |
| SnapshotCodec.RowRoundTrip | backend-nest/src/backup/snapshot.codec.ts:40-75 | a row survives if and only if none of its cells collides |
| SnapshotCodec.CellText | backend-nest/src/backup/snapshot.codec.ts:30-38 | what the file says of each cell, read by the independent reader: bytes as an object with the one member `$bytes` holding their base64, dates, decimals and big integers as strings, undefined as null, plain values as they are |
| Snapshot.FindPage | backend-nest/src/backup/snapshot.service.ts:68-76 | a page is the next rows in id order after the cursor |
| Snapshot.ReadModel | backend-nest/src/backup/snapshot.service.ts:62-90 | the paging loop reads every row of the scope exactly once in id order, whatever the size of the table |
| Snapshot.CreateSnapshot | backend-nest/src/backup/snapshot.service.ts:92-133 | the file holds every model's rows and the count of each |
| Snapshot.SnapshotHolds | backend-nest/src/backup/snapshot.service.ts:62-133 | of every model of the order: exactly the rows in scope, each once, in id order, with factory, references and cells encoded; an unscoped snapshot holds the rows of every factory |
| Snapshot.FileIsClosed | backend-nest/src/backup/snapshot.service.ts:92-133 | the file of a factory whose references into the graph's models lead to its own rows along declared edges can be written parents first; references into roles, the factory itself or models outside the graph are free |
| Snapshot.FileRowIsOriginal | backend-nest/src/backup/snapshot.service.ts:62-133 | decoded, a row of the file is a row of the factory, identical if and only if no cell collides |
| Snapshot.SnapshotThenReplace | backend-nest/src/backup/restore.service.ts:259-352 | replacing any factory from its snapshot, in any later database: it goes through if and only if the clearing is not restricted and the file can be written into what clearing leaves; then the factory has exactly its rows back, cell by cell unless a cell collides, and of all other rows exactly what clearing leaves |
| Snapshot.ClosedFactoryComesBack | backend-nest/src/backup/restore.service.ts:268-325 | for a factory whose references follow the declared edges that comes down to: nothing restricts the clearing, no id is taken, everything it points at outside itself is there and every parent in the same table comes in time |
| Snapshot.SnapshotThenMerge | backend-nest/src/backup/restore.service.ts:326-346 | merging any factory's snapshot into any later database: it goes through if and only if every reference it writes is met in time; then every row the factory had is there, with its cells, factory and references if and only if no cell collides and the id is not another factory's, whose row stays; and no row outside the snapshot changes |
| Snapshot.ReplaceLeavesOtherFactoriesAlone | backend-nest/src/backup/restore.service.ts:268-296 | where no row of another factory points into this one, as composite foreign keys ensure, every row of every other factory comes through a successful replace unchanged |
| Database.DeleteKeepsIntegrity | backend-nest/src/backup/restore.service.ts:286-296 | no foreign key dangles after a delete statement, cascades and set-null included |
| Database.CreateKeepsIntegrity | backend-nest/src/backup/restore.service.ts:320-340 | no foreign key dangles after an insert statement |
| Database.UpdateKeepsIntegrity | backend-nest/src/backup/restore.service.ts:340-346 | no foreign key dangles after an update |
| RestoreInserts.SkippingInsert | backend-nest/src/backup/restore.service.ts:331-338 | with duplicates skipped it goes through if and only if no self-reference comes too late, and adds exactly the rows not there yet |
| RestoreInserts.ReplaceInsert | backend-nest/src/backup/restore.service.ts:320-325 | of any rows into any table, the chunked insert of `replace` goes through if and only if no id is repeated or taken, every reference into another table is met and no row's parent arrives in a later chunk; then the table and the count |
| RestoreInserts.MergeInsert | backend-nest/src/backup/restore.service.ts:331-338 | with duplicates skipped, into any table: it goes through if and only if, of the rows not there yet, every reference into another table is met and no parent comes too late; then exactly those rows are added |
| RestoreClearing.ClearingExactly | backend-nest/src/backup/restore.service.ts:286-296 | in any database and order the clearing goes through if and only if at no point a row that stays restricts what has gone; then the covered rows and all that cascades into them are gone, the others keep everything but references with SET NULL, and the counts are those of the statements |
| RestoreClearing.DoomedLeast | backend-nest/src/backup/restore.service.ts:293 | what one delete takes away is the least set that holds its rows and everything cascading into them |
| RestoreClearing.CoveredGoInTurn | backend-nest/src/backup/restore.service.ts:268-296 | children first, no covered row of a closed factory goes before the turn of its own model, and no row of a global model ever goes |
| RestoreClearing.OnlyOutsideRowsRestrict | backend-nest/src/backup/restore.service.ts:268-296 | a closed factory's own rows never stop its clearing: it fails if and only if a row outside restricts |
| RestoreClearing.OtherRowsSurviveExactlyWhenIsolated | backend-nest/src/backup/restore.service.ts:268-296 | clearing goes through and leaves every row outside the covered ones unchanged if and only if nothing restricts it and none of those rows points at a covered one |
| RestoreClearing.IsolatedMayClear | backend-nest/src/backup/restore.service.ts:268-296 | along declared edges, with no other row pointing in, nothing restricts the clearing |
| RestoreClearing.RestrictedOutOfTurn | backend-nest/src/backup/restore.service.ts:286-296 | a RESTRICT key of a covered row to a covered row of a model cleared earlier stops the clearing, unless the row goes along by a cascade |
| RestoreReplace.ReplaceSucceedsExactlyWhen | backend-nest/src/backup/restore.service.ts:279-325 | replace from any file, in any database and any order, succeeds if and only if nothing restricts the clearing and what it leaves takes the file: references into other models met in time, no id taken or repeated, no parent late; then its result and counts |
| RestoreReplace.ReplaceLeaves | backend-nest/src/backup/restore.service.ts:279-325 | afterwards: the file's rows with the file's values, and every other row exactly if clearing leaves it and as clearing leaves it |
| RestoreReplace.ReplaceWrites | backend-nest/src/backup/restore.service.ts:298-325 | writing any file in any order goes through if and only if every reference into another model is met by the table or an earlier model, no id is taken or repeated and no parent comes late |
| RestoreReplace.ClosedFileFits | backend-nest/src/backup/restore.service.ts:298-325 | for a file closed along declared edges that holds if and only if no id is taken, everything it points at outside itself is there and every parent of the same table comes in time |
| RestoreReplace.UndeclaredKeyStopsTheReplace | backend-nest/src/backup/restore.service.ts:298-325 | a file with a row that points at one of its rows in a model written later cannot be restored by replace into any database |
| RestoreReplace.UnknownModelsAreIgnored | backend-nest/src/backup/restore.service.ts:266 | models of the file that are not in the order change nothing |
| RestoreReplace.IdsFreeExactlyWhenClashFree | backend-nest/src/backup/restore.service.ts:322-323 | between factories kept apart, an id is taken after the clearing if and only if another factory has it |
| RestoreIntegrity.ReplaceNeverDangles | backend-nest/src/backup/restore.service.ts:286-325 | in any replace of any file, successful or not, no foreign key dangles after any delete or any chunk |
| RestoreIntegrity.MergeNeverDangles | backend-nest/src/backup/restore.service.ts:326-346 | in any merge of any file no foreign key dangles after any chunk or any update |
| RestoreIntegrity.UncheckedWritesDangleNothing | backend-nest/src/backup/restore.service.ts:298-325 | even with nothing checked by the database, a closed file written parents first leaves after every chunk no dangling reference into another table, and none at all when every model fits one chunk |
| RestoreIntegrity.UncheckedClearingDanglesNothing | backend-nest/src/backup/restore.service.ts:286-296 | even unchecked, clearing children first leaves nothing dangling after any delete when no row outside points in |
| RestoreIntegrity.UncheckedMergeDanglesNothing | backend-nest/src/backup/restore.service.ts:326-346 | even unchecked, a merge whose written references are met by the database or in order leaves no dangling reference into another table after any chunk or update, and none at all when every model fits one chunk |
| RestoreFailures.LateParentStopsTheInsert | backend-nest/src/backup/restore.service.ts:322-323 | 501 accounts, the parent of the first in the second chunk: closed, new, and refused |
| RestoreFailures.AttendanceIsLost | backend-nest/src/backup/restore.service.ts:268-296 | a restore of the buses succeeds and deletes the bus attendance |
| RestoreFailures.TakenIdIsSkipped | backend-nest/src/backup/restore.service.ts:328-337 | a merge whose row has another factory's id reports success, created 0, and leaves it out |
| RestoreFailures.MovementStopsTheClearing | backend-nest/src/backup/snapshot.model-graph.ts:36-39 | the sort puts stock movements before products, so a whole factory with one product and one movement of it cannot be cleared |
| RestoreFailures.MovementStopsTheReplace | backend-nest/prisma/migrations/20260905230000_stock_movement_referential_integrity/migration.sql:21-26 | nor can its snapshot be put back by a replace of any database |
| RestoreFailures.MovementStopsTheMerge | backend-nest/prisma/migrations/20260905230000_stock_movement_referential_integrity/migration.sql:21-26 | nor can that snapshot be merged into an empty database |
| RestoreFailures.UserWithARoleIsRestored | backend-nest/src/backup/restore.service.ts:259-352 | a user whose role lies outside the file is snapshot and put back |
| RestoreMerge.ExistingIds | backend-nest/src/backup/restore.service.ts:235-251 | an id counts as existing if and only if the row is there and belongs to the file's factory |
| RestoreMerge.UpdatesApply | backend-nest/src/backup/restore.service.ts:341-346 | the updates go through if and only if every reference they write is met, and then change exactly the rows named, each once |
| RestoreMerge.MergeOne | backend-nest/src/backup/restore.service.ts:326-346 | one model's merge, of any rows into any table, goes through if and only if the references of the rows it writes are met and no created parent comes too late; then every row of the model, and the counts |
| RestoreMerge.MergeSucceedsExactlyWhen | backend-nest/src/backup/restore.service.ts:326-346 | the whole merge of any file goes through if and only if every reference of a row it writes is met by the database, its own table or a model merged before, and no created parent comes too late; then every row |
| RestoreMerge.UndeclaredKeyStopsTheMerge | backend-nest/src/backup/restore.service.ts:326-346 | a reference to a row that is not there and whose model comes later stops the merge |
| RestoreMerge.MergedRowsArriveExactlyWhen | backend-nest/src/backup/restore.service.ts:326-346 | after any successful merge every row of the file is present with its values if and only if no id belongs to another factory |
| RestoreMerge.MergeTouchesNothingElse | backend-nest/src/backup/restore.service.ts:326-346 | whatever the file, repeated ids included: after a successful merge no row is gone, and rows that the file does not name are unchanged |
| RestoreMerge.MergeKeepsOtherCells | backend-nest/src/backup/restore.service.ts:340-346 | a row that is there keeps every cell the file does not give, and stays altogether if it is another factory's |
| RestoreMerge.MergeTwice | backend-nest/src/backup/restore.service.ts:326-346 | after any successful merge, merging the same file again creates nothing and changes nothing |
| RestoreService.Chunk | backend-nest/src/backup/restore.service.ts:222-226 | the loop cuts a list into its consecutive slices |
| RestoreService.ChunksCoverEverything | backend-nest/src/backup/restore.service.ts:222-226 | the slices put together are the list again, each with 1 to 500 rows |
| RestoreService.ExistingIds | backend-nest/src/backup/restore.service.ts:235-251 | looking ids up 500 at a time finds the same as looking them up at once |
| RestoreService.ClearModels | backend-nest/src/backup/restore.service.ts:286-296 | the loop's deletes and counts are those of the clearing phase |
| RestoreService.InsertAll | backend-nest/src/backup/restore.service.ts:320-340 | the chunk loop writes and counts what the chunked insert does, or fails with its error |
| RestoreService.WriteReplace | backend-nest/src/backup/restore.service.ts:298-325 | the loop over models writes and reports what the replace phase does |
| RestoreService.UpdateRows | backend-nest/src/backup/restore.service.ts:341-346 | the update loop leaves what all the updates leave |
| RestoreService.MergeRows | backend-nest/src/backup/restore.service.ts:326-346 | one model's rows are split, created and updated as in the merge |
| RestoreService.WriteMerge | backend-nest/src/backup/restore.service.ts:326-346 | the loop over models does the merge |
| RestoreService.ApplyInTransaction | backend-nest/src/backup/restore.service.ts:259-352 | strategy merge: the result, database or error of the merge, no row gone and none that the file does not name changed, and never `NoSingleFactory`; strategy replace: without a factory `NoSingleFactory` and nothing changed, else the result, database or error of the replace, after which the factory has of the covered models exactly the rows of the file |
| RestoreService.Store.Restore | backend-nest/src/backup/restore.service.ts:356-469 | refused as forbidden if and only if a replace is asked for by no super admin, as unconfirmed if and only if its words are missing on apply; a merge request only ever merges, a replace request only ever replaces, as in the row before; a dry run reports exactly the counts that an apply from the same state yields; everything but a successful apply leaves the database as it was |
| RestoreService.MergeOnlyMerges | backend-nest/src/backup/restore.service.ts:326-346 | after a successful merge of any file no row is gone and none that the file does not name is changed |
| RestoreService.ReplaceReplaces | backend-nest/src/backup/restore.service.ts:279-325 | after a successful replace the factory has, of the covered models, exactly the rows of the file, each as the file gives it |
| RestoreService.TotalsAdd | backend-nest/src/backup/restore.service.ts:471-480 | totals of two lists of results together are the sums of their totals, and of one result its own counts |
| RestoreService.InventoryCounts | backend-nest/src/backup/restore.service.ts:386-397 | what `validate` reports: exactly the models of the order that the file covers, each once, with its number of rows and nothing written |
| BatchLedger.MoveKeepsBalance | backend-nest/src/batches/batches.service.ts:422-780 | moving one location's level together with its batch row and stock cell keeps all three ledgers equal to the sums over locations |
| BatchRuns.ReceiveKeepsBalance | backend-nest/src/batches/batches.service.ts:422-533 | a receipt keeps the ledgers balanced, however old the row it had read |
| BatchRuns.ReceivedExactlyWhen | backend-nest/src/batches/batches.service.ts:427-455 | a receipt goes through if and only if its quantity is positive, the product known and, if batch-tracked, a number given and a date given or derivable |
| BatchRuns.WhatAReceiptBrings | backend-nest/src/batches/batches.service.ts:438-511 | an explicit date wins, else the date is the shelf life in whole days after production, else none; a date the batch has stays; a price given beats the product's and is the cost of a batch that had nothing; a batch keeps the time it first came |
| BatchRuns.ConsumeNeedsOnlyAvailability | backend-nest/src/batches/batches.service.ts:680-730 | taking units goes through if and only if the location still has them, the batch and stock never refuse it, and balance is kept |
| BatchRuns.ReserveKeepsBalance | backend-nest/src/batches/batches.service.ts:733-760 | a reservation goes through if and only if the units are available, and keeps balance; the next rows say what it moves |
| BatchRuns.ReserveMovesItsUnits | backend-nest/src/batches/batches.service.ts:740-758 | an accepted reservation moves exactly its units from available to reserved at its location and onto its batch, and touches no other level, batch or stock cell |
| BatchRuns.ReleaseMovesItsUnits | backend-nest/src/batches/batches.service.ts:762-780 | a release of what is held gives exactly its units back, and touches nothing else |
| BatchRuns.ConsumeMovesItsUnits | backend-nest/src/batches/batches.service.ts:685-728 | a consumption takes exactly its units from location, batch and stock cell; the batch becomes consumed if and only if nothing is left |
| BatchRuns.OrdersMoveTheirUnits | backend-nest/src/batches/batches.service.ts:680-780 | an order that goes through moves, at every location and on every batch, exactly the units its allocations name there |
| BatchRuns.ReservationsAreConserved | backend-nest/src/batches/batches.service.ts:680-780 | over every run, units reserved less units released are the units the batch holds reserved, and likewise at each location; units brought to a location less units taken there are what it has |
| BatchRuns.SoldOutExactlyWhenNothingIsLeft | backend-nest/src/batches/batches.service.ts:712-720 | after an order is taken out, a batch it took from is consumed if nothing is left and has its old status otherwise |
| BatchRuns.SalesEmptyBatches | backend-nest/src/batches/batches.service.ts:680-730 | in every run a sale leaves a batch consumed if and only if it took the last units or the batch counted as consumed before |
| BatchRuns.ReleaseExactlyWhenHeld | backend-nest/src/batches/batches.service.ts:762-780 | a release keeps the batch equal to its locations if and only if the location holds all it gives back |
| BatchRuns.SetStatusKeepsBalance | backend-nest/src/batches/batches.service.ts:383-411 | changing a status moves no units, however old the check |
| BatchRuns.LateStatusIsHarmlessExactlyWhen | backend-nest/src/batches/batches.service.ts:383-396 | an accepted status change leaves no reserved units off sale if and only if it would be accepted on the row as it is at the write; so always with nothing in between |
| BatchRuns.ReservedMeanwhileGoesOffSale | backend-nest/src/batches/batches.service.ts:383-396 | every reservation between the check and the write of a freeze is taken off sale with the batch |
| BatchRuns.RunsStayBalanced | backend-nest/src/batches/batches.service.ts:422-780 | after every step of every interleaving of receipts and status changes decided on rows read earlier, stale proposals, reservations, releases of what is held, sweeps and single stale sweep writes, the three ledgers agree |
| BatchRuns.NothingIsOversold | backend-nest/src/batches/batches.service.ts:680-780 | over every run each location has quantity = reserved + available with none negative, covered by its batch and its stock cell |
| BatchRuns.UnitsAreConserved | backend-nest/src/batches/batches.service.ts:422-730 | over every run units received are units consumed plus units on hand, per batch |
| BatchRuns.TopUpKeepsTheGate | backend-nest/src/batches/batches.service.ts:457-500 | what a receipt brings in can be drawn if and only if the given status, or else the one the batch had when it was read, allows it |
| BatchRuns.SoldOutBatchStaysHidden | backend-nest/src/batches/batches.service.ts:488 | a batch read as consumed and topped up without a status is off sale |
| BatchRuns.BlendIsBetween | backend-nest/src/batches/batches.service.ts:457-491 | the blended cost, rounded to four decimals, lies between the old cost and the new price |
| BatchRuns.ReceiptValueIsExactToRounding | backend-nest/src/batches/batches.service.ts:457-491 | a receipt changes the value of its batch from before by its own price times its quantity, but for half a ten-thousandth per unit |
| BatchRuns.OverlappingReceiptLosesAPrice | backend-nest/src/batches/batches.service.ts:462-491 | a receipt that read the batch before another one went through adds its units to that one's but values them at its own blend: exactly that much is lost, but for the rounding |
| BatchRuns.CostsStayWithinPrices | backend-nest/src/batches/batches.service.ts:457-491 | over every run, overlapping receipts included, each cost stays between the lowest and highest price received |
| BatchService.Ledger.ApplyStockChangeWithin | backend-nest/src/inventory/inventory.service.ts:439-509 | refused if and only if the change is zero or takes more than the cell has; otherwise this cell moves by exactly the change, keeps its reservations and shows the rest as available, and no other cell is touched |
| BatchService.Ledger.ReceiveIntoBatchWithin | backend-nest/src/batches/batches.service.ts:422-533 | whatever row the lookup had found, the three writes leave the books of that receipt, or nothing changes; balanced books stay balanced |
| BatchService.Ledger.ConsumeRow | backend-nest/src/batches/batches.service.ts:685-728 | the conditional update of one row, then batch and stock |
| BatchService.Ledger.ConsumeWithin | backend-nest/src/batches/batches.service.ts:680-730 | the loop takes every allocation or none; what it takes is what the allocations name, and balanced books stay balanced |
| BatchService.Ledger.ReserveWithin | backend-nest/src/batches/batches.service.ts:733-760 | the loop reserves every allocation or none; afterwards every batch and location holds exactly the named units more, and balanced books stay balanced |
| BatchService.Ledger.ReleaseWithin | backend-nest/src/batches/batches.service.ts:762-780 | the loop releases every allocation, clamping as the code does; what is held is given back in full, and then books stay balanced |
| BatchService.Ledger.ChangeStatus | backend-nest/src/batches/batches.service.ts:383-411 | accepted if and only if the batch was found, is there, and had no reserved units when found or is put on sale; then exactly its status changes and nothing else, so balanced books stay balanced, and with nothing in between no reserved units go off sale |
| Fefo.Allocate | backend-nest/src/batches/batches.service.ts:546-608 | the loop draws the greedy plan; the proposed allocations add up to what is drawn, and that plus the shortfall is what was asked |
| Fefo.DrawsWhatThereIs | backend-nest/src/batches/batches.service.ts:566-600 | the plan draws the smaller of the request and all that is sellable |
| Fefo.FefoDominates | backend-nest/src/batches/batches.service.ts:546-671 | for every date, no feasible plan of the same size draws more units expiring by then |
| Fefo.FefoDominatesWithinADate | backend-nest/src/batches/batches.service.ts:546-671 | nor, within goods of one date or of none, more of what was received by any time together with all that expires before |
| Fefo.FifoDominates | backend-nest/src/batches/batches.service.ts:546-671 | under FIFO, for every time, no feasible plan of the same size draws more units received by then |
| Fefo.PlanSaysWhatIsTaken | backend-nest/src/batches/batches.service.ts:566-580 | the proposal names each row that gives anything, with exactly what it gives, and no other |
| Fefo.PlanTotals | backend-nest/src/batches/batches.service.ts:566-595 | its quantities add up to what is drawn |
| Fefo.DatedStockGoesFirst | backend-nest/src/batches/batches.service.ts:625-671 | undated stock is touched only once all dated stock is drained |
| Fefo.NoStaleProposal | backend-nest/src/batches/batches.service.ts:546-671 | after a sweep no proposal names goods past their date or inside their block window |
| ExpirySweep.Find | backend-nest/src/batches/expiry.service.ts:90-104 | the first rule that meets the test, or none when no rule does |
| ExpirySweep.MostSpecificRuleGoverns | backend-nest/src/batches/expiry.service.ts:90-104 | the first active rule that names the sku governs, else the first that names no sku but the category, else the first that names neither, else 60, 30 and 0 days |
| ExpirySweep.CategoryRuleGoverns | backend-nest/src/batches/expiry.service.ts:256-260 | the category is the one the product is filed under |
| ExpirySweep.SweepDecides | backend-nest/src/batches/expiry.service.ts:256-330 | in milliseconds: expired once the date is past, else quarantined inside a block window, else marked inside the wider warning window, counting the whole of the last day; any other batch keeps its status |
| ExpirySweep.ScanKeepsBalance | backend-nest/src/batches/expiry.service.ts:231-340 | a sweep moves no units |
| ExpirySweep.NothingStaleIsDrawable | backend-nest/src/batches/expiry.service.ts:231-340 | right after a sweep that nothing interrupts, nothing that can be drawn is past its date or inside its governing rule's block window |
| BatchRuns.SweptBatchStaysSafe | backend-nest/src/batches/expiry.service.ts:237-340 | a sweep that reads a batch once and writes it later: from its write on the batch is off sale if stale until somebody decides on its status, as long as no receipt writes back what it read before that, which the next rows say exactly |
| BatchRuns.StepIsHarmlessExactlyWhen | backend-nest/src/batches/batches.service.ts:383-500 | one transaction leaves a batch that is off sale if stale so if and only if the status and date it is about to write do, a condition on the row just before it |
| BatchRuns.SafeExactlyWhileStepsAreHarmless | backend-nest/src/batches/batches.service.ts:383-500 | over every run it stays so if and only if every transaction is harmless at its moment |
| BatchRuns.StatusSurvivesReceiptExactlyWhen | backend-nest/src/batches/batches.service.ts:462-488 | a status set between a receipt's read and its write survives if and only if the receipt brings that status or, bringing none, had read it |
| BatchRuns.StaleReceiptUndoesTheSweep | backend-nest/src/batches/batches.service.ts:462-488 | every receipt without a status that read a stale batch before the sweep's write and writes after it puts the batch back on sale |
| BatchRuns.ExpiredGoodsComeBack | backend-nest/src/purchase-invoices/purchase-invoices.service.ts:476-491 | a run from empty books: received, expired by the sweep, back on sale by a late receipt |
| ExpirySweep.StatusInBetweenSurvivesExactlyWhen | backend-nest/src/batches/expiry.service.ts:256-339 | a status set between the sweep's read and its write survives if and only if the sweep had nothing to write or writes the same |
| ExpirySweep.RejectedGoodsComeBack | backend-nest/src/batches/expiry.service.ts:310-316 | a batch rejected in between is marked near expiry and can be sold again |
| ExpirySweep.OnlyStaleIsBlocked | backend-nest/src/batches/expiry.service.ts:231-340 | a sweep takes a sellable batch off sale if and only if it read it and it is stale |
| ExpirySweep.ScanTwice | backend-nest/src/batches/expiry.service.ts:231-340 | a second sweep at the same instant changes no status |
| BatchService.Ledger.SweepBatch | backend-nest/src/batches/expiry.service.ts:262-330 | expire, else quarantine, else mark: the status after; what is counted; and a notice if and only if the date is past or within the block window or the wider warning window |
| BatchService.Ledger.Scan | backend-nest/src/batches/expiry.service.ts:231-340 | the loop leaves every batch with the sweep's status; it answers how many batches became expired, how many became quarantined and for how many a notice was due; balanced books stay balanced |
| BatchService.SweepInStepsIsTheSweep | backend-nest/src/batches/expiry.service.ts:256-340 | writing the batches of a sweep one step after another, with nothing in between, is the sweep at once |
| PunchSweep.LocalIsMinuteModuloDay | backend-nest/src/attendance/attendance-aggregation.service.ts:83-89 | the double remainder is the local minute modulo a day, for negative offsets too |
| PunchSweep.CalculateWorkedMinutesSplit | backend-nest/src/attendance/attendance-aggregation.service.ts:154-225 | the loop and its fallback to the device's hours compute the two buckets |
| PunchSweep.DeviceHoursStandIn | backend-nest/src/attendance/attendance-aggregation.service.ts:206-219 | the device's hours count only if the punches give nothing in the shift: then the longest of them to the nearest minute, at most the shift |
| PunchSweep.LongestIsGreatest | backend-nest/src/attendance/attendance-aggregation.service.ts:208-212 | the loop over the device's hours finds the greatest of them |
| PunchSweep.SweepAgainstTruth | backend-nest/src/attendance/attendance-aggregation.service.ts:154-206 | scheduled minutes are never fewer than those really present, and equal if and only if every pair is read right; then overtime is exact too |
| PunchSweep.DayShiftIsExact | backend-nest/src/attendance/attendance-aggregation.service.ts:154-206 | day shifts: scheduled is the number of minutes of the window covered by some IN and OUT, overtime those after it, and scheduled never exceeds the shift |
| PunchSweep.NightShiftIsExactWhen | backend-nest/src/attendance/attendance-aggregation.service.ts:174-182 | night shifts: exact if and only if every pair begins before midnight and ends no earlier than the shift starts |
| PunchSweep.NightReturnIsOverPaid | backend-nest/src/attendance/attendance-aggregation.service.ts:174-182 | a return at 00:30 is paid 480 minutes for 330 |
| PunchSweep.NoMinuteIsLost | backend-nest/src/attendance/attendance-aggregation.service.ts:154-206 | before the shift, scheduled and overtime add up to all paired time |
| MissingMinutes.CalculateApprovedLeaveMinutes | backend-nest/src/attendance/attendance-aggregation.service.ts:275-285 | the reduce over approved leaves; the next row says what that is |
| MissingMinutes.LeaveIsMinutesOnLeave | backend-nest/src/attendance/attendance-aggregation.service.ts:275-285 | approved leave is the number of minutes of the day in some well-formed leave if and only if no minute lies in two; otherwise it is more |
| MissingMinutes.AggregateEmployeeDay | backend-nest/src/attendance/attendance-aggregation.service.ts:588-666 | the day's figures, or none without punches; missing is what delay, grace and leave leave of the gross, never below zero |
| MissingMinutes.LaterLeaveIsTakenOff | backend-nest/src/attendance/attendance-aggregation.service.ts:599-666 | leaves that begin after the start of the shift never raise what is missing: they lower it by exactly the smaller of their minutes and what was missing without them, and change nothing else |
| MissingMinutes.MissingIsTheUnfilledGap | backend-nest/src/attendance/attendance-aggregation.service.ts:650-666 | for any leaves: what is missing is exactly the gap that delay, grace and leave do not fill, and nothing once they fill it |
| MissingMinutes.EffectiveStartIsLatestEnd | backend-nest/src/attendance/attendance-aggregation.service.ts:606-614 | the start of the day is the latest end of a leave that begins by the start of the shift, if that is later |
| MissingMinutes.LatenessIsFirstInAfterStart | backend-nest/src/attendance/attendance-aggregation.service.ts:292-329 | on a day shift without device data lateness is by how much the first IN comes after the start, none beyond half a day |
| MissingMinutes.DeviceLatenessWins | backend-nest/src/attendance/attendance-aggregation.service.ts:299-306 | minutes late that the device reports are taken as they are |
| MissingMinutes.DelayAndGraceAreLateness | backend-nest/src/attendance/attendance-aggregation.service.ts:606-643 | delay and forgiven grace add up to lateness if and only if no morning leave moved the start or the grace covers it all |
| MissingMinutes.MorningLeaveHidesLateness | backend-nest/src/attendance/attendance-aggregation.service.ts:619-629 | two hours' leave and an hour late: no delay is charged |
| MissingMinutes.EveryMinuteChargedOnce | backend-nest/src/attendance/attendance-aggregation.service.ts:619-666 | without leave, delay, grace and missing add up to gross missing if and only if lateness is no more than gross |
| MissingMinutes.LatenessIsMissing | backend-nest/src/attendance/attendance-aggregation.service.ts:619-666 | so it is on every day shift whose first IN is no later than its end |
| MissingMinutes.NightLatenessIsMissing | backend-nest/src/attendance/attendance-aggregation.service.ts:619-666 | and on every night shift whose pairs all begin before midnight and end no earlier than the shift starts |
| MissingMinutes.ComputeMissingMinutesFromPunches | backend-nest/src/attendance/attendance.service.ts:1937-1976 | the second engine's sweep over the punches |
| MissingMinutes.EnginesAgree | backend-nest/src/attendance/attendance.service.ts:2181-2224 | without hourly leave and device hours both engines charge the same missing minutes for any punches |
| MissingMinutes.MorningLeaveIsTakenOffOnce | backend-nest/src/attendance/attendance.service.ts:2181-2212 | the second engine takes a morning leave off the lateness once |
| PunchGenerator.Spread | backend-nest/scripts/generate-kum-attendance.js:46-62 | every part is the even share plus what front-loading puts on it, each between 0 and the cap, and they sum to the smaller of the total and count times cap |
| PunchGenerator.PartsFall | backend-nest/scripts/generate-kum-attendance.js:46-62 | parts fall from the first to the last |
| PunchGenerator.FewestEarlyDays | backend-nest/scripts/generate-kum-attendance.js:123 | early leave takes the fewest days that hold it at 400 minutes a day, or all of them |
| PunchGenerator.DayRoundTrip | backend-nest/scripts/generate-kum-attendance.js:121-142 | for every day the script can encode, aggregating gives lateness, early leave and overtime back if and only if the day fits |
| PunchGenerator.OvertimeToMidnightIsLost | backend-nest/scripts/generate-kum-attendance.js:126 | 420 minutes of overtime are read as a day without work |
| PunchGenerator.GenerateMonth | backend-nest/scripts/generate-kum-attendance.js:113-142 | the loop encodes every day of the month with its share of each total |
| PunchGenerator.MonthFitsExactlyWhenTotalsDo | backend-nest/scripts/generate-kum-attendance.js:116-142 | all days of the month fit if and only if its first day and its first day of overtime do, which the totals alone decide |
| PunchGenerator.MonthAddsUp | backend-nest/scripts/generate-kum-attendance.js:113-142 | over any first days of a month that fits, the aggregator's sums are the encoded ones |
| PunchGenerator.MonthRoundTrip | backend-nest/scripts/generate-kum-attendance.js:46-142 | totals within the caps that fit come back from the aggregator exactly |
| ExchangeRates.StandingRateIsFoundAgain | backend-nest/src/accounting/exchange-rate.service.ts:288-326 | pricing a document again at its recorded day finds its recorded rate, exactly on that day |
| ExchangeRates.ResolvesExactlyWhen | backend-nest/src/accounting/exchange-rate.service.ts:288-326 | there is an answer if and only if the currency is the base or the pair has a rate on or before the day |
| ExchangeRates.BaseIsOne | backend-nest/src/accounting/exchange-rate.service.ts:288-295 | the base currency is worth one, exactly on the day |
| ExchangeRates.BaseIsToTheCent | backend-nest/src/accounting/exchange-rate.service.ts:345-398 | the base amount is amount times rate to half a cent, upward on a tie |
| ExchangeRates.RecordedRateIsClose | backend-nest/src/accounting/exchange-rate.service.ts:345-398 | a typed rate is recorded within half a ten-thousandth, a rate of the book as it is |
| ExchangeRates.BaseAgainstRecordedRate | backend-nest/src/accounting/exchange-rate.service.ts:345-398 | from amount times the recorded rate the base amount is at most half a cent away, and for a typed rate half a ten-thousandth of the amount more |
| ExchangeRates.TypedRateBeatsTheBook | backend-nest/src/accounting/exchange-rate.service.ts:372-390 | a typed rate is accepted if and only if it is positive and is used whatever the book holds; without one the rate is the book's |
| ExchangeRates.BaseConvertsToItself | backend-nest/src/accounting/exchange-rate.service.ts:345-362 | only two currencies are converted; an amount in the base currency stays itself to the cent, at rate one on its own day, whatever rate is typed |
| ExchangeRates.UsedExactlyWhen | backend-nest/src/accounting/exchange-rate.service.ts:258-274 | a rate is in use if and only if an invoice, journal line or stock movement records its currency on its very day |
| ExchangeRates.RecordedRatesAreNeverRewritten | backend-nest/src/accounting/exchange-rate.service.ts:50-66 | over every run of calls that do not overlap, a counted document priced from the book still finds the same rate at its recorded currency and day |
| ExchangeRates.LateWriteIsHarmlessExactlyWhen | backend-nest/src/accounting/exchange-rate.service.ts:188-224 | a write whose check is out of date keeps all recorded rates if and only if the rate is unchanged or no document came to rest on the row |
| ExchangeRates.CostRecordStandsExactlyWhen | backend-nest/src/accounting/exchange-rate.service.ts:258-274 | a cost record keeps its rate through an update if and only if the update is refused, changes nothing or concerns another row |
| ExchangeRaces.RatesStandExactlyWhileStepsAreHarmless | backend-nest/src/accounting/exchange-rate.service.ts:188-274 | with every await a step and any calls overlapping: all recorded rates stand in every state if and only if each late write was harmless at its moment, a condition on the book just before it |
| ExchangeRaces.StepIsHarmlessExactlyWhen | backend-nest/src/accounting/exchange-rate.service.ts:188-274 | one step leaves all recorded rates standing if and only if a stored quote is still in the book, an updated row keeps its rate or carries no document, a removed row carries none |
| ExchangeRaces.StoreIsHarmlessExactlyWhen | backend-nest/src/accounting/exchange-rate.service.ts:341-399 | storing a document priced earlier does no harm if and only if the quoted row is still there with its rate, or it is a cost record |
| ExchangeRaces.RemovalIsHarmlessExactlyWhen | backend-nest/src/accounting/exchange-rate.service.ts:226-238 | a late delete does no harm if and only if no counted document rests on the row |
| ExchangeRaces.CheckedNowIsHarmless | backend-nest/src/accounting/exchange-rate.service.ts:188-238 | a write that follows its check at once is harmless |
| ExchangeRaces.StaleQuoteRewrites | backend-nest/src/accounting/exchange-rate.service.ts:188-211 | priced, the row updated by an accepted call, then stored: the rate is nowhere in the book |
| ExchangeRaces.LateUpdateRewrites | backend-nest/src/accounting/exchange-rate.service.ts:199-211 | an update written after a document came to rest on its row rewrites that document's rate |
| ExchangeRaces.LateRemovalRewrites | backend-nest/src/accounting/exchange-rate.service.ts:230-237 | the same with a removal |
| ExchangeRates.AddChangesExactlyUntilTheNext | backend-nest/src/accounting/exchange-rate.service.ts:133-179 | a new rate changes what is resolved on exactly the days from its own to the pair's next published one, and there it is the answer |
| ExchangeRates.AcceptedRateMayStoreAsZero | backend-nest/src/accounting/exchange-rate.service.ts:142-163 | an accepted rate is stored as zero if and only if it is below half a ten-thousandth |
| ExchangeRates.RateService.AddRate | backend-nest/src/accounting/exchange-rate.service.ts:133-179 | accepted if and only if the pair is well formed, the rate positive and the day not taken; then exactly that row is new, within half a ten-thousandth of the rate given; the error otherwise, and recorded rates stand |
| ExchangeRates.RateService.CountUsages | backend-nest/src/accounting/exchange-rate.service.ts:258-274 | the number of counted documents that record the pair's currency on that day |
| ExchangeRates.RateService.UpdateRate | backend-nest/src/accounting/exchange-rate.service.ts:188-224 | refused for an unknown row, a rate that is not positive or a used one; otherwise only that row's rate changes |
| ExchangeRates.RateService.RemoveRate | backend-nest/src/accounting/exchange-rate.service.ts:226-252 | refused for an unknown or used row; otherwise only that row goes |
| ExchangeRates.RateService.ResolveRate | backend-nest/src/accounting/exchange-rate.service.ts:288-326 | one for the base currency; else none if and only if all rates of the pair are later, else the rate of the latest day not after the day asked, marked exact if and only if it is that day |
| Accounting.StoredDifference | backend-nest/src/accounting/accounting.service.ts:290-305 | rounding to cents moves an entry's difference by at most half a cent per amount that is not whole cents |
| Accounting.AcceptedEntryBound | backend-nest/src/accounting/accounting.service.ts:258-273 | an accepted entry with f sub-cent amounts is stored with its sides at most (1 + 5f)/10 cents apart, rounded down |
| Accounting.GuardSufficesExactlyUpToOneFraction | backend-nest/src/accounting/accounting.service.ts:258-305 | the balance check guarantees a balanced stored entry if and only if at most one amount is not whole cents |
| Accounting.PostAcceptsExactlyWhen | backend-nest/src/accounting/accounting.service.ts:258-308 | an entry is accepted if and only if its sides are within a thousandth, something is debited, no line is empty and every account exists and is active; then it is added on its day, line by line to the cent, and nothing else changes |
| Accounting.AccountsChangeExactlyWhen | backend-nest/src/accounting/accounting.service.ts:178-242 | when an account is opened, changed and removed, and that nothing but that account changes |
| Accounting.RangeHoldsItsBounds | backend-nest/src/accounting/accounting.service.ts:352-361 | entries of the first and of the last day of a range are counted, those of the days next to them are not; an open end counts everything on its side |
| Accounting.RangesAddUp | backend-nest/src/accounting/accounting.service.ts:352-361 | two ranges, the second beginning the day after the first ends, add up to the whole |
| Accounting.StepIsSound | backend-nest/src/accounting/accounting.service.ts:178-308 | every operation keeps all lines on existing accounts and account codes unique |
| Accounting.RangeStaysWithinDrift | backend-nest/src/accounting/accounting.service.ts:352-402 | over every run the two sides of any range of days differ by no more than its accepted entries drifted |
| Accounting.LedgerIsExactlyBalanced | backend-nest/src/accounting/accounting.service.ts:352-402 | amounts in whole cents keep every range of days exactly balanced |
| AccountingReports.StatementsCoverTheLedger | backend-nest/src/accounting/accounting.service.ts:404-485 | assets less liabilities, equity and net income are the ledger's difference less what inactive accounts hold |
| AccountingReports.BooksAgreeExactlyWhen | backend-nest/src/accounting/accounting.service.ts:404-485 | for the same days the statements agree if and only if the inactive accounts cancel out |
| AccountingReports.BooksAgreeWhileAllAreActive | backend-nest/src/accounting/accounting.service.ts:422-442 | with all accounts active they always agree, and the sheet's own equation holds if and only if net income is zero |
| AccountingReports.DeactivatedAccountBreaksTheBooks | backend-nest/src/accounting/accounting.service.ts:444-451 | a sale, then the sales account deactivated: assets of 1000 cents and nothing that explains them |
| AccountingReports.AccountingService.CreateJournalEntry | backend-nest/src/accounting/accounting.service.ts:258-308 | the ledger after the call, the error in the code's order, and how far the stored sides may be apart |
| AccountingReports.AccountingService.TrialBalance | backend-nest/src/accounting/accounting.service.ts:352-402 | one row per code with that code's sums, totals that are the ledger's own, and a flag that says exactly whether they are equal |
| AccountingReports.AccountingService.SumRows | backend-nest/src/accounting/accounting.service.ts:391-392 | summing the rows by code gives the sums over all lines |
| AccountingReports.AccountingService.BalanceByType | backend-nest/src/accounting/accounting.service.ts:444-485 | one row per active account of the kinds, with its own sums |
| AccountingReports.AccountingService.NetOf | backend-nest/src/accounting/accounting.service.ts:407-433 | the filter and reduce over one kind is the kind's net over the lines |
| AccountingReports.AccountingService.IncomeStatement | backend-nest/src/accounting/accounting.service.ts:404-420 | revenue, expenses and their difference over the active accounts |
| AccountingReports.AccountingService.BalanceSheet | backend-nest/src/accounting/accounting.service.ts:422-442 | the three totals, and a flag true if and only if net income and any imbalance make up what inactive accounts hold |
| BackupStorage.ListDirectory | backend-nest/src/backup/backup-storage.service.ts:78-106 | every file once, newest first |
| BackupStorage.NewestIsKept | backend-nest/src/backup/backup-storage.service.ts:133-140 | whatever the cutoff, the file written last is never a candidate |
| BackupStorage.FileSurvivesExactlyWhen | backend-nest/src/backup/backup-storage.service.ts:133-160 | a file is left if and only if it is among the newest `keepMinimum`, recent enough or cannot be unlinked |
| BackupStorage.VerifiedFileSurvivesExactlyWhen | backend-nest/src/backup/backup-storage.service.ts:133-160 | a verified file is left if and only if one is among the newest kept, recent enough or cannot be unlinked |
| BackupStorage.Storage.Put | backend-nest/src/backup/backup-storage.service.ts:56-76 | the checksum is the buffer's; the file passes verification if and only if what reached the disk is not empty and has the same checksum |
| BackupStorage.Storage.Prune | backend-nest/src/backup/backup-storage.service.ts:133-160 | exactly the files that are neither among the newest kept, nor recent enough, nor locked go, the others are untouched, and the number answered is the number gone |
| BackupProtocol.OnlyTheOldestAreForgotten | backend-nest/src/backup/tenant-backup.service.ts:338-344 | a forgotten job started no later than any remembered one |
| BackupProtocol.FiftyAreRemembered | backend-nest/src/backup/tenant-backup.service.ts:338-344 | up to fifty jobs are all remembered in the order they came; of more, exactly fifty |
| BackupProtocol.FinishedRunForgets | backend-nest/src/backup/tenant-backup.service.ts:238-242 | the end of a run, however it ends, leaves at most fifty jobs listed, and all of up to fifty |
| BackupProtocol.JobsAreListedOnce | backend-nest/src/backup/tenant-backup.service.ts:153-243 | over every interleaving no job is listed twice |
| BackupProtocol.StepKeeps | backend-nest/src/backup/tenant-backup.service.ts:153-243 | every stretch of code, whatever its outcome, keeps one run per factory and loses no factory's verified file |
| BackupProtocol.AtMostOneBackupPerFactory | backend-nest/src/backup/tenant-backup.service.ts:182-243 | over every interleaving, whatever the clock shows, no factory has two backups under way, the running set names exactly the factories that have one, and a job that says done was verified |
| BackupProtocol.VerifiedOnceProtectedForever | backend-nest/src/backup/tenant-backup.service.ts:153-243 | once a backup of a factory has been verified its directory holds a file that verifies ever after, through pruning, failed runs and restarts |
| BackupProtocol.SteppedClockLosesEverything | backend-nest/src/backup/backup-storage.service.ts:133-160 | write times out of order let pruning keep a broken file and delete the one just verified |
| BackupProtocol.RacingCallsLeaveALoser | backend-nest/src/backup/tenant-backup.service.ts:153-184 | two calls that both look first leave a job queued that is never started |
| BackupProtocol.LoserShutsItsFactoryOut | backend-nest/src/backup/tenant-backup.service.ts:153-184 | while such a job is remembered, no run without a restart registers another backup of its factory |
| BackupService.TenantBackups.Enqueue | backend-nest/src/backup/tenant-backup.service.ts:153-161 | answers a job of the factory that is queued or running if and only if there is one, keeping the invariant and every factory's protection |
| BackupService.TenantBackups.Register | backend-nest/src/backup/tenant-backup.service.ts:163-188 | the new job runs if and only if its factory has no run, and is then its only run; the invariant and every factory's protection are kept |
| BackupService.TenantBackups.AfterWrite | backend-nest/src/backup/tenant-backup.service.ts:200-205 | what landed is in the directory even if the write threw, verifies if and only if it is not empty and has the buffer's checksum, and no other file of any factory is touched; under an ordered clock the invariant and every factory's protection are kept |
| BackupService.TenantBackups.AfterReadBack | backend-nest/src/backup/tenant-backup.service.ts:205-214 | the written file is in the directory, the job is done if and only if it was readable and verifies, and then the factory is protected; no protection is lost |
| BackupService.TenantBackups.AfterListing | backend-nest/src/backup/backup-storage.service.ts:133-140 | the candidates come from a newest-first listing and never include the run's own verified file; no protection is lost |
| BackupService.TenantBackups.AfterUnlink | backend-nest/src/backup/backup-storage.service.ts:143-154 | whatever was unlinked, the run's own file is still there, newest and verified, and the last candidate ends the run; no protection is lost |
| LeaveCleanup.FindOverlapping | backend-nest/src/admin/admin.controller.ts:108-131 | the nested loops leave the kept leaves pairwise disjoint and drop a leave only for an earlier kept one it overlaps |
| LeaveCleanup.SettledIsUnique | backend-nest/src/admin/admin.controller.ts:108-131 | only one choice of leaves meets that, so the greedy result is determined by the order alone |
| LeaveCleanup.RemainingAreDisjoint | backend-nest/src/admin/admin.controller.ts:105-142 | no two remaining leaves of one employee overlap |
| LeaveCleanup.DeletedOverlapsARemainingOne | backend-nest/src/admin/admin.controller.ts:105-142 | every deleted leave overlaps a remaining one of the same employee, so the kept set is maximal |
| LeaveCleanup.OverlapIsASharedDay | backend-nest/src/admin/admin.controller.ts:120 | two leaves that begin no later than they end overlap if and only if some calendar day lies in both |
| LeaveCleanup.NoDayIsTakenTwice | backend-nest/src/admin/admin.controller.ts:105-142 | no calendar day lies in two remaining leaves of one employee |
| LeaveCleanup.DeletedSharesADay | backend-nest/src/admin/admin.controller.ts:105-142 | every deleted leave shares a day with a remaining one of the same employee |
| LeaveCleanup.GroupByEmployee | backend-nest/src/admin/admin.controller.ts:93-99 | every employee's leaves in order, and every leave in its employee's list |
| LeaveCleanup.LeaveTable.CleanUp | backend-nest/src/admin/admin.controller.ts:80-153 | exactly the dropped ids of each employee go, and no other row changes |

## Left out

- Structure, tenant and schema validation of a restore file (backend-nest/src/backup/restore.service.ts:77-185): one flag says whether it passed; warnings, durations and messages are not modelled.
- The concrete table of model dependencies: the order theorems hold for every table.
- Unique constraints other than ids; compound foreign keys are references to row keys, and set-null clears one reference. A RESTRICT key stops a delete only for a row that stays; the order in which the database visits rows within one statement is not modelled.
- Rows older than a key that was added NOT VALID may dangle from the start; the lemmas on integrity are for databases in which nothing dangles to begin with.
- RestoreMerge.MergeSucceedsExactlyWhen: for files that repeat no id within a model, as no snapshot does; for `replace` a repeated id is part of the condition.
- Writes by others between the pages of a snapshot, which the code does not lock out.
- Parsing of an uploaded file: `JsonText` reads the compact form that is hashed, without white space between tokens; numbers are identified with their printed text, and SHA-256 is any function.
- Base64 text that was not produced by the encoder.
- Daylight saving: a derived expiry date lies whole days of 24 hours after production, as on a server whose clock keeps UTC.
- Batch ids: a batch is named by its sku and batch number, which the database keeps unique.
- BatchRuns.RunsStayBalanced: for releases of what the location holds; `ReleaseExactlyWhenHeld` shows that any other release breaks the balance.
- Notifications of the expiry sweep beyond their count; one sweep reads one clock time for all its batches.
- Floating point: amounts, rates and costs are exact, rounded where the columns round; `Number.EPSILON` in the rounding of conversions is left out.
- Attendance: sorting of punches (the query already orders them), shift pairs from the device, manual entries, writing of the daily logs, which refreshes overtime rows only when overtime is positive.
- MissingMinutes.EnginesAgree: for a day the second engine charges at all; it skips Fridays and public holidays (backend-nest/src/attendance/attendance.service.ts:2184-2186).
- The generator's absences and work days, and its output files.
- Trimming and upper-casing of currency codes and pairs, and the audit trail of rates.
- ExchangeRates.RecordedRatesAreNeverRewritten: for the four kinds of document the usage count looks at and for calls that do not overlap; `ExchangeRaces` gives the exact condition for overlapping calls and `ExchangeRates.CostRecordStandsExactlyWhen` that for cost records.
- Amounts too large for their columns, entry numbers, and the posting of warehouse documents to the ledger.
- BackupProtocol.VerifiedOnceProtectedForever: for new file names and increasing write times, on one server process, with no other program changing the directory; `SteppedClockLosesEverything` shows that the times matter.
- Liveness of backup jobs, the durable run record, and a write that another reader sees half done.
- Controllers, guards, caches, notifications, webhooks, import and export of spreadsheets: plumbing around foreign calls.
