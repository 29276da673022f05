# Proofs about a reading platform

This Dafny project models the stateful core of a reading platform (a NestJS API over Postgres and a web client) and
proves what that core promises: replay-safe offline reader operations, content versions of converted books and their
offline download, the conversion queue, refresh-token families, reading streaks and their cache, keyset paging, and the
client's chat store. A table is a map with unique keys, a transaction is one atomic step or a read step and a commit
step, `updateMany` with a revision in its `where` clause is a guarded write, and a unique-key error aborts the whole
transaction. The clock, access decisions and rendered pages are parameters; fresh ids come from counters.

`dafny verify dfyconfig.toml` checks everything.

## Files

| file | what it holds |
|---|---|
| `Prelude.dfy`, `Text.dfy`, `Keyset.dfy` | options; decimal printing, padding and dictionary order; keyset windows over a strict total order |
| `ReaderModel.dfy` | tables, operations and replies of the offline reader; every handler takes the row as it was read and the tables as they are when it writes, so one definition gives both the atomic transaction and the race |
| `ReaderService.dfy` | the same handlers as methods that update tables in place, each equal to its function |
| `ReaderInvariants.dfy`, `ReaderDecisions.dfy`, `ReaderMeaning.dfy`, `ReaderSnapshot.dfy` | what every commit keeps, when each operation is applied and which rows it changes, what each reply means, what a snapshot shows |
| `ReaderRaces.dfy`, `ReaderLedger.dfy`, `ReaderRuns.dfy` | runs of interleaved read, commit and replay steps |
| `ContentModel.dfy`, `ContentVersions.dfy`, `ConversionRunner.dfy` | versions, storage keys, interleaved conversions with crashes, and the runner as a method |
| `BookDownload.dfy`, `BackfillSweep.dfy` | manifest, asset ids, integrity-checked reads, and the sweep that promotes old versions |
| `ConversionQueue.dfy`, `ConversionMarks.dfy` | the job queue under several workers, and what it leaves in the conversion columns of a book |
| `RefreshFamilies.dfy` | tokens, rotations, revocations and their interleavings |
| `DayKeys.dfy`, `Streaks.dfy`, `ActivityRollup.dfy`, `ActivityRaces.dfy` | calendar days as strings, streaks, the activity tables with their cache, and overlapping activity transactions |
| `ChatPaging.dfy`, `ChatCursors.dfy`, `ChatStore.dfy`, `ChatActions.dfy`, `ChatEchoes.dfy` | message pages, cursors as text, the client store, what each of its actions does, and the echo of a message whose conversation is not known yet |

## Where the code and its own comments differ

The model follows the code, and each difference is a lemma.

- `reader-mutations.service.ts:608-612` says an update never conflicts without a copy. That holds for conflict copies
  (`RetargetKeepsEdit`), but a highlight update that loses its race replies CONFLICT with no copy and drops the edit
  (`:572`, `:678`). `UpdateKeepsEditUnlessRaced` gives the exact condition, `RacedUpdateWitness` a run that does it.
- An add that reuses a client id for another book is APPLIED although that book gets no row (`:433-444`), and an add that
  read its row before somebody deleted it is APPLIED and names a deleted row. `AppliedAddNamesRow` and
  `AppliedCreateNamesRow` give the exact conditions for bookmarks and highlights, at both grains; `ReusedClientIdWitness`
  and `StaleAddWitness` show the two cases.
- `conversion.runner.ts:63-65` says counter and projection stay in lockstep. They do at every point of a run exactly when
  no worker of the book crashes and no reservation is made while another is in flight
  (`InStepExactlyWhenUndisturbed`). `CrashLeavesCounterAhead` shows a crash, and `OverlapLeavesVersionUnshown` two
  overlapping conversions without any crash after which the committed version at the counter is not the one shown. The
  next finished conversion that holds the newest reservation makes the two meet again (`CommitRestoresAgreement`).
- `conversion-job.service.ts:54-56` says a terminal job stores three attempts. Once a stale lock is taken over it can
  store four (`StaleReclaimBreaksTheCap`). The cap holds at every point of a run exactly when no worker settles a job that
  is FAILED by then (`CapHoldsExactly`), and claims and attempts stay in step exactly while no lock is taken over
  (`CountsBreakExactlyByTakeOver`).
- `fail` marks the book whatever its columns say (`conversion-job.service.ts:62-65`), so a third failure turns a book that
  is ready to read into one that every reader is refused (`books.service.ts:230`) although its conversion is shown. That
  happens exactly at a third failure with a publication before it and no upload, no retry and no other third failure in
  between (`ReadersBlockedExactly`). Completing a published job can fail (`CompletingFailsBlocksReaders`), and so can an
  older job of the book (`OlderJobBlocksReaders`); with one open job for each book, no failure after publishing and no
  lock taken over it never happens (`CarefulRunsNeverBlock`). A retry wipes the mark while its FAILED job stays
  (`RetryWipesTheMark`).
- `book-download.service.ts:307-312` marks a version eligible when all its assets exist, while a manifest also wants them
  non-empty (`:228-238`). A promoted version downloads exactly when no stored frame or text layer is empty
  (`PromotedVersionsDownloadExactly`).
- `progress.service.ts:225-229` serves the cached longest streak while its last day is the user's latest. Overlapping
  transactions can leave days out of the cache (`MidnightRace`), exactly when another one commits an unseen day between a
  transaction's computing the streaks and its finishing (`CacheIsCompleteExactly`). The guard then serves the cached
  value, which is wrong exactly when a day left out lies in a longer run (`GuardServesStaleExactly`, `ServedAfterRun`,
  `MidnightRaceServesStale`).
- `auth.service.ts:177-181` says reuse is detected when two requests rotate one token. The second is turned away, but
  nothing is revoked and the first one's token stays live (`SecondRotationLoses`).
- `day-key.util.ts:15-21`: the bounds of year 9999 contain no key, because the end key has five digits
  (`YearBoundsAreTheYear`); keys of years before 1000 are not padded (`ToDayKeyIsIso`).
- The store's list refetch after the echo of a message in an unknown conversation can answer without that message. Echo
  and reply then end in different states depending on their order (`RefetchBetweenWitness`); `EchoAndReplyConfluent` and
  `UnknownEchoConfluentExactly` say exactly when the order makes no difference.
- A failed optimistic send leaves its text as the last message of a known conversation until, and only until, a fetched
  list, a fetched conversation, a reset or another message replaces it (`FailedSendStillShows`).

## Model

| member | source | states |
|---|---|---|
| ReaderRaces.ExactlyOnce | apps/api/src/books/reader-mutations.service.ts:145-156 | After every interleaving of read, commit and replay steps of any number of clients, each (subject, operation id) has at most one logged commit and that one receipt, the number of steps that changed a table equals the number of logged commits, and every APPLIED or CONFLICT answer is the stored result of a receipt with the caller's own payload |
| ReaderRaces.SameKeySameAnswer | apps/api/src/books/reader-mutations.service.ts:296-306 | Two settled calls with one key and one payload have the same answer, and a call whose payload differs from the stored one is never answered APPLIED or CONFLICT |
| ReaderRuns.LoserAdoptsWinner | apps/api/src/books/reader-mutations.service.ts:145-156 | Over every run: a caller whose key got a receipt between its check and its commit leaves every table as it was, and through any further steps it is still looking, answered with the winner's receipt, or refused for want of its row; its next look answers |
| ReaderRuns.ReplayAdoptsReceipt | apps/api/src/books/reader-mutations.service.ts:268-286 | Once the key has a receipt, a caller that is looking can only be answered with that receipt, and its next look answers, whatever happens in between |
| ReaderRuns.OnlyEntitledCommits | apps/api/src/books/reader-mutations.service.ts:239-255 | After every interleaving, each committed operation was sent by a caller that had passed the receipt check and then been found to have access to the book, with the version it names supported and with the page count its write used |
| ReaderRaces.RetryLaterMeansNoReceipt | apps/api/src/books/reader-mutations.service.ts:279-294 | Over every run a caller looks at most five times, and is told to retry later exactly when it looked five times and no receipt existed at any of them |
| ReaderRaces.RunOk | apps/api/src/books/reader-mutations.service.ts:145-306 | The table invariant, every client's claim to its answer and the log's agreement with the receipts hold after every run |
| ReaderService.ReaderStore.Execute | apps/api/src/books/reader-mutations.service.ts:229-266 | In place: under a known key the stored result, or nothing for another payload; without access ACCESS_DENIED of the book; with access and a version that is not supported INCOMPATIBLE_VERSION with exactly the requested and the supported ones; none of these writes; otherwise all of the handler's rows, its copy and its receipt are written, or none of them when a unique key is broken |
| ReaderService.ReaderStore.ApplyOperation | apps/api/src/books/reader-mutations.service.ts:145-156 | The entry point in place, with the same cases decided by the receipts, the access and the supported versions alone; uninterrupted, its answer and its tables are those of the interleaved model's run of one caller |
| ReaderService.ReplayAfterConflict | apps/api/src/books/reader-mutations.service.ts:273-294 | The retry loop answers from the first of at most five readings that shows a receipt, and reports a retryable conflict exactly when none does |
| ReaderService.ReaderStore.ApplyProgress | apps/api/src/books/reader-mutations.service.ts:355-398 | The in-place progress write is the specified step: same reply, same tables, nothing written on conflict |
| ReaderService.ReaderStore.ApplyBookmarkAdd | apps/api/src/books/reader-mutations.service.ts:427-464 | The in-place add is the specified step, including the refusal to write over a tombstoned identity |
| ReaderService.ReaderStore.ApplyBookmarkRemove | apps/api/src/books/reader-mutations.service.ts:466-494 | The in-place removal is the specified step with its tombstone |
| ReaderService.ReaderStore.ApplyAnnotationCreate | apps/api/src/books/reader-mutations.service.ts:498-533 | The in-place creation is the specified step |
| ReaderService.ReaderStore.ApplyAnnotationUpdate | apps/api/src/books/reader-mutations.service.ts:535-575 | The in-place update is the specified step with its conflict copy |
| ReaderService.ReaderStore.UpdateConflictCopy | apps/api/src/books/reader-mutations.service.ts:577-620 | The in-place retarget is the specified step, and a lost race still makes a copy |
| ReaderService.ReaderStore.ApplyAnnotationDelete | apps/api/src/books/reader-mutations.service.ts:622-661 | The in-place deletion is the specified step with its tombstone or its copy of the newer edit |
| ReaderInvariants.CommitSafe | apps/api/src/books/reader-mutations.service.ts:229-266 | Any commit on any later state than the one it read keeps unique keys, recorded deletions and receipts consistent, and moves every row only forward |
| ReaderInvariants.HandleSafe | apps/api/src/books/reader-mutations.service.ts:328-351 | Every handler, however stale its read, keeps the invariant and moves rows only forward |
| ReaderDecisions.ReceiptIsKept | apps/api/src/books/reader-mutations.service.ts:258-263 | An applied or conflicting operation stores, under its unused key, exactly what was sent and what was answered; any other commit leaves every table as it was |
| ReaderDecisions.ProgressDecided | apps/api/src/books/reader-mutations.service.ts:355-414 | At both grains: a progress write is APPLIED exactly when its base is the revision (0 without a row) as read and as it stands at the write, and then the one row it leaves is told field by field, its completion time empty below the page count and without one; otherwise it is a CONFLICT that changes nothing; it is aborted exactly when two first writes meet |
| ReaderDecisions.ProgressDecidedAlone | apps/api/src/books/reader-mutations.service.ts:386-398 | Alone: APPLIED if and only if the base is the current revision, CONFLICT otherwise |
| ReaderDecisions.UpdateDecided | apps/api/src/books/reader-mutations.service.ts:535-575 | At both grains: refused exactly when the highlight was not there, APPLIED exactly when it was live at the base as read and still is at the write, and then only its fields and revision change; in a CONFLICT a copy with the edit and its reason is added exactly when it was not live at the base as read |
| ReaderDecisions.RetargetDecided | apps/api/src/books/reader-mutations.service.ts:577-620 | The same for an update of a conflict copy, which always keeps its edit |
| ReaderDecisions.RemovalDecided | apps/api/src/books/reader-mutations.service.ts:466-494 | At both grains: a removal is refused exactly when the bookmark was not there, APPLIED exactly when it was deleted already or live at the base as read and as written, and then the row and its tombstone are all that changes; otherwise a CONFLICT that changes nothing |
| ReaderDecisions.DeletionDecided | apps/api/src/books/reader-mutations.service.ts:622-661 | The same for highlights, where a stale deletion adds a copy of the row as it was read |
| ReaderDecisions.AddDecided | apps/api/src/books/reader-mutations.service.ts:427-464 | At both grains, by the rows that carry the client id: a new row exactly when there was and is none, the row found exactly when it is live and as sent, aborted exactly when another add came between, a CONFLICT otherwise |
| ReaderDecisions.CreateDecided | apps/api/src/books/reader-mutations.service.ts:498-533 | The same for highlights |
| ReaderMeaning.ConflictChangesNoRow | apps/api/src/books/reader-mutations.service.ts:711-752 | A CONFLICT, even after a race, changes no existing row and adds exactly the conflict copy it names, if it names one |
| ReaderMeaning.UpdateKeepsEditUnlessRaced | apps/api/src/books/reader-mutations.service.ts:535-575 | A receipted highlight update leaves its exact fields in the named row or in a new conflict copy if and only if it did not lose the race between its read and its guarded write; a loser changes nothing |
| ReaderMeaning.RacedUpdateWitness | apps/api/src/books/reader-mutations.service.ts:561-572 | Two updates on one base of which the second gets CONFLICT without a copy and its text is in no row and no copy |
| ReaderMeaning.UpdateKeepsEdit | apps/api/src/books/reader-mutations.service.ts:535-575 | At transaction grain no accepted highlight update loses its edit |
| ReaderMeaning.RetargetKeepsEdit | apps/api/src/books/reader-mutations.service.ts:577-620 | An update of a conflict copy keeps its edit at both grains, and is applied exactly when the copy was and still is at the base revision |
| ReaderMeaning.RemoveBookmarkMeaning | apps/api/src/books/reader-mutations.service.ts:466-494 | An applied removal leaves the bookmark deleted at the revision it reports with a tombstone at that revision |
| ReaderMeaning.DeleteAnnotationMeaning | apps/api/src/books/reader-mutations.service.ts:622-661 | The same for highlights |
| ReaderMeaning.DeleteDecidedByRow | apps/api/src/books/reader-mutations.service.ts:466-494 | Alone, a delete is refused, applied or in conflict exactly by the row's presence, deletion and revision; a stale delete keeps the newer edit and records it in a copy |
| ReaderMeaning.DeniedExactlyWhenAbsent | apps/api/src/books/reader-mutations.service.ts:474-477 | ACCESS_DENIED from a handler means exactly that the named row was not there for this account and book, and nothing changes |
| ReaderMeaning.NoResurrection | apps/api/src/books/reader-mutations.service.ts:433-448 | A deleted bookmark or highlight stays deleted at its revision with its tombstone whatever commits next, also an operation that read before the delete, and its client id never names a second row |
| ReaderRuns.NoResurrectionOverRuns | apps/api/src/books/reader-mutations.service.ts:504-516 | The same from any point of any run to any later point |
| ReaderMeaning.AddBookmarkMeaning | apps/api/src/books/reader-mutations.service.ts:427-464 | Alone, an add inserts the one new row, or leaves everything and replies by whether the row under its client id is live with the same fields |
| ReaderMeaning.CreateAnnotationMeaning | apps/api/src/books/reader-mutations.service.ts:498-533 | The same for highlights |
| ReaderMeaning.AppliedAddNamesRow | apps/api/src/books/reader-mutations.service.ts:433-464 | At both grains: the row an applied bookmark add names is the caller's; it is in the request's book if and only if the client id was not used for another book, live if and only if nobody deleted it since the read, and as sent at the reported revision if and only if it has not moved on since the read |
| ReaderMeaning.AppliedCreateNamesRow | apps/api/src/books/reader-mutations.service.ts:504-532 | The same for highlights |
| ReaderMeaning.AppliedAddIsLiveHereUnlessReused | apps/api/src/books/reader-mutations.service.ts:433-464 | Read and written in one state, the row an applied add or creation names is live and as sent, and in the request's book if and only if the client id was not used for another book |
| ReaderMeaning.StaleAddWitness | apps/api/src/books/reader-mutations.service.ts:441-444 | An add that read before a removal is applied at revision 1 and names a deleted row, without any client id being reused |
| ReaderMeaning.ReusedClientIdWitness | apps/api/src/books/reader-mutations.service.ts:433-444 | Two adds that show the exception: the second is applied and its book has no row |
| ReaderMeaning.ConflictReportsRow | apps/api/src/books/reader-mutations.service.ts:663-679 | At both grains a conflict reports identity, revision and each field of the row as it was read, or, when the race was lost, of the row as it stands at the write |
| ReaderMeaning.ConflictReportsCurrentRow | apps/api/src/books/reader-mutations.service.ts:739-752 | Read and written in one state, a conflict reports the row as it stands |
| ReaderMeaning.AloneAlwaysCommits | apps/api/src/books/reader-mutations.service.ts:145-156 | With nothing in between, an operation with an unused id always commits |
| ReaderSnapshot.SnapshotPartitionsRows | apps/api/src/books/reader-mutations.service.ts:185-213 | Annotations and tombstones are disjoint and together exactly the rows of that subject and book: live ones shown with each of their own fields, deleted ones as tombstones of their kind, revision and time; the copies are exactly the conflict copies of that subject and book as they are stored |
| ReaderSnapshot.WatermarkNeverDecreases | apps/api/src/books/reader-mutations.service.ts:215-223 | Between any two states of a run the watermark does not go back |
| ReaderSnapshot.WatermarkIsHighest | apps/api/src/books/reader-mutations.service.ts:215-221 | The watermark is the highest revision among the shown annotations, tombstones and copies, and 0 when there are none |
| ReaderRuns.WatermarkOverRuns | apps/api/src/books/reader-mutations.service.ts:170-174 | The same stated over runs of interleaved steps |
| ReaderSnapshot.ProgressLeavesSnapshots | apps/api/src/books/reader-mutations.service.ts:170-174 | A progress write, even a racing one, leaves every snapshot unchanged |
| ReaderLedger.ProgressLedger | apps/api/src/books/reader-mutations.service.ts:386-398 | After any run the applied progress writes of a reader and book carry each revision from the first to the current one once and in order, each on the base just before, and the row holds what the last one wrote |
| ReaderLedger.OneWritePerBase | apps/api/src/books/reader-mutations.service.ts:390-397 | Two different writes with one base are never both applied |
| ReaderLedger.CompletionTime | apps/api/src/books/reader-mutations.service.ts:406-414 | After any run completedAt is set exactly while the last write is at or past the page count it was made with, to the time of the first write of the current unbroken stretch of such writes; a write made without a page count leaves it empty |
| ContentVersions.RunOk | apps/api/src/books/conversion/conversion.runner.ts:49-145 | After every interleaving of reserve, put, fail, commit, release and crash: live and committed numbers of a book are distinct and at most the counter, all assets of eligible versions are stored with their digests, and the projection is one committed version's pages |
| ContentVersions.CommitNeverCollides | apps/api/src/books/conversion/conversion.runner.ts:97-98 | The version insert of a live job never meets its own number |
| ContentVersions.CommittedBytesAreNeverOverwritten | apps/api/src/books/conversion/pdf.converter.ts:237-244 | No later step overwrites an asset of a committed version or changes the version |
| ContentVersions.CommitSwapsOnlyForward | apps/api/src/books/conversion/conversion.runner.ts:66-134 | A finished job's commit always inserts its version, with place, keys, sizes, lengths and digests of every page of its document; it swaps the projection exactly when it holds the newest reservation, the shown version strictly increases, and each page shown has its frame as the image and its text as the text layer, both stored under those keys |
| ContentVersions.StepOnTables | apps/api/src/books/conversion/conversion.runner.ts:49-54 | What every other step does: a reservation raises the counter by one, a put stores the frame and then the text layer of each page in turn, a failed job gives its number back exactly when none has been reserved since, a crash leaves everything but the job |
| ContentVersions.InStepExactlyWhenUndisturbed | apps/api/src/books/conversion/conversion.runner.ts:63-65 | From an idle start, the counter is the projection's version whenever no reservation of the book is in flight, and one ahead while the one reservation is, at every point of a run if and only if no worker of the book crashes and no reservation overlaps another |
| ContentVersions.CommitRestoresAgreement | apps/api/src/books/conversion/conversion.runner.ts:66-95 | Whatever happened before, a finished job's commit ends with counter and projection equal if and only if it holds the newest reservation or they were equal already |
| ContentVersions.OverlapLeavesVersionUnshown | apps/api/src/books/conversion/conversion.runner.ts:135-145 | A crash-free run of two overlapping conversions that ends idle with the committed version at the counter not shown |
| ContentVersions.CrashLeavesCounterAhead | apps/api/src/books/conversion/conversion.runner.ts:49-54 | A crash after a reservation leaves the counter one ahead with nothing in flight |
| ContentModel.AssetPathInjective | apps/api/src/books/conversion/pdf.converter.ts:237-238 | Storage keys of different book, version, page or kind differ |
| ContentModel.AssetPathText | apps/api/src/books/conversion/pdf.converter.ts:237-238 | A storage key reads books/<book>/v<version>/pages/<page>.png for the frame and .json for the text layer |
| ConversionRunner.Runner.Process | apps/api/src/books/conversion/conversion.runner.ts:35-145 | The runner in place: reserve, convert, gated commit or guarded release is exactly the corresponding run of the concurrent model |
| ConversionRunner.Runner.Convert | apps/api/src/books/conversion/pdf.converter.ts:219-272 | The page loop writes frame and text layer of each page in order and returns one record per page with length and digest of exactly those bytes; it stops at the page that fails |
| ConversionRunner.Runner.CommitConverted | apps/api/src/books/conversion/conversion.runner.ts:66-134 | The commit transaction in place, undone as a whole when the number is taken |
| BookDownload.CommittedVersionsDownload | apps/api/src/books/book-download.service.ts:257-305 | In every reachable state, every asset id of a converted version's manifest resolves to the bytes the conversion rendered, with the listed length, digest and media type |
| BookDownload.CommittedDocumentsStayDownloadable | apps/api/src/books/book-download.service.ts:279-305 | From a job's commit on, through every later interleaving, its document downloads complete and unchanged |
| BookDownload.AssetReadDecided | apps/api/src/books/book-download.service.ts:252-305 | A read finds nothing exactly without a stored key, delivers exactly when the stored bytes have the recorded length and digest, and fails the integrity check otherwise; an id that is no page's id with a suffix finds nothing |
| BookDownload.OtherBytesAreNeverDelivered | apps/api/src/books/book-download.service.ts:290-295 | Whatever is done to the storage, a page of a converted version is delivered with the bytes that were rendered or not at all |
| BookDownload.BuildManifest | apps/api/src/books/book-download.service.ts:163-237 | A manifest is built exactly for complete versions, and lists the pages in order with frame and text layer of each, by their recorded lengths, digests and sizes and the route they are read from |
| BookDownload.CompleteMeaning | apps/api/src/books/book-download.service.ts:228-238 | Complete means at least one page, as many as the version says, and of each page both assets with a key, a digest and at least one byte |
| BookDownload.AssetIdRoundTrip | apps/api/src/books/book-download.service.ts:78-84 | Parsing a printed asset id gives page id and kind back, whatever the page id looks like |
| BookDownload.ParsedAssetIdPrintsBack | apps/api/src/books/book-download.service.ts:273-277 | An asset id that parses is the print of its parts, and one that does not is no asset's |
| BackfillSweep.BackfillService.BackfillAllIneligible | apps/api/src/books/book-download.service.ts:375-417 | For every batch size of at least 1: each version that was ineligible at the start is in exactly one of the two lists, by whether all its assets are stored, both lists are in order of book id and number, and the number examined is that of both together; the rows promoted have length and digest of what is stored, all other rows are untouched; below 1 it is refused |
| BackfillSweep.BackfillService.FindMany | apps/api/src/books/book-download.service.ts:384-399 | Although promotions shrink the queried set, the query past the cursor returns exactly the next keys, fewer than asked for only at the end |
| BackfillSweep.BackfillService.BackfillVersion | apps/api/src/books/book-download.service.ts:313-358 | One version is promoted exactly when it exists and verifies; nothing is written otherwise |
| BackfillSweep.BackfillService.MeasurePages | apps/api/src/books/book-download.service.ts:318-338 | Measuring succeeds exactly for a non-empty, complete version whose assets are all stored, and takes length and digest of the stored bytes |
| BackfillSweep.SiftPartitions | apps/api/src/books/book-download.service.ts:403-408 | Promoted and skipped keys together are the examined keys, each in the list its verification decides |
| BookDownload.PromotedVersionsDownloadExactly | apps/api/src/books/book-download.service.ts:228-238 | A version the sweep promoted has a manifest if and only if each of its stored frames and text layers is non-empty |
| BookDownload.PromotedAssetsAreDelivered | apps/api/src/books/book-download.service.ts:279-305 | Each asset id of a promoted version delivers exactly the stored bytes with their digest, empty or not |
| ConversionQueue.AttemptsAreBounded | apps/api/src/books/conversion/conversion-job.service.ts:50-74 | Under any number of workers, with crashes, uploads, retries and publications, as long as no lock is taken over: a job is claimed and fails at most three times and is FAILED exactly when it failed three times; a book marked as failed has a FAILED job |
| ConversionQueue.AppliesExactly | apps/api/src/books/conversion/conversion-job.service.ts:26-41 | A job may be claimed exactly while it waits or was locked more than fifteen minutes ago, and only if no such job is older; a worker settles or publishes only a job it holds |
| ConversionQueue.StepOnJobs | apps/api/src/books/conversion/conversion-job.service.ts:20-82 | What every step does to the job rows, field by field: the third failure ends a job, an earlier one puts it back, requeueing unlocks exactly the jobs locked before the limit |
| ConversionQueue.CapHoldsExactly | apps/api/src/books/conversion/conversion-job.service.ts:43-74 | Over any run, with locks taken over: at most three attempts and FAILED exactly at three hold at every point if and only if no worker completes or fails a job that is FAILED by then |
| ConversionQueue.CapBreaksExactlyByLateSettling | apps/api/src/books/conversion/conversion-job.service.ts:50-74 | The same for one step |
| ConversionQueue.CountsBreakExactlyByTakeOver | apps/api/src/books/conversion/conversion-job.service.ts:26-41 | A step keeps each job's claims equal to its attempts plus the one being settled if and only if it takes over no lock |
| ConversionQueue.StaleReclaimBreaksTheCap | apps/api/src/books/conversion/conversion-job.service.ts:26-74 | A run with one taken-over lock that ends FAILED with four attempts |
| ConversionQueue.WorkUsesWeight | apps/api/src/books/conversion/conversion-job.service.ts:50-74 | Every claim, completion and failure lowers the weighted sum of remaining attempts, and only a new job raises it, by six |
| ConversionQueue.FiniteQueueDrains | apps/api/src/books/conversion/conversion.runner.ts:19-33 | All claims, completions and failures of a run are together at most six for each upload or retry |
| ConversionQueue.RetriesComeFirst | apps/api/src/books/conversion/conversion-job.service.ts:70-73 | A failed job that is not given up is the next one claimed, before any younger job |
| ConversionQueue.ConversionJobService.ClaimNext | apps/api/src/books/conversion/conversion-job.service.ts:26-41 | Claims an eligible job that no eligible job is older than, and none exactly when none is eligible |
| ConversionQueue.ConversionJobService.Fail | apps/api/src/books/conversion/conversion-job.service.ts:50-74 | In place: one more attempt, back to PENDING or, at the cap, FAILED together with its book; unknown jobs change nothing |
| ConversionQueue.ConversionJobService.UploadBookFile | apps/api/src/books/books.service.ts:159-173 | In place: the book awaits conversion, whatever its columns said, and has a new PENDING job |
| ConversionQueue.ConversionJobService.RetryConversion | apps/api/src/books/books.service.ts:70-88 | The same, done exactly for a book marked as failed that has a stored original; otherwise nothing changes |
| ConversionQueue.ConversionJobService.RequeueStale | apps/api/src/books/conversion/conversion-job.service.ts:76-82 | Exactly the stale jobs become PENDING, and their number is returned |
| ConversionQueue.ConversionJobService.RunOnce | apps/api/src/books/conversion/conversion.runner.ts:19-33 | Works exactly when a job is eligible, on one no eligible job is older than, and settles it, and the columns of its book, by whether its conversion was published and by the error it ended with |
| ConversionQueue.SettledRows | apps/api/src/books/conversion/conversion.runner.ts:19-33 | What that leaves, field by field: READY without an error, or one more attempt with the error and FAILED at the third; the columns say FAILED after a third failure, and otherwise READY if the conversion was published |
| ConversionQueue.ConversionJobService.PollUntilIdle | apps/api/src/worker/main.ts:26-43 | A lone worker that polls until there is nothing to do stops, with every job READY or FAILED after three attempts, however conversions turn out |
| ConversionMarks.MarkedExactly | apps/api/src/books/conversion/conversion-job.service.ts:57-68 | After any run, with locks taken over or not, a book is marked as failed if and only if a third failure of one of its jobs has no upload, retry or publication of the book after it |
| ConversionMarks.ReadyExactly | apps/api/src/books/conversion/conversion.runner.ts:66-75 | After any run a book is READY if and only if a publication has no upload, retry or third failure of the book after it |
| ConversionMarks.ReadersBlockedExactly | apps/api/src/books/books.service.ts:226-233 | After any run a step turns a READY book into one the reader gate refuses as failed if and only if it is a third failure of one of its jobs and a publication has no upload, retry or third failure after it |
| ConversionMarks.CarefulRunsNeverBlock | apps/api/src/books/conversion/conversion-job.service.ts:57-68 | While no lock is taken over, a book is submitted only without an open job, and no job fails after it has published, no step of the run does that to any book |
| ConversionMarks.RetryWipesTheMark | apps/api/src/books/books.service.ts:80-87 | Three failures mark the book; a retry then leaves the FAILED job and takes the mark away |
| ConversionMarks.CompletingFailsBlocksReaders | apps/api/src/books/conversion/conversion.runner.ts:24-32 | A third attempt that publishes and then fails to complete shuts the readers out |
| ConversionMarks.OlderJobBlocksReaders | apps/api/src/books/conversion/conversion-job.service.ts:57-68 | A job fails for the third time after a younger job of its book has been published and completed: the readers are shut out, and the younger job stays READY |
| RefreshFamilies.FamiliesAreChains | apps/api/src/auth/auth.service.ts:139-198 | In every interleaving of logins, refreshes, logouts and user-wide revocations a family has at most one unrevoked token, no token is rotated twice, and a family holds one token more than it has had rotations |
| RefreshFamilies.DecisionMeaning | apps/api/src/auth/auth.service.ts:146-175 | A refresh goes on to rotate exactly a live, unexpired token of an active account, and revokes a family exactly when the token is known but revoked or expired |
| RefreshFamilies.StepOnRows | apps/api/src/auth/auth.service.ts:146-195 | What every step of a run does to the token rows: a carried-out family revocation sets the time on the live tokens of that family and leaves every other row, a rotation revokes its token and adds one successor or does nothing, revoking a user's sessions touches that user's live tokens only, a login adds one token of a new family |
| RefreshFamilies.StepOnRequests | apps/api/src/auth/auth.service.ts:139-161 | What a request goes on to do once it has read its token, by that row and the account status alone |
| RefreshFamilies.DeadFamiliesStayDead | apps/api/src/auth/auth.service.ts:183-195 | A family without an unrevoked token never gains one again |
| RefreshFamilies.RevokingIsFinal | apps/api/src/auth/auth.service.ts:146-152 | Once a reuse, an expired token or a logout has revoked a family, the family is dead for good, whatever was under way |
| RefreshFamilies.RotatedTokenIsCaught | apps/api/src/auth/auth.service.ts:146-152 | Presenting a rotated token again decides to revoke its family |
| RefreshFamilies.RevokedSessionsStayRevoked | apps/api/src/auth/auth.service.ts:233-239 | After a user-wide revocation every family the user had is dead for good |
| RefreshFamilies.SecondRotationLoses | apps/api/src/auth/auth.service.ts:177-195 | Of two requests that read one live token the second to write mints nothing and changes nothing; the first one's token stays live |
| RefreshFamilies.AuthService.RefreshTokens | apps/api/src/auth/auth.service.ts:139-198 | Uninterrupted, a refresh succeeds exactly for a live, unexpired token of an active account, and then revokes it and adds one live successor of the same family and user for seven days; for a revoked or expired token the live tokens of its family are revoked and no other row changes; otherwise nothing changes |
| RefreshFamilies.AuthService.RotateToken | apps/api/src/auth/auth.service.ts:183-195 | The guarded revocation and the mint happen together or not at all |
| RefreshFamilies.AuthService.Logout | apps/api/src/auth/auth.service.ts:207-215 | For a known token exactly the live tokens of its family are revoked now; every other row is unchanged and none appears or disappears; otherwise nothing changes |
| RefreshFamilies.AuthService.RevokeAllSessionsForUser | apps/api/src/auth/auth.service.ts:233-239 | Revokes exactly the user's live tokens, leaves every other row, and counts them |
| RefreshFamilies.AuthService.GenerateTokens | apps/api/src/auth/auth.service.ts:359-377 | Mints one token that expires in seven days, in the given family or in a new one |
| DayKeys.DaysFollowTheCalendar | apps/api/src/progress/streak.service.ts:7-11 | Day numbers walk through the calendar day by day from 1970-01-01, over month ends, leap days and year ends |
| DayKeys.CivilOfDayNumber | apps/api/src/progress/streak.service.ts:7-11 | Day numbers and valid dates correspond one to one |
| DayKeys.KeyOrder | apps/api/src/progress/day-key.util.ts:7-13 | For four-digit years the string order of day keys is the order of the days |
| DayKeys.ParseOfIsoDay | apps/api/src/progress/streak.service.ts:8-11 | Reading the key of a day gives the day back |
| DayKeys.IsoDayOfParse | apps/api/src/progress/streak.service.ts:8-11 | Printing the day a key reads as gives the key back |
| DayKeys.ShiftsAdd | apps/api/src/progress/streak.service.ts:8-11 | Shifting by a and then by b is shifting by a + b, for every b, as long as the day between has a four-digit year |
| DayKeys.ShiftIsInverse | apps/api/src/progress/streak.service.ts:8-11 | Shifting back undoes a shift whose day has a four-digit year |
| DayKeys.ShiftHits | apps/api/src/progress/streak.service.ts:8-11 | A shifted key equals another key exactly when the days are that far apart, even past the four-digit years |
| DayKeys.ShiftFailsExactly | apps/api/src/progress/streak.service.ts:8-11 | A shift fails exactly for a key that is no day and for a day more than 100,000,000 days from 1970-01-01 |
| DayKeys.ToDayKeyIsIso | apps/api/src/progress/day-key.util.ts:7-13 | The key of an instant is the ISO day of its UTC+8 date if and only if the year is at least 1000 |
| DayKeys.DayTurnsAtFourInTheAfternoon | apps/api/src/progress/day-key.util.ts:1-13 | From year 1000 on, an instant has the key of its UTC day before 16:00 UTC and of the next day from 16:00 on |
| DayKeys.KeyText | apps/api/src/progress/day-key.util.ts:7-13 | A key reads as four digits of the year, two of the month and two of the day |
| DayKeys.YearBoundsAreTheYear | apps/api/src/progress/day-key.util.ts:19-21 | A key lies in the bounds of year y exactly when y is its calendar year and y is at most 9998 |
| Streaks.CurrentStreakFromDays | apps/api/src/progress/streak.service.ts:18-28 | The loop returns the length of the maximal run that ends today or, when today is absent, yesterday |
| Streaks.LongestStreakFromDays | apps/api/src/progress/streak.service.ts:31-42 | The loop returns the largest number of consecutive days that are all present |
| Streaks.OnlyTheDaysMatter | apps/api/src/progress/streak.service.ts:34-34 | Lists of the same keys, in any order and with repetitions, have the same longest and the same current streak |
| Streaks.CurrentAtMostLongest | apps/api/src/progress/streak.service.ts:14-42 | The current streak is at most the longest, which is at most the number of distinct days |
| Streaks.LongestIsUnique | apps/api/src/progress/streak.service.ts:31-42 | Only one number is the length of a longest run |
| Streaks.StreakNeedsYesterday | apps/api/src/progress/streak.service.ts:14-28 | The current streak is zero exactly when neither today nor yesterday was read |
| Streaks.ReadingTodayExtends | apps/api/src/progress/streak.service.ts:14-28 | Reading today makes the streak one longer than the run up to yesterday |
| Streaks.AddedDayJoinsRuns | apps/api/src/progress/streak.service.ts:31-42 | Adding a day makes the longest streak the run it joins if that is longer, and leaves it otherwise |
| Streaks.LeftOutDaysMatterExactly | apps/api/src/progress/streak.service.ts:31-42 | Leaving any set of days out does not change the longest streak if and only if none of them lies in a run longer than the longest of the others |
| ActivityRollup.ClampPagesDelta | apps/api/src/progress/progress.service.ts:45-48 | One page exactly for finite deltas from 1 on, none otherwise |
| ActivityRollup.ProgressService.RecordActivity | apps/api/src/progress/progress.service.ts:63-86 | In place: one more event, the day's pages grow by the clamped delta unless the operation id was claimed before, its type count by one unless the type was claimed that day, the receipt and the type are claimed, and no other row changes; after every sequence of calls the tables are what the history makes them, with a cache computed from all days |
| ActivityRollup.TotalPages | apps/api/src/progress/progress.service.ts:96-150 | Added up over all of a user's rows, pagesRead is every delta without an operation id plus, for each id, the delta of its first call |
| ActivityRollup.ProgressService.ClaimReceipt | apps/api/src/progress/progress.service.ts:96-107 | Replayed exactly when a non-empty id is already claimed by the user |
| ActivityRollup.ProgressService.ApplyDailyRollup | apps/api/src/progress/progress.service.ts:128-150 | Adds to the day's row or starts it |
| ActivityRollup.ProgressService.RefreshCache | apps/api/src/progress/streak.service.ts:64-75 | The cache holds current and longest streak of all recorded days and the last of them |
| ActivityRollup.ProgressService.ResolveLongestStreak | apps/api/src/progress/progress.service.ts:230-247 | The cached streak is served exactly while its last day is the latest day, else a recomputed one; with a cache of all recorded days either way gives the longest streak of all of them |
| ActivityRollup.GuardServesStaleExactly | apps/api/src/progress/progress.service.ts:230-237 | With any days left out of the cache: the guard lets the cached value through if and only if all of them are earlier than the cached last one, the value is right if and only if none of them lies in a run longer than it, and what is served is wrong if and only if the first holds and the second does not |
| ActivityRollup.StaleCacheWitness | apps/api/src/progress/progress.service.ts:230-237 | Three days of which the middle one is missing: one is served where three is right |
| ActivityRaces.CacheIsCompleteExactly | apps/api/src/progress/progress.service.ts:70-85 | From an idle start, over overlapping transactions of one user, the cache is computed from all committed days at every point if and only if nobody commits a day between another transaction's computing the streaks, where the day is not seen, and that one's finishing |
| ActivityRaces.LeavesOutExactly | apps/api/src/progress/streak.service.ts:64-75 | The same for one transaction of any run: what it caches misses a committed day if and only if it was overtaken |
| ActivityRaces.ServedAfterRun | apps/api/src/progress/progress.service.ts:230-237 | After any run the longest streak served is wrong if and only if all days left out are earlier than the cached last one and one of them lies in a longer run; without overtaking it is right |
| ActivityRaces.MidnightRace | apps/api/src/progress/streak.service.ts:64-75 | Two transactions around midnight after which the earlier day is missing from what was cached |
| ActivityRaces.MidnightRaceServesStale | apps/api/src/progress/progress.service.ts:230-237 | After that race over three consecutive days the guard serves one day where three were read |
| ChatPaging.PagingVisitsAllOnce | apps/api/src/chat/chat.service.ts:238-274 | For any limit, following cursors until there is no next page yields every message visible at the first request exactly once in strictly descending (createdAt, id) order, also when newer messages arrive meanwhile |
| ChatPaging.PagingVisitsWhatStays | apps/api/src/chat/chat.service.ts:238-274 | Whatever is deleted or arrives between the requests, every message visible at all of them comes exactly once in strictly descending order, and nothing that was visible at none |
| ChatPaging.FollowAll | apps/api/src/chat/chat.service.ts:257-274 | The pages together are exactly the visible list of the first request |
| ChatPaging.PageIsNext | apps/api/src/chat/chat.service.ts:246-273 | A page holds exactly the next visible messages after its cursor, as many as the limit clamped to 1..100 allows, and hasNextPage says whether any are left |
| ChatCursors.DecodeInvertsEncode | apps/api/src/chat/chat.service.ts:276-297 | Decoding an encoded cursor gives it back if and only if the id is non-empty and has no bar |
| ChatCursors.DecodedExactly | apps/api/src/chat/chat.service.ts:280-297 | A cursor is accepted exactly when it is an instant, a bar and a non-empty id without a bar, and then reads as these |
| ChatCursors.IsoInstantOfParse | apps/api/src/chat/chat.service.ts:276-278 | Whatever reads as an instant is that instant printed |
| ChatCursors.EncodedPagingVisitsAllOnce | apps/api/src/chat/chat.service.ts:238-297 | Paging with cursors as text never fails and visits every message once, newest first |
| ChatCursors.EncodedPagingVisitsWhatStays | apps/api/src/chat/chat.service.ts:238-297 | The same with deletions and arrivals anywhere between the requests |
| ChatStore.EveryRunIsConsistent | apps/web/src/store/chat-store.ts:22-140 | After any sequence of actions with duplicate-free lists the badge is the sum of the unread counts, conversations are sorted newest first with distinct ids, and no list shows a message id twice |
| ChatActions.ActionOnConversations | apps/web/src/store/chat-store.ts:45-130 | What each action does to the conversations: fetched lists are taken over, a fetched one replaces or joins, a new message sets time, last message and count of its own conversation only, clearing sets one count to zero |
| ChatActions.ActionOnMessages | apps/web/src/store/chat-store.ts:57-117 | What each action does to the message lists: only the list of its own conversation changes, by replacing it, putting the page's missing messages before it, appending a message it does not have, or taking one out |
| ChatStore.SortIsStable | apps/web/src/store/chat-store.ts:26-30 | Sorting keeps the order of conversations updated at one instant |
| ChatStore.SortKeeps | apps/web/src/store/chat-store.ts:26-30 | Sorting permutes the conversations, keeps the unread sum and puts the newest first |
| ChatStore.EchoAndReplyConfluent | apps/web/src/components/chat/chat-thread.tsx:171-195 | With the conversation known as the first echo comes and any actions in between, an optimistic send ends in the same state whether the echo comes before or after the reply, if and only if with the reply first the conversation is still known or the message still shown as the echo comes |
| ChatEchoes.UnknownEchoConfluentExactly | apps/web/src/components/chat/chat-provider.tsx:60-66 | The same with the conversation not known as the first echo comes: after a reload of the message list the condition is that one; without, it is that the message is still the last one shown and the conversation, if known by then, already shows it as its last message |
| ChatEchoes.RefetchBetweenWitness | apps/web/src/components/chat/chat-provider.tsx:60-66 | A conversation list fetched in between that does not show the message yet: the two orders end in different states |
| ChatStore.EchoAndReplyCommute | apps/web/src/components/chat/chat-thread.tsx:171-195 | With nothing in between the order never matters, whether the conversation is known or not |
| ChatStore.FailedSendLeavesNoTrace | apps/web/src/components/chat/chat-thread.tsx:191-194 | A failed send leaves every message list as if it had never been tried, with any actions in between |
| ChatStore.FailedSendStillShows | apps/web/src/components/chat/chat-thread.tsx:191-194 | The conversation list is restored if and only if the conversation is unknown; otherwise the unsent text stays its last message after any further actions if and only if none of them replaces it |
| ChatStore.AppendTwice | apps/web/src/store/chat-store.ts:79-82 | Hearing of a message twice changes nothing the second time |
| ChatStore.OlderPagesJoin | apps/web/src/store/chat-store.ts:66-77 | Prepending an older page that overlaps what is shown shows the history from the start of that page on, without a gap or a repetition |
| ChatStore.NotedIs | apps/web/src/store/chat-store.ts:89-104 | A message updates exactly its own conversation (time, last message, unread count), keeps all others, and leaves the list sorted and free of duplicates |
| ChatStore.UnreadCountsArrivals | apps/web/src/store/chat-store.ts:79-130 | As long as messages come and go, a conversation's unread count grows by exactly the new messages from others while it is not being viewed, each once; clearing sets it to zero |

## Left out

- Validation of operations: the per-kind field tables are taken as the shape of an `Action`; the payload hash and SHA-256 are taken to be injective.
- Entitlements: `canRead`, the book row and the supported versions enter as an `Access` value; a snapshot of a book the reader may not see is refused before the modelled part begins.
- Audit columns and texts: `createdAt`, `updatedAt`, refusal reasons, titles, authors, table of contents and character counts are not modelled.
- Anchors are compared as values; the order of keys in a stored JSON anchor is not modelled.
- Database internals: isolation below the grain of one statement or one transaction, in particular a row inserted while an `updateMany` is already scanning, is not modelled; text columns are ordered by character code.
- Rendering: pages arrive as a non-empty sequence of non-empty frames and text layers; a failing page is a parameter; canvas, text boxes and outline lookup are not modelled.
- The download limiter and the entitlement check in front of manifest and asset reads are not modelled.
- BackfillSweep.BackfillService.BackfillAllIneligible: the version table changes only through the sweep itself while it runs; an original that commits meanwhile is not modelled.
- ChatPaging.PagingVisitsAllOnce: no message is deleted before it is visited, and as many requests may follow as there are messages; deletions are covered by PagingVisitsWhatStays.
- ChatCursors.DecodeInvertsEncode: the base64url wrapping is taken to be an inverse pair; date strings of other shapes than the printed one read as invalid.
- ChatEchoes.UnknownEchoConfluentExactly: the message is a new one, and what comes in between names it only by reloading its list; a second delivery of the message itself meanwhile is not covered.
- DayKeys.ShiftDayKey: strings that are not calendar days in the four-digit form read as invalid, while a JavaScript engine may accept some of them.
- ActivityRollup.ProgressService.RecordActivity: the transaction is one atomic step (ActivityRaces takes the streak cache apart into steps), and the clock reads a year from 1000 to 9999.
- ConversionMarks.MarkedExactly: the two writes of a third failure are one step, a retry whose check is out of date when it writes is an upload, and whether a commit swaps the projection is a free choice here (ContentVersions says when it does).
- ConversionQueue.AttemptsAreBounded: runs in which a stale lock is taken over are excluded, since the bound fails there; CapHoldsExactly says when it does.
- Login checks, password hashing, JWTs, cookies, OAuth and the audit trail are not modelled; logging in always mints a new family.
- HTTP, GraphQL, React components, the service worker, the client's outbox, friendships, groups, goals and reading sessions would add only easy members.
