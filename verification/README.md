# MentisEterna: verified models

Dafny models of the parts of MentisEterna where correctness is not obvious from
one function body: protocols with concurrent participants, indexes that must
agree with several tables, file formats, and loops over shared buffers. Each
module models one component; `dafny verify dfyconfig.toml` checks them all.

How the models are built:

- A component with concurrent participants is a state and an event type.
  `Enabled` says when an event can happen and `Apply` what it does, one SQL
  statement, transaction or critical section per event. A run is any sequence
  of enabled events. An invariant is shown to survive every event, and the main
  results speak about all runs.
- Where the program keeps its state in objects, a class holds the same fields
  and its methods are the statements of the program, proved to be those events.
  In `JobManager`, `UploadServer` and `RequestGate`, methods made of several statements let
  everyone else act in between: `Interfere` (`Others` in `RequestGate`) promises
  only that the others took some run of their own steps; the rest is derived.
- An algorithm with loops is a method proved against a specification: an
  independent definition (the pull form of error diffusion, the printer's
  reading of the byte stream, a character-by-character reader), or the property
  itself.
- A function that a method or an event mirrors step by step says nothing by
  itself. Beside it stands a statement that does not name it: what changes and
  what stays (`StatusMoves`, `RemovalIsExact`, `EventIs`), when an operation
  succeeds (`AcceptedIff`, `RestorableIff`), or how the result reads
  (`NormalizedReads`, `FileLayout`, `LabelSpells`).

| module | component |
|---|---|
| `JobQueue`, `JobManager` | background jobs: enqueue with de-duplication, dequeue by compare-and-swap, finish, cancel, retry, janitor, crash recovery |
| `Slicing`, `ChunkedUpload`, `ChunkedUploadSafety`, `ChunkedUploadLosses`, `ChunkedUploadResume`, `UploadServer`, `UploadWorker` | chunked uploads: chunk requests, `chunks_done`, finalisation, and the browser worker |
| `NotesIndex`, `TagNames`, `TagMeaning`, `TagMerge` | full-text index triggers, tag normalisation, the tag merge migration |
| `MediaCrypto` | the chunked AEAD file format (nonces as section 8 of NIST SP 800-38D asks) |
| `Grid`, `Dither`, `PrinterImage`, `DarknessScale`, `EscPos` | image rasterising and the 24-dot ESC/POS column mode |
| `BackendLease`, `RequestGate` | model-backend idle stops; concurrency cap, cooldown and retries |
| `FileRefs` | attachment, inline and pending files and their soft deletion |
| `Teleport` | device-to-device transfers reassembled from frames in any order |
| `BackupBundle`, `Retention` | backup bundles and which backups to keep |
| `TextSplit`, `NoteChunks`, `SearchIndex` | the semantic search index: splitting notes into chunks, chunk rows and their vectors |
| `Transcripts`, `TranscriptOrder`, `NoteScope` | audio windows and transcript merging, note-tree scope |
| `LiveHub`, `LinkHints`, `SearchStream` | device registry, link labels, the streaming line splitter |

## Where the code does less than it seems to promise

Each of these is a proved statement: the exact condition under which the
promise holds, or a run in which it fails.

- `chunks_done` is read, changed and written without a transaction, so that all
  chunks acknowledged means a full count in every run only for uploads of a
  single chunk (`AlwaysCountedIff`). With more, overlapping requests can lose an
  update, and the session fails although every chunk was acknowledged and stored
  (`OverlapLosesAnUpdate`, `LossFailsTheUpload`). A run counts full exactly when
  every dropped index is written again (`CountedIff`), and `WriteDropsIff` says
  when a write drops one. Safety does not suffer.
- A session whose server dies between the claim and the last status write never
  completes and never fails (`CrashAfterClaimIsFinal`): no restart takes the claim
  back.
- An upload whose last chunk was recorded, but not yet claimed, when the server
  died never completes once its clients resume: they find every chunk recorded,
  call no /finish and poll (`ResumeCompletesIff`).
- The comment on the darkness scale speaks of lifting dark tones, but values
  above one are accepted and push greys below black. The dither's error bound
  then fails for some image, even one two rows high, at every width cap of three
  or more (`BoundHoldsIffScaleAtMostOne`; `BoundHoldsIffScaleFits` for any cap).
- The idle-stop callback asks whether *a* stop is pending, not whether its own
  is. A use that overtakes a timer which has gone off lets the old callback stop
  the backend before the delay (`OvertakenTimerStopsEarly`, `GraceIsHonoured`).
  With stopping on this can happen for every positive delay (`DelayKeptIff`).
- The cooldown is documented as a gap between requests to a host. It is one only
  with a cap of one (`CooldownHoldsIffCapIsOne`).
- Saving a note soft-deletes its unnamed pending files even when another note
  already shows them (`ReferencedLossIff`). Deleting a note leaves behind a file
  it both attached and embedded (`NoteDeletionCollectsIff`,
  `DeletedNoteLeavesFile`).
- A teleport of nothing is never delivered (`EmptyIsNeverDelivered`). One that is
  not swept is delivered again exactly when all its chunks arrive again after it
  first completed (`DeliveredAgainIff`), a one-chunk transfer therefore as often
  as its frame arrives (`RepeatedSingleChunkRepeats`).
- A connection that was unregistered after a failed send may still announce a
  device, whose entry then belongs to an unregistered connection until it is
  unregistered again (`StrandedIff`, `StrandingHappens`).
- Deleting a note drops its search index and then the note, in two statements; an
  indexing job in between leaves vectors without rows until the next clean-up
  (`LeftoverIff`, `IndexingDuringDeletionLeaks`).
- In a merged transcript the blocks of the parts end in order but may begin out
  of order. The word counts decide whether they can (`CountsDecideOrder`).
- The restored database file is written before its replica rows are brought up to
  date, and it stays when that fails, as it does exactly when an endpoint is
  configured twice (`RestoreBundle`, `RestoredRowsAreTrue`).
- A half-transparent white pixel prints grey, as its channels are weakened by
  alpha twice: white stays white exactly when it is opaque or fully transparent
  (`WhiteStaysWhiteIff`).
- A bundle with an empty storage key is built but cannot be restored
  (`RestoreUndoesBuild`); the upload path never makes such a key.

## Model

| member | source | states |
|---|---|---|
| `JobQueue.RunsAreExclusive` | internal/jobs/jobs.go:569-695 | in every interleaving of workers, clients, scheduler, janitor and crashes: no run is claimed twice in one manager lifetime, no two workers hold one run, a holder works on the row's own job and payload, every running row has a holder once recovery is over, and no two active runs carry the same work |
| `JobQueue.FinishTouchesOwnRow` | internal/jobs/jobs.go:569-649 | the finish UPDATE, which names only the id, changes exactly the row its own worker has running, or nothing when the janitor removed it |
| `JobQueue.StatusUpdatesAreAccepted` | internal/db/db.go:271-283 | no status UPDATE, crash recovery included, is ever rejected by the partial unique index |
| `JobQueue.UpdateAccepted` | internal/db/db.go:271-283 | moving rows between the two active states, or out of them, cannot meet a duplicate |
| `JobQueue.InsertRefusedIffDuplicate` | internal/jobs/jobs.go:344-363 | an INSERT is refused exactly when the same job and non-null payload are already planned or running |
| `JobQueue.CrashLosesNoRun` | internal/jobs/jobs.go:185-244 | after a crash in any reachable state and a recovery during which clients may enqueue, every run that was planned or running is planned again when its job has a task and errored when not |
| `JobQueue.DedupeInstallsIndex` | internal/db/db.go:255-283 | the clean-up before the index is created makes it installable on any table, leaves inactive and null-payload rows, keeps an older representative of all it deletes, and finds nothing the second time |
| `JobQueue.StepPreserves` | internal/jobs/jobs.go:185-695 | each statement of every participant keeps the global invariant (ownership, single execution, index, ids) |
| `JobQueue.RunPreserves` | internal/jobs/jobs.go:185-695 | so does every run from a freshly opened database |
| `JobQueue.StatusMoves` | internal/jobs/jobs.go:185-695 | the life of a row: it leaves the table exactly when the janitor finds it older than its cutoff, nothing but its status ever changes, and that changes exactly by the cancelling of a planned run, a won claim, the finish of the worker that holds it, the reset of running rows after a crash, and the marking of orphans |
| `JobQueue.NewRowsArePlanned` | internal/jobs/jobs.go:344-351 | a new row comes from an insert, under the next id, planned, with the retry count and creation time it was given |
| `JobQueue.SelectIff` | internal/jobs/jobs.go:658-669 | the select finds a planned run that none was created before, copied as it stands, or nothing exactly when none is planned |
| `JobManager.Manager.TryInsert` | internal/jobs/jobs.go:344-351 | the insert statement: accepted exactly without an active duplicate, adding one planned row with a fresh id |
| `JobManager.Manager.InsertPlannedRun` | internal/jobs/jobs.go:344-363 | inserted exactly without an active run with the same work; otherwise, after others have acted, it names an active run with that work exactly when there still is one, and is refused when that run has ended meanwhile |
| `JobManager.Manager.RetryRun` | internal/jobs/jobs.go:459-486 | only errored and cancelled runs are retried; the new planned row copies job and payload and counts one more retry; when the same work is active at the insert none is made, and the run named instead is an active one, if there still is one |
| `JobManager.Manager.CancelRun` | internal/jobs/jobs.go:489-509 | cancels exactly a planned run and changes nothing else |
| `JobManager.Manager.SelectCandidate` | internal/jobs/jobs.go:658-669 | picks an oldest planned run, or reports that none is planned |
| `JobManager.Manager.TryClaim` | internal/jobs/jobs.go:671-687 | the compare-and-swap wins exactly when the row is still planned |
| `JobManager.Manager.DequeueAttempt` | internal/jobs/jobs.go:655-695 | one select-and-claim round with arbitrary interference in between: exactly a select and a claim of this worker, or one look that found nothing planned; a claimed run was never claimed before |
| `JobManager.Manager.NextCandidate` | internal/jobs/jobs.go:658-669 | the select on whatever the others have left |
| `JobManager.Manager.ClaimCandidate` | internal/jobs/jobs.go:671-687 | the claim on whatever the others have left of the candidate |
| `JobManager.Manager.AtomicDequeue` | internal/jobs/jobs.go:655-695 | the worker issues exactly a poll, then select-and-claim pairs, three at most, ending with the claim that won, the third that lost, or a look that found nothing planned; a returned run is running, held by this worker, and new in this lifetime |
| `JobManager.Manager.FinishRun` | internal/jobs/jobs.go:569-649 | writes the outcome to the worker's own row and frees the worker |
| `JobManager.Manager.RunTask` | internal/jobs/jobs.go:569-649 | while the task runs the others act; then the worker issues exactly one finish, for its own run, done when the task exists and succeeds and errored otherwise, unless the janitor removed the row |
| `JobManager.Manager.WorkOnce` | internal/jobs/jobs.go:569-649 | one worker turn: a dequeue as above, and for a claimed run exactly one finish with the task's outcome; the run is executed by nobody else |
| `JobManager.RecoveredInTwoUpdates` | internal/jobs/jobs.go:185-244 | resetting running rows and then marking orphans is one map over the table |
| `JobManager.Manager.ZombieRecovery` | internal/jobs/jobs.go:185-244 | undisturbed recovery, statement by statement, leaves exactly that table |
| `Slicing.SlicesRebuildFile` | frontend/src/workers/uploadWorker.js:262-284 | the slices in order are the file, for every file and chunk size |
| `Slicing.JoinedIsPrefix` | frontend/src/workers/uploadWorker.js:273-284 | the first n slices joined are the file's prefix |
| `Slicing.SliceSizes` | frontend/src/workers/uploadWorker.js:262-284 | every slice but the last is a full chunk, the last is what is left, and after it there is nothing |
| `ChunkedUpload.StepPreserves` | internal/server/chunked_upload.go:242-645 | every statement of chunk requests, finalisation attempts, cancellation, expiry and crashes keeps the session invariant |
| `ChunkedUpload.RunPreserves` | internal/server/chunked_upload.go:242-645 | so does every run of a fresh session |
| `ChunkedUploadSafety.CompletedUploadIsTheFile` | internal/server/chunked_upload.go:462-578 | with slices of one file, the media service receives that file at most once and nothing else, and a completed session has delivered it |
| `ChunkedUploadSafety.DeclaredHashIsDelivered` | internal/server/chunked_upload.go:499-507 | whatever the chunks hold, what is delivered has the declared whole-file hash |
| `ChunkedUploadSafety.FullCountMeansEveryChunk` | internal/server/chunked_upload.go:462-524 | chunks_done is duplicate-free, in range and names only stored chunks, so a full count means every chunk is stored |
| `ChunkedUploadSafety.StatusFollowsPath` | internal/server/chunked_upload.go:403-578 | the unguarded status writes follow uploading, assembling, verifying, processing, done with failure on the way; uploading is never re-entered |
| `ChunkedUploadSafety.OneClaimOneFile` | internal/server/chunked_upload.go:403-460 | any number of /finish calls and auto-finish goroutines: one passes the claim, one media file is created |
| `ChunkedUploadSafety.HonestFinalizationSucceeds` | internal/server/chunked_upload.go:480-507 | finalising a full honest session misses no chunk and passes the hash check |
| `ChunkedUploadSafety.CrashAfterClaimIsFinal` | internal/server/chunked_upload.go:403-444 | a crash once the session has left uploading is for good: whatever comes later, the status stays or the row is deleted, and nothing more is delivered |
| `ChunkedUploadResume.ResumeCompletesIff` | frontend/src/workers/uploadWorker.js:312-411 | after the server died and the clients resume, an upload can still complete exactly when it had completed, or when it was unclaimed, some chunk was not recorded and every recorded one has its file; fully recorded but unclaimed, it never does |
| `ChunkedUploadResume.IdleForEver` | frontend/src/workers/uploadWorker.js:321-327 | with every chunk recorded a resuming client only polls, and then the session stays in uploading until it is deleted |
| `ChunkedUploadResume.GoneRun` | internal/server/chunked_upload.go:268-280 | a recorded chunk whose file is gone is never sent again, and no finalisation gets past it |
| `ChunkedUploadResume.ResumeSucceeds` | frontend/src/workers/uploadWorker.js:332-411 | a run that sends what is missing, calls /finish and completes |
| `ChunkedUploadLosses.AlwaysCountedIff` | internal/server/chunked_upload.go:795-826 | every run of a session that survives with all chunks acknowledged has a full count exactly when the upload has a single chunk |
| `ChunkedUploadLosses.CountedIff` | internal/server/chunked_upload.go:795-826 | a single such run ends with a full count exactly when every index that some write dropped was put back by a later one |
| `ChunkedUploadLosses.MissingIff` | internal/server/chunked_upload.go:795-826 | an acknowledged index is missing exactly when a write dropped it and no later one put it back |
| `ChunkedUploadLosses.WriteDropsIff` | internal/server/chunked_upload.go:795-826 | a request's write drops an index exactly when the last write since its read carried that index and its own list does not |
| `ChunkedUploadLosses.SerialUploadCountsFull` | internal/server/chunked_upload.go:795-826 | in particular requests that do not overlap drop nothing |
| `ChunkedUploadLosses.OverlapLosesAnUpdate` | internal/server/chunked_upload.go:795-826 | for every upload of two or more chunks, a run in which all chunks are acknowledged and stored and the count is one short |
| `ChunkedUploadLosses.LossFailsTheUpload` | internal/server/chunked_upload.go:795-826 | from there a finalisation fails the session for good |
| `UploadServer.Server.AddChunkDone` | internal/server/chunked_upload.go:795-826 | the read-modify-write writes the list it read with its own index at the end unless it was in it, and whatever happened in between that is a list of stored chunks; it fails exactly when the session is gone |
| `UploadServer.Server.ClaimFinalization` | internal/server/chunked_upload.go:403-444 | a won claim is the only one ever, nobody else holds the session, and it started from uploading; a lost one means the session had left uploading, to which it never returns |
| `UploadServer.Server.MissingChunk` | internal/server/chunked_upload.go:481-487 | a chunk file is missing only when the directory was removed, and that fails the session |
| `UploadServer.Server.AppendChunk` | internal/server/chunked_upload.go:480-493 | the next chunk file is appended to what has been assembled |
| `UploadServer.Server.CopyNext` | internal/server/chunked_upload.go:480-493 | whatever others did meanwhile, appends the next chunk file, or fails the session; the latter only when the directory was removed or the write fails |
| `UploadServer.Server.CheckChunkCount` | internal/server/chunked_upload.go:462-467 | the count is checked on the list read before the claim; a short one fails the session |
| `UploadServer.Server.CopyChunks` | internal/server/chunked_upload.go:480-493 | copies every chunk file in order, with others acting between any two of them, or fails the session |
| `UploadServer.Server.CloseAssembled` | internal/server/chunked_upload.go:494-499 | closes the output and moves the session to verifying, or fails it; the assembled bytes of an honest session are the file |
| `UploadServer.Server.GiveUp` | internal/server/chunked_upload.go:470-497 | a failing file operation fails the session and ends the attempt |
| `UploadServer.Server.AssembleChunks` | internal/server/chunked_upload.go:462-499 | with others acting between its statements: a short count is reported exactly when the list read before the claim is short; otherwise the bytes are assembled only when every file operation works, and it breaks only when one fails or the directory was removed; undisturbed, the bytes are the chunk files one after the other, and it breaks only when one is missing or an operation fails. Failing marks the session failed |
| `UploadServer.Server.VerifyAssembled` | internal/server/chunked_upload.go:499-506 | passes exactly when no hash was declared or the bytes have it, and moves the session to processing or failed |
| `UploadServer.Server.CreateMedia` | internal/server/chunked_upload.go:507-527 | the media service gets exactly the verified bytes, or refuses and the session fails without a media file |
| `UploadServer.Server.PersistResult` | internal/server/chunked_upload.go:555-558 | whatever others did meanwhile, the session is complete or gone and the media list is still that one file |
| `UploadServer.Server.RemoveChunks` | internal/server/chunked_upload.go:575-577 | removes the chunk directory; nobody has changed the status since |
| `UploadServer.Server.Finalize` | internal/server/chunked_upload.go:446-578 | with others acting between any two statements: a lost claim, a short count, a file failure, a wrong hash and a refusal each have their cause, and after a won claim without any of them the file is delivered, once, and the session is complete or gone; otherwise it is failed or gone. With no other process about, the claim is lost exactly when the session was not uploading, and a file failure means a missing chunk file or a failing operation |
| `UploadWorker.CutChunk` | frontend/src/workers/uploadWorker.js:273-284 | a staged chunk is the file's slice, never empty, never longer than the chunk size |
| `UploadWorker.StageChunks` | frontend/src/workers/uploadWorker.js:262-284 | the staged chunks are the slices and join to the file |
| `UploadWorker.SendChunk` | frontend/src/workers/uploadWorker.js:102-119 | one to three requests, another one only after a failure, acknowledged exactly when one of three attempts would be |
| `UploadWorker.SendMissing` | frontend/src/workers/uploadWorker.js:332-381 | all chunks are sent exactly when none is cancelled, missing from the store or refused three times, and otherwise the first such chunk ends the loop; every request carries a stored chunk the server lacks, in order, each as often as it took |
| `UploadWorker.UploadPhase` | frontend/src/workers/uploadWorker.js:319-411 | a fully recorded upload is only polled, with no request and no look at cancellation; any other runs the loop and calls /finish exactly when all chunks were sent |
| `NotesIndex.SyncedIffRebuilt` | internal/db/db.go:615-638 | the index is in sync exactly when it is, row for row, what the backfill query computes from the base tables |
| `NotesIndex.SyncedSays` | internal/db/db.go:615-638 | said on the base tables alone: each note has one row, with its title and the concatenation of the names attached to it in either table, and no row belongs to no note |
| `NotesIndex.TagSetIs` | internal/db/db.go:615-638 | a name is listed for a note exactly when a tag of that name is attached in either table |
| `NotesIndex.RefreshRepairs` | internal/db/db.go:654-729 | a reference trigger repairs the tag text of its note |
| `NotesIndex.SpoilsOnly` | internal/db/db.go:654-755 | changing references or names makes only the notes stale whose set of names changes |
| `NotesIndex.TagDeletionSpoils` | internal/db/db.go:673-729 | deleting a tag row alone makes exactly its notes stale, which the cascade's triggers then repair |
| `NotesIndex.NotesDb.Backfill` | internal/db/db.go:615-638 | an index with at most one row a note, all of them right, is in sync afterwards; one in sync is left alone and no row is touched |
| `NotesIndex.NotesDb.InsertNote` | internal/db/db.go:643-645 | keeps the index in sync |
| `NotesIndex.NotesDb.Retitle` | internal/db/db.go:649-651 | keeps the index in sync |
| `NotesIndex.NotesDb.Attach` | internal/db/db.go:654-710 | adds one manual or automatic reference under the foreign keys and keeps the index in sync |
| `NotesIndex.NotesDb.Detach` | internal/db/db.go:673-729 | removes any rows and keeps the index in sync |
| `NotesIndex.NotesDb.RenameTag` | internal/db/db.go:731-755 | fails exactly on a taken name; otherwise refreshes every note using the tag |
| `NotesIndex.NotesDb.DeleteTag` | internal/db/db.go:462-487 | cascades over both reference tables with the triggers firing row by row, and ends in sync |
| `NotesIndex.NotesDb.DeleteNote` | internal/db/db.go:646-648 | in sync whichever of cascade and note trigger runs first |
| `NotesIndex.RunStatements` | internal/db/db.go:598-761 | after any sequence of statements: one row per note, equal to a rebuild |
| `TagNames.NormalForm` | internal/tags/tags.go:12-23 | a normalised name is its words in lower case joined by single blanks, with no blank around it and no hash in front |
| `TagNames.TrimIsBare` | internal/tags/tags.go:12-23 | trimming takes the white space off both ends, all of it and nothing else |
| `TagNames.NormalizeIdempotent` | internal/tags/tags.go:12-23 | normalising twice is normalising once, for every string and every lawful case mapping |
| `TagMeaning.NormalizedReads` | internal/tags/tags.go:12-23 | nothing visible is lost, added or moved: after the leading hashes and blanks, a normalised name has the same characters in lower case, and two neighbours stand apart exactly where white space stood between them |
| `TagMeaning.NormalizedBlanks` | internal/tags/tags.go:12-23 | the only white space is single blanks between visible characters |
| `TagMeaning.OneReading` | internal/tags/tags.go:12-23 | these two facts determine the normalised name |
| `TagNames.NormalizeName` | internal/tags/tags.go:12-23 | the loop computes the specified normal form |
| `TagNames.FirstSeenIsComplete` | internal/tags/tags.go:26-41 | de-duplication keeps exactly the non-blank names, each once |
| `TagNames.FirstSeenIsStable` | internal/tags/tags.go:26-41 | in first-seen order: names that come later only add to the end |
| `TagNames.NormalizeNames` | internal/tags/tags.go:26-41 | the result is the normalised, non-empty names without duplicates, in order of first appearance |
| `TagMerge.MergeKeepsNames` | internal/db/db.go:494-587 | each note keeps its set of normalised non-empty names, in each reference table |
| `TagMerge.MergedIsNormal` | internal/db/db.go:494-587 | afterwards all names are normalised, non-empty and distinct and no reference dangles |
| `TagMerge.SurvivorIs` | internal/db/db.go:500-567 | the tag that survives for a name is the one with the smallest id that normalises to it, renamed to it; notes are untouched |
| `TagMerge.MergeTwice` | internal/db/db.go:494-587 | a second migration changes nothing |
| `TagMerge.MoveAdvances` | internal/db/db.go:572-587 | moving one tag's references advances the merge by exactly that tag |
| `TagMerge.CopyRefs` | internal/db/db.go:576-584 | INSERT OR IGNORE adds exactly the references to the target, none of which is refused, and keeps the index in sync |
| `TagMerge.ReassignMergedTagRefs` | internal/db/db.go:572-587 | the two statements move or drop exactly the tag's references and keep the index in sync |
| `TagMerge.WholeGroup` | internal/db/db.go:500-534 | the scan's group of a name is all its tags, led by the smallest id |
| `TagMerge.GroupRow` | internal/db/db.go:512-523 | one row joins the group of its name, and a new name comes last |
| `TagMerge.GroupRows` | internal/db/db.go:500-523 | the scan collects each name's rows in row order, the names as `FirstSeen` orders them, and the blank tags |
| `TagMerge.RenameCanonical` | internal/db/db.go:562-566 | the rename never meets UNIQUE(name) |
| `TagMerge.MergeGroup` | internal/db/db.go:548-567 | one group merged and renamed, with no statement failing |
| `TagMerge.NormalizeTagNames` | internal/db/db.go:494-570 | no statement fails and the tables are the specified merge |
| `TagMerge.MigrateTags` | internal/db/db.go:494-587 | the same with the repository's own normalisation: distinct normal names, no note loses or gains one, the search index stays in sync |
| `MediaCrypto.NoncesAreDistinct` | internal/media/crypto.go:165-174 | chunk nonces under one base nonce are pairwise distinct for all 64-bit indices |
| `MediaCrypto.DigitsDetermine` | internal/media/crypto.go:170-172 | a number is determined by its bytes |
| `MediaCrypto.XorCancels` | internal/media/crypto.go:170-172 | exclusive or with a fixed byte is injective |
| `MediaCrypto.XorBits` | internal/media/crypto.go:170-172 | each bit of the exclusive or is the sum of the two bits without the carry |
| `MediaCrypto.NonceLayout` | internal/media/crypto.go:165-174 | a chunk's nonce begins with the first four bytes of the base nonce, and the other eight, with the base's taken off again, are the chunk index, least significant byte first |
| `MediaCrypto.DeriveChunkNonce` | internal/media/crypto.go:165-174 | the in-place loop computes the chunk nonce |
| `MediaCrypto.LengthRoundTrip` | internal/media/crypto.go:68-70 | a 32-bit length survives its encoding, which has the most significant byte first |
| `MediaCrypto.CiphertextSize` | internal/media/crypto.go:44-94 | the file is 9 + n + 20 * ceil(n / 2^20) bytes |
| `MediaCrypto.FileLayout` | internal/media/crypto.go:44-94 | the file byte by byte: "MEF1", version 1, the chunk size, and for the i-th mebibyte of plaintext, at offset 9 + i * (2^20 + 20), its length and its bytes sealed under the i-th nonce |
| `MediaCrypto.RoundTrip` | internal/media/crypto.go:26-163 | decrypting an encrypted file gives the plaintext back, for every length |
| `MediaCrypto.TruncatedFile` | internal/media/crypto.go:116-163 | decrypting any prefix writes only whole leading chunks and succeeds exactly when the cut is at a chunk boundary at or after the header |
| `MediaCrypto.IdealExists` | internal/media/crypto.go:38-42 | for every base nonce and file there is an AEAD that opens the file's sealed chunks, each under its own nonce, and nothing besides |
| `MediaCrypto.OpensOwnChunk` | internal/media/crypto.go:131-174 | with such an AEAD, at each position only the chunk sealed there opens, as no other position has its nonce |
| `MediaCrypto.TamperedFile` | internal/media/crypto.go:116-163 | with such an AEAD, whatever bytes are read - frames altered, reordered, repeated, dropped, added - nothing is written but the leading chunks of the file, in order and each once |
| `MediaCrypto.AcceptedIff` | internal/media/crypto.go:99-163 | with such an AEAD, decryption succeeds exactly when the header is valid and what follows it is the file's own bytes up to the end of one of its chunks, and then it writes exactly these chunks; any other byte string, and any non-empty file read with a key that sealed nothing, is an error |
| `MediaCrypto.EncryptToFile` | internal/media/crypto.go:26-94 | the streaming loop writes and hashes exactly the specified file and reports both sizes |
| `MediaCrypto.SealNext` | internal/media/crypto.go:58-77 | one pass reads the next chunk and makes its length and sealed bytes, or finds the end of the file |
| `MediaCrypto.DecryptNext` | internal/media/crypto.go:131-160 | one pass reads one frame as the format says, or reports the end or damage |
| `MediaCrypto.DecryptToWriter` | internal/media/crypto.go:99-163 | the streaming reader writes what the format determines, for arbitrary input bytes |
| `Dither.PullForm` | pkg/printer/image.go:142-160 | pushing errors forward in place equals the pull form: each cell is its grey plus 7, 1, 5 and 3 sixteenths of its visited neighbours' errors |
| `Dither.PrintedCell` | pkg/printer/image.go:142-160 | the finished image cell by cell: a dot is black exactly when the cell's grey and a sixteenth of what it received are below the threshold, and its error is what printing it so leaves over |
| `Dither.DitherBounds` | pkg/printer/image.go:142-171 | for every grey image and threshold in [0,255], each visited cell lies in [T-255, T+255] and each error in [T-255, T] |
| `Dither.GreyIsConserved` | pkg/printer/image.go:142-171 | total input grey is printed grey plus the error pushed off the borders |
| `Dither.ToneIsKept` | pkg/printer/image.go:142-171 | so tone drifts by at most (11h + 9w)/16 extreme errors either way |
| `PrinterImage.ConfiguredThreshold` | pkg/printer/image.go:20-30 | a setting in (0,255] is kept, any other gives 120 |
| `PrinterImage.ConfiguredScale` | pkg/printer/image.go:32-42 | a positive setting is kept, without an upper limit, any other gives 0.96 |
| `DarknessScale.BoundHoldsIffScaleFits` | pkg/printer/image.go:32-42 | for every width cap and threshold T, the error bound holds for all images within the cap exactly when 16 * 255 * (scale - 1) is at most (16 - K) * (255 - T), where K is the most a cell collects: 5 in one column, 13 in two, 16 from three on |
| `DarknessScale.BoundHoldsIffScaleAtMostOne` | pkg/printer/image.go:96-112 | so under every cap of three or more, the default of 512 included, exactly when the darkness scale is at most one |
| `DarknessScale.UnfitScale` | pkg/printer/image.go:142-160 | otherwise an image two rows high breaks it: all neighbours of a black cell are printed white right at the threshold |
| `Dither.BoundsFrom` | pkg/printer/image.go:142-171 | the bounds hold for every image whose greys are not too far below zero |
| `PrinterImage.GreyOfIsGrey` | pkg/printer/image.go:129-134 | every colour over white paper has a grey in [0,255] |
| `PrinterImage.GreyBlends` | pkg/printer/image.go:129-134 | transparent is white, opaque is 0.299, 0.587 and 0.114 of the 8-bit channels, and in between alpha weighs the two |
| `PrinterImage.WhiteStaysWhiteIff` | pkg/printer/image.go:129-134 | white, whose channels come multiplied by alpha already, stays white exactly when it is opaque or fully transparent |
| `PrinterImage.SampleInBounds` | pkg/printer/image.go:125-129 | nearest-neighbour sampling stays inside the source image |
| `PrinterImage.SampledIs` | pkg/printer/image.go:124-129 | the pixel shown at (x, y) is the one whose share of the copy begins at or before it and the next one's after it, counted from the corner of the bounds |
| `PrinterImage.GreyImageAt` | pkg/printer/image.go:124-140 | each cell of the grey image is its sampled pixel's grey, with the distance from white scaled |
| `PrinterImage.AspectIsKept` | pkg/printer/image.go:112-119 | the scaled height is the exact one rounded, halves up, and at least one |
| `PrinterImage.RasterKeepsTone` | pkg/printer/image.go:96-164 | every non-empty image is rasterised at the lesser of its width and the limit, which is 512 unless given, and with scale at most one its dots carry the sampled tone up to the border loss |
| `PrinterImage.DiffuseError` | pkg/printer/image.go:166-171 | adds inside the image, ignores the rest |
| `PrinterImage.VisitCell` | pkg/printer/image.go:146-159 | sets the dot and pushes the error of one cell |
| `PrinterImage.DitherInPlace` | pkg/printer/image.go:142-161 | the loops leave the specified work buffer and dots |
| `PrinterImage.SampleGrey` | pkg/printer/image.go:124-140 | fills the grey buffer with the lifted greys of the sampled pixels |
| `PrinterImage.RasterizeMono` | pkg/printer/image.go:96-164 | nil and empty images are errors; others give the specified raster |
| `PrinterImage.ImageBitColumnWidth` | pkg/printer/image.go:59-94 | fails exactly on nil and empty images; otherwise sends line spacing, the bands, and the reset |
| `EscPos.ColumnBit` | pkg/printer/image.go:78-87 | each of a column's 24 bits is its dot, most significant on top, zero below the image |
| `EscPos.HeaderWidth` | pkg/printer/image.go:76-76 | the band header is the 24-dot double-density command and carries the width exactly when it fits 16 bits |
| `EscPos.BandsRead` | pkg/printer/image.go:75-91 | a printer reading the stream gets one strip of full width per 24 rows |
| `EscPos.PrintedDots` | pkg/printer/image.go:75-91 | and prints a dot exactly where the raster is black |
| `EscPos.PackColumn` | pkg/printer/image.go:78-87 | the bit loop computes the column |
| `EscPos.PrintBand` | pkg/printer/image.go:75-90 | the column loop computes the band |
| `BackendLease.JoinedKeysDiffer` | internal/llm/backend.go:72-72 | registry keys of different base URL and model pairs differ |
| `BackendLease.KeysIdentify` | internal/llm/backend.go:65-73 | a use is counted exactly when the base URL, without white space around it and then without trailing slashes, and the model, without white space around it, are left with something, and two uses share a key exactly when both agree |
| `BackendLease.StepPreserves` | internal/llm/backend.go:65-138 | begin, release (any number of times), timers going off and late callbacks keep the registry invariant |
| `BackendLease.StopsOnlyIdleBackends` | internal/llm/backend.go:65-138 | in every interleaving the count is the number of leases held, a pending stop means none, and a stop is decided only then |
| `BackendLease.IdleBackendsAreStopped` | internal/llm/backend.go:88-135 | with stopping on, a used and idle backend has a live pending timer or was stopped since its last release |
| `BackendLease.DelayKeptIff` | internal/llm/backend.go:80-133 | with stopping on and one configured delay, every run keeps to the delay exactly when it is zero or less, so that no timer is ever made |
| `BackendLease.DelayCutShort` | internal/llm/backend.go:80-133 | for every positive delay, a run that stops a backend before the delay has passed |
| `BackendLease.GraceIsHonoured` | internal/llm/backend.go:80-133 | what goes wrong is only this: unless a use overtook a timer that had already gone off, at least the delay passes between the release that freed a backend and the callback that stops it |
| `BackendLease.TimerGoesOffIff` | internal/llm/backend.go:118-125 | the release that frees a backend makes one timer, and as long as that is not stopped it can go off exactly when the delay has passed since |
| `BackendLease.OvertakenTimerStopsEarly` | internal/llm/backend.go:80-133 | in every state where that happens, release and the old callback stop the backend at once, whatever the delay |
| `BackendLease.OvertakingHappens` | internal/llm/backend.go:80-86 | such a state is reached, with any positive delay, by use, release and wait |
| `BackendLease.Uses.BeginUse` | internal/llm/backend.go:65-88 | begin is the specified step; empty URL or model gives a lease that does nothing |
| `BackendLease.Uses.Release` | internal/llm/backend.go:88-135 | release is the specified step, and only its first call does anything |
| `BackendLease.Uses.TimerCallback` | internal/llm/backend.go:123-133 | the callback is the specified step and stops exactly when some stop is pending |
| `RequestGate.AtMostCapInside` | internal/llm/gate.go:72-95 | with a cap, at most that many requests are between acquire and release |
| `RequestGate.AcquireIff` | internal/llm/gate.go:72-79 | a slot is to be had exactly while fewer requests than the cap are inside, or always without a cap |
| `RequestGate.StartsWhen` | internal/llm/gate.go:80-87 | a request that has read the last finish starts exactly once the cooldown after it is over, however long others take |
| `RequestGate.CooldownHoldsIffCapIsOne` | internal/llm/gate.go:80-95 | every start comes at least the cooldown after every earlier finish exactly when the cap is one or no cooldown is set |
| `RequestGate.StepSerial` | internal/llm/gate.go:72-95 | with one slot, whoever waits has read the latest finish |
| `RequestGate.HostGate.TryAcquire` | internal/llm/gate.go:72-79 | takes a slot exactly when one is free |
| `RequestGate.HostGate.CooldownEnd` | internal/llm/gate.go:80-87 | the wait ends one cooldown after the last finish |
| `RequestGate.HostGate.Done` | internal/llm/gate.go:88-95 | notes the finish, then frees the slot |
| `RequestGate.RoundTrip` | internal/llm/gate.go:97-138 | one attempt, and up to RetryAttempts more while the answer is a lost connection, 429 or a code from 500 on; all with the same body, and the last answer is the result |
| `RequestGate.HostGate.Begin` | internal/llm/gate.go:80-87 | reads the last finish, sleeps while others act, and starts |
| `RequestGate.HostGate.End` | internal/llm/gate.go:88-95 | the deferred part leaves the gate from whatever state others have made of it |
| `RequestGate.HostGate.Send` | internal/llm/gate.go:49-139 | a whole request as a run of the gate with others in between: an unreadable body never enters it, and every other outcome, failure included, has left it with its slot given back |
| `FileRefs.ReferencedLossIff` | internal/media/service.go:313-601 | a file is soft-deleted while referred to exactly when a note that holds it pending is saved without naming it while another reference exists; a file that is not pending never is |
| `FileRefs.OnlyUnreferencedFilesGo` | internal/media/service.go:313-692 | so in every run, files that are not pending are soft-deleted only when unreferenced |
| `FileRefs.SharedPendingFileIsLost` | internal/media/service.go:487-512 | a run that reaches the exception |
| `FileRefs.RowsVanishIff` | internal/db/db.go:408-460 | a file row disappears exactly when the note it is pending for is deleted |
| `FileRefs.ReconcileIsExact` | internal/media/service.go:459-526 | a save succeeds exactly when the named rows exist; the note's inline references become the named files, all others stay, and exactly its live unnamed pending files are soft-deleted |
| `FileRefs.RemovalIsExact` | internal/media/service.go:414-455 | removing a file from a note drops both kinds of reference of the pair and no other, and soft-deletes the file exactly when no other note refers to it |
| `FileRefs.FailedUploadIsExact` | internal/media/service.go:313-328 | a failed upload loses its references and is soft-deleted, and that is all |
| `FileRefs.CleanUpIsExact` | internal/media/service.go:661-692 | the clean-up soft-deletes exactly the files pending since the cutoff or before that nothing refers to |
| `FileRefs.DeletionIsExact` | internal/media/service.go:531-601 | deleting a note takes its references, the files pending for it and their references; of the other files it soft-deletes exactly those it refers to that are pending for nobody and have no second reference |
| `FileRefs.ReconcileTwice` | internal/media/service.go:459-526 | saving twice with the same body is saving once |
| `FileRefs.NoteDeletionCollectsIff` | internal/media/service.go:531-582 | deleting the only note that refers to a settled file soft-deletes it exactly when the note does not both attach and embed it |
| `FileRefs.DeletedNoteLeavesFile` | internal/media/service.go:531-582 | a run that leaves such a file behind: attached to a new note, then named in its body, then the note is deleted |
| `FileRefs.StepKeepsKeys` | internal/db/db.go:408-460 | every operation keeps the foreign keys, cascades included |
| `FileRefs.Service.RemoveAttachment` | internal/media/service.go:414-455 | removes both kinds of reference of the pair and soft-deletes a file left without any |
| `FileRefs.Service.ReconcileInlineRefs` | internal/media/service.go:459-526 | one transaction: nothing is kept unless every insert succeeds; reports exactly the orphans |
| `FileRefs.Service.CollectDeletableFiles` | internal/media/service.go:531-582 | collects exactly the candidates with at most one reference and no other pending owner |
| `FileRefs.Service.SoftDeleteFiles` | internal/media/service.go:586-601 | marks exactly the given files |
| `FileRefs.Service.DeleteNote` | internal/server/notes.go:718-755 | collect, delete with cascades, soft-delete; a missing note changes nothing |
| `FileRefs.Service.PendingInlineCleanup` | internal/media/service.go:661-692 | soft-deletes exactly the abandoned pending files nothing refers to |
| `FileRefs.Service.CleanupFailedUpload` | internal/media/service.go:313-328 | drops the file's references and marks it deleted |
| `NoteScope.LocalScopeIds` | pkg/notetype/index/index.go:276-339 | on any acyclic tree the level loop ends and returns, without duplicates, exactly the siblings and all their descendants; an unknown note is an error |
| `NoteScope.OneLevel` | pkg/notetype/index/index.go:307-336 | no note is on two levels below the siblings, so none is listed twice |
| `NoteScope.ScopeIsClosed` | pkg/notetype/index/index.go:274-275 | the scope holds the note itself and all children of its members |
| `NoteScope.ScopeIsLeast` | pkg/notetype/index/index.go:276-339 | the scope is the least set that has all notes with the same parent and, of its members, all children |
| `TextSplit.SplitLongText` | internal/searchindex/searchindex.go:293-336 | for every text and limit of at least one: chunks are non-empty, trimmed, within the limit, and carry exactly the visible characters in order; a text over the limit is cut into windows with only white space between them, each as long as the limit or cut at its last white space when that is in its second half |
| `TextSplit.CutWindow` | internal/searchindex/searchindex.go:305-329 | one window: to the end of the text when the limit allows, otherwise as said; its chunk is never empty, so the fallback is unreachable |
| `TextSplit.FindSplit` | internal/searchindex/searchindex.go:315-321 | the cut is the last position after white space in the second half of the window, or its end |
| `NoteChunks.SplitParagraphs` | internal/searchindex/searchindex.go:278-291 | the paragraphs are the trimmed non-blank pieces between blank lines, and carry exactly the visible characters of the body in order, whatever its line endings |
| `NoteChunks.SplitIsExact` | internal/searchindex/searchindex.go:281-281 | splitting at blank lines: the pieces joined again are the text, none holds a blank line, and each cut is as early as can be |
| `NoteChunks.AnyLineEnding` | internal/searchindex/searchindex.go:278-281 | the paragraphs do not depend on whether lines end in LF, CR LF or CR |
| `NoteChunks.CleanTags` | internal/searchindex/searchindex.go:264-276 | each non-blank trimmed tag once, in first-seen order |
| `NoteChunks.HeaderChunks` | internal/searchindex/searchindex.go:108-124 | title, path unless it equals the title up to case, and tags, each only when not blank |
| `NoteChunks.HeadersSay` | internal/searchindex/searchindex.go:108-124 | each header chunk carries its own field, trimmed, each field that is not blank has one, the path only when it is not the title up to case, and title, path and tags come in this order |
| `NoteChunks.BuildChunks` | internal/searchindex/searchindex.go:108-134 | headers, then body chunks numbered from zero, each trimmed and within the limit, together exactly the visible characters of the body in order; a paragraph within the limit is one chunk of its own |
| `NoteChunks.ChunksAreText` | internal/searchindex/searchindex.go:143-147 | no chunk is blank, so the blank test before embedding never skips one |
| `SearchIndex.NoteIndex.EmbedChunks` | internal/searchindex/searchindex.go:141-159 | every chunk is embedded by this job's client, or the first failure ends the operation before any table changes |
| `SearchIndex.NoteIndex.SwapRows` | internal/searchindex/searchindex.go:161-198 | the transaction replaces the note's rows and vectors, or leaves the tables as they were when the note is gone |
| `SearchIndex.NoteIndex.ReplaceNoteIndex` | internal/searchindex/searchindex.go:136-202 | it succeeds exactly when every chunk is embedded and the note exists or there is nothing to insert; then the note's rows in id order are the document's headers and body chunks, and otherwise nothing changed |
| `SearchIndex.NoteIndex.DeleteNoteIndex` | internal/searchindex/searchindex.go:204-228 | drops exactly the note's rows and their vectors |
| `SearchIndex.ReplaceIsExact` | internal/searchindex/searchindex.go:136-202 | a replacement leaves exactly these chunks for the note, in order, and every other note's as they were |
| `SearchIndex.InsertedKeeps` | internal/searchindex/searchindex.go:171-198 | no row or vector insert of a replacement meets an id already in use, leftover vectors included |
| `SearchIndex.StepKeeps` | internal/searchindex/searchindex.go:136-228 | after every index replacement, index or note deletion and sweep, each chunk row belongs to a note and has a vector of its own text, though every job may have its own embedding client |
| `SearchIndex.IndexedNoteIsSearchable` | internal/searchindex/searchindex.go:108-202 | after any history, indexing a document of an existing note makes every visible character of its body searchable, in order, through rows that have their own vectors |
| `SearchIndex.LeftoverIff` | internal/server/notes.go:728-734 | a vector is left without its row exactly when the note is deleted while rows of it are still there, and goes exactly at the next sweep |
| `SearchIndex.UndisturbedDeletionIsClean` | internal/server/notes.go:728-734 | dropping the index right before the note leaves nothing of it behind |
| `SearchIndex.IndexingDuringDeletionLeaks` | internal/server/notes.go:728-734 | an indexing job between the two statements leaves a vector without a row |
| `SearchIndex.SweepIsClean` | internal/server/server.go:651-666 | the first clean-up statement leaves no vector without a row, and the second never finds a row to remove |
| `TextSplit.SolidTrim` | internal/searchindex/searchindex.go:294-294 | trimming removes only white space |
| `Retention.SlotsFillUp` | internal/backup/retention.go:107-142 | every day keeps up to three, every week and month up to one, of what they have; nothing too old is kept |
| `Retention.KeptOnTimes` | internal/backup/retention.go:107-142 | on times, without buckets: three a day within the first window, then one a week within the second, then one a month within the third, the newest first, and nothing older |
| `Retention.DeletedIsReplaced` | internal/backup/retention.go:107-142 | a deleted backup leaves a full quota of kept ones in its bucket, all at least as new |
| `Retention.NewestOfSlotIsKept` | internal/backup/retention.go:107-142 | the first of every bucket is kept, the too old never |
| `Retention.KeysArePartitioned` | internal/backup/retention.go:144-150 | every parseable key is kept or deleted, never both |
| `Retention.KeepingIsIdempotent` | internal/backup/retention.go:77-153 | in a list of the kept backups, however equal times are sorted, every one is within its quota |
| `Retention.ClassifyTwice` | internal/backup/retention.go:77-153 | classifying the keys a classification kept, by the same calendar and in any newest-first order, deletes nothing and keeps them all |
| `Retention.ParsedKeys` | internal/backup/retention.go:78-88 | keys that do not parse take no part, so they are never deleted |
| `Retention.Consider` | internal/backup/retention.go:107-142 | the three rules keep a backup exactly while its bucket has room |
| `Retention.ChooseKept` | internal/backup/retention.go:98-142 | the greedy pass collects exactly the kept keys |
| `Retention.ClassifyBackups` | internal/backup/retention.go:77-153 | for any newest-first order of distinct keys the two lists divide them, and a key is kept exactly when the policy on times says so |
| `Transcripts.ChunkWindows` | internal/media/sttchunk.go:33-43 | one window up to 30 seconds; beyond that windows of 30 seconds, the last clipped, start every 27 seconds as long as any of the file is left; they cover exactly [0, duration), and neighbours overlap by min(3, what is left) |
| `Transcripts.NoGap` | internal/media/sttchunk.go:33-43 | a linked chain of windows leaves no gap |
| `Transcripts.MergeOverlap` | internal/media/sttchunk.go:109-127 | the largest overlap of at least four words up to normalisation, or none |
| `Transcripts.MergeTranscriptions` | internal/media/sttchunk.go:132-142 | splitting into words, merging and joining: the text is the join of the merged words, each part adding all but its overlap with what precedes it, and splits into exactly those words again |
| `Transcripts.MergeNext` | internal/media/sttchunk.go:135-140 | one part adds what does not repeat the words before it |
| `Transcripts.StepDropsOverlap` | internal/media/sttchunk.go:132-142 | a step drops the one largest overlap of at least four words there is, and nothing else |
| `Transcripts.MergedGrows` | internal/media/sttchunk.go:132-142 | words once merged stay where they are |
| `Transcripts.EveryPartSurvives` | internal/media/sttchunk.go:132-142 | every part stands in the merge as a contiguous block up to normalisation, and the blocks end in order |
| `TranscriptOrder.CountsDecideOrder` | internal/media/sttchunk.go:109-142 | the word counts decide whether blocks also begin in order: part i begins after part i - 1 does, for every list of texts with these counts, exactly when an overlap of at least four words that is longer than part i - 1 has no room in part i or in the words before it |
| `TranscriptOrder.NoRoomNoOvertaking` | internal/media/sttchunk.go:109-142 | without that room no list of parts begins out of order, however words are normalised |
| `TranscriptOrder.RoomIsUsed` | internal/media/sttchunk.go:109-142 | with it, texts of new words, the last of them repeating as much as it can, do |
| `Transcripts.ShortPartIsOvertaken` | internal/media/sttchunk.go:132-142 | parts whose blocks begin out of order |
| `Teleport.OnlySentBytesAreDelivered` | frontend/src/device/teleport.js:404-454 | with any order, repeats, losses and sweeps, only byte strings that were sent are delivered, unchanged |
| `Teleport.DeliveredExactlyOnce` | frontend/src/device/teleport.js:404-454 | without repeats and sweeps a non-empty transfer is delivered exactly once when its chunks are complete, and not before |
| `Teleport.DeliveredOncePerRound` | frontend/src/device/teleport.js:404-454 | in every run, with repeats, losses and sweeps: as many deliveries as times all chunks came together since the last delivery or sweep |
| `Teleport.DeliveredAgainIff` | frontend/src/device/teleport.js:404-454 | unless swept, delivered at all exactly when all chunks arrive, and a second time exactly when after the first completion they all arrive again |
| `Teleport.StartsOver` | frontend/src/device/teleport.js:435-443 | after a completion the transfer counts as if it were new |
| `Teleport.EmptyIsNeverDelivered` | frontend/src/device/teleport.js:357-383 | an empty transfer has no chunk and is never delivered |
| `Teleport.DeliveriesArePaidFor` | frontend/src/device/teleport.js:404-454 | each delivery uses up as many arrived frames as the transfer has chunks |
| `Teleport.RepeatedSingleChunkRepeats` | frontend/src/device/teleport.js:404-454 | a transfer of one chunk is delivered exactly as often as its frame arrives, swept or not |
| `Teleport.FullMerges` | frontend/src/device/teleport.js:435-443 | enough chunks are all the chunks and merge to the bytes sent |
| `Teleport.SendBytes` | frontend/src/device/teleport.js:357-383 | the sender cuts the bytes into slices of 2^18, the last one shorter, in order, each with the length, the count and its number |
| `Teleport.CopyInto` | frontend/src/device/teleport.js:440-443 | copies one chunk into its place of the buffer |
| `Teleport.Merge` | frontend/src/device/teleport.js:438-443 | merges in place; a hole or an overflow throws, a short list leaves zeros |
| `Teleport.Inbox.HandleChunk` | frontend/src/device/teleport.js:419-454 | handling a frame is the specified step; a transfer keeps the time of its first frame |
| `Teleport.Inbox.Expire` | frontend/src/device/teleport.js:103-107 | drops the transfer exactly when it is stale |
| `Teleport.Inbox.SweepStale` | frontend/src/device/teleport.js:101-108 | the loop drops exactly the transfers that began more than 60,000 ms ago and leaves the others as they are |
| `BackupBundle.RestoreUndoesBuild` | internal/backup/bundle.go:47-311 | restoring a built bundle gives back the snapshot and every ciphertext; it fails exactly for an empty snapshot or an empty storage key |
| `BackupBundle.RestorableIff` | internal/backup/bundle.go:213-311 | which archives restore at all: a manifest must be one of version 1, a media entry must be listed by the last manifest before it with a hash that its bytes have, and in the end there must be a manifest, a non-empty database and an entry for every listed file; of each name the last entry counts |
| `BackupBundle.FetchMediaCiphertext` | internal/backup/bundle.go:150-183 | finds a copy with the expected hash exactly when some endpoint has one |
| `BackupBundle.BuildBundle` | internal/backup/bundle.go:47-85 | succeeds exactly when every live file can be fetched, and then is manifest, database and one matching ciphertext per file |
| `BackupBundle.PutEverywhere` | internal/backup/bundle.go:272-281 | stores the object at the endpoints in order, up to the first that fails |
| `BackupBundle.ReadPayload` | internal/backup/bundle.go:222-285 | reading stops at the first entry that is refused or that an endpoint fails to take; until then every endpoint holds each media object that was read, and of the failing entry the endpoints before the failure |
| `BackupBundle.InsertRows` | internal/backup/bundle.go:358-373 | one item gets a row at every endpoint, exactly when no endpoint is listed twice and none has a row for it |
| `BackupBundle.NormalizeReplicaState` | internal/backup/bundle.go:322-381 | the rows of live files are replaced by one row per manifest item and endpoint, exactly when no primary key is met twice; otherwise, and for an empty manifest, nothing changes |
| `BackupBundle.RestoreBundle` | internal/backup/bundle.go:213-311 | the database file is written exactly when the archive is restorable and every endpoint takes every object; the restore succeeds exactly when the replica rows can be written as well; in every other case exactly the objects stored before the failure are left behind |
| `BackupBundle.DatabaseIsLegacy` | internal/backup/bundle.go:201-211 | a database file never begins like a bundle |
| `BackupBundle.RestorePayload` | internal/backup/bundle.go:201-311 | anything that does not begin like a bundle is written out as the database, with no object stored; anything else, and in particular a bundle file as it was written, is restored as a bundle |
| `BackupBundle.RestoredRowsAreTrue` | internal/backup/bundle.go:287-381 | after restoring a built bundle, the rows fit exactly when no endpoint is configured twice; then a live file has a row for an endpoint exactly when its object was stored there, with its key, size and etag, and the rows of deleted files are as the snapshot has them |
| `LiveHub.EntriesAreOwn` | internal/server/live.go:185-246 | in every sequence of calls, each entry answers for the device its connection last announced, and a connection has at most one entry |
| `LiveHub.EventIs` | internal/server/live.go:185-246 | an announced device is answered by the connection that announced it, and no other entry changes but that a connection which announces or leaves gives up the one it had |
| `LiveHub.StrandedIff` | internal/server/live.go:191-199 | an entry is left to an unregistered connection exactly when such a connection announces a device |
| `LiveHub.StrandingHappens` | internal/server/live.go:185-246 | a run that leaves one: registered, unregistered, announced |
| `LiveHub.OpenEntriesOnly` | internal/server/live.go:185-246 | while only registered connections announce, every entry belongs to a registered one |
| `LiveHub.Hub.Register` | internal/server/live.go:185-189 | the new connection is registered and has no device yet |
| `LiveHub.Hub.RegisterDevice` | internal/server/live.go:191-219 | the connection answers for this device alone and the last to announce it wins; the snapshot is the user's other devices |
| `LiveHub.Hub.Unregister` | internal/server/live.go:231-246 | removes exactly this connection's entries, so a late call never evicts a newer connection |
| `LiveHub.Hub.RouteToDevice` | internal/server/live.go:221-229 | reaches only the device's own connection, never the sender or another user |
| `LinkHints.LabelsArePrefixFree` | frontend/src/composables/useNoteLinkSearch.js:83-102 | no label begins another, and different links have different labels |
| `LinkHints.AlphaIsInjective` | frontend/src/composables/useNoteLinkSearch.js:83-92 | the letter prefix determines its index |
| `LinkHints.LabelSpells` | frontend/src/composables/useNoteLinkSearch.js:83-102 | read back, a label gives its link: the letters count the tens in bijective base 26, the digits run from 1 to 9 and then 0 |
| `LinkHints.LinkHintAlphaPrefix` | frontend/src/composables/useNoteLinkSearch.js:83-92 | the loop computes bijective base 26 |
| `LinkHints.LinkHintLabelForIndex` | frontend/src/composables/useNoteLinkSearch.js:94-102 | a digit for the first ten links, then prefix and digit |
| `SearchStream.StreamEvents` | frontend/src/api.js:437-476 | the events are those of the whole text, however it was cut into reads |
| `SearchStream.LinesAreDispatched` | frontend/src/api.js:437-476 | a response made of lines, whether or not a newline ends it, gives its non-blank lines, trimmed, in order |
| `SearchStream.DrainLines` | frontend/src/api.js:464-469 | taking complete lines out of the buffer is reading it character by character |
| `SearchStream.FeedJoin` | frontend/src/api.js:460-475 | reading a text in two parts is reading it whole |

## Left out

- JSON errors in a streamed line, and letter case when comparing file hashes.
- Errors of the database, the disk and the network in the middle of an operation, other than the failures named in the models; errors the code ignores when executing a statement; cancellation of a request's context.
- Partial disk writes: a chunk file or a media object appears whole or not at all.
- SQLite itself: WAL, busy time-outs, tokenising and ranking; `GROUP_CONCAT` is some function of a set of names.
- AES-GCM, SHA-256, key generation, JSON, tar and UTF-8 decoding: given by the laws the code relies on.
- Job definitions, schedules and cron parsing, run events and the observer; stopping a manager; the names of tasks.
- Upload sessions are modelled one at a time: choosing a session by hash or placeholder in `/start`, the pending list, progress messages and the resolution of inline placeholders are not. The empty status of rows from older versions is not modelled.
- `UploadWorker.SendMissing`: does not model the pauses between attempts; whether and when the user cancels is arbitrary.
- Expiry of upload sessions by age is any removal of files and row at any time.
- The rest of the tag and note schema, full-text queries and vector queries.
- IEEE rounding in the dither and the transcript windows: both are over the reals. Rounding of the scaled height is exact.
- `PrinterImage.ImageBitColumnWidth`: writes to a buffer with other printer commands around it; the model returns the bytes this call adds.
- The HTTP request that shuts a backend down happens after the decision, outside the lock; only the decision is modelled. A speech client with an API key takes no lease at all.
- Changing the request-gate settings while requests are in flight; the model keeps one cap and one cooldown.
- `FileRefs.OnlyUnreferencedFilesGo`: deleting a note removes the rows of files pending for it outright, references of other notes included; that cascade is in the model, but the result speaks of soft deletion only.
- Repair and deletion of replicas while the server runs, and the cache; finding file ids in a note's text.
- `BackupBundle.RestoreBundle`: does not model a tar stream that is damaged in the middle, nor the times and retry counts of a replica row.
- Parsing and formatting backup times; the calendar's days, ISO weeks and months are arbitrary functions of time. Duplicate keys in a listing do not occur in `Retention.ClassifyBackups`.
- `TextSplit.SplitLongText`: asks for a limit of at least one, as the code divides by it.
- Parent links that form a cycle in `NoteScope.LocalScopeIds`: the code would not end.
- Loading a document for the search index.
- Signing, pairing and encrypting teleport frames; progress reports; text items are their bytes.
- Sending on websocket channels that are being closed.
- HTTP routing, sessions, login, S3 signing, USB, ffmpeg, language-model calls and all views: plumbing around the parts above.
