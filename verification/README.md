# A verified model of the media archive

The archive keeps media metadata, users and sessions in SQLite and media content in files. This
project models the parts of it that carry real state or arithmetic, each in the form the program
gives it, and proves what the program relies on them for. `dafny verify dfyconfig.toml` checks
everything.

**Keyed locks** (`KeyLocks`). The registry of reference-counted read/write locks, whose lock objects are
deleted and made again, as a system of atomic steps taken by any number of callers, and as a class whose
methods are proved to take those steps.

**Content files and rows** (`StorageKeys`, `MediaStores`, `ContentSaga`, `ContentServices`,
`ContentRuns`, `BoundedCopy`). Uploads with their compensation, staged deletions with Commit and
Rollback, and open readers, interleaved step by step over the locks, two file names per medium and the
item and location rows. Every file or database step may fail, and a crash may come at any point.
`ContentServices` has the same operations as sequential code over one store and the lock registry, with
the handles that hold a lock until they are finished or closed; `ContentRuns` shows that each of them,
with every result, is a run of the interleaved steps.

**Attempt limiters** (`AttemptBuckets`, `AttemptRuns`, `AttemptLimiter`, `IPAttemptLimiter`,
`LateFailures`). Fixed-window buckets with failures, reservations and a lazy sweep. The login limiter
with its two maps and the enrollment limiter with its one are classes over the same runs, which are
compared with runs that never sweep, on times that never go back behind a sweep and on failures that do.

**Directories** (`TextOrder`, `Timestamps`, `Keysets`, `Listings`, `MediaDirectory`, `AuditDirectory`,
`UserDirectory`, `LikeSearch`, `Permissions`). Keyset pages over text keys, the RFC 3339 texts that those
keys are, cursors bound to filter and limit, LIKE search with escaping, and visibility.

**Byte ranges** (`Decimal`, `ByteRanges`). One range request from the client's header to the bytes the
client ends up with, following sections 14.1.2 and 14.4 of RFC 9110, in int64; every int64 operation is
shown to fit.

**Identity** (`IdentityTables`, `IdentityDatabase`, `IdentityServices`, `IdentityRuns`,
`IdentityServiceRuns`). Users, credentials, enrollments and sessions: the transactions statement by
statement, the services over them as sequential code, and every interleaving of services that read first
and write later, logins and Resolve among them.

**Codecs** (`Base64`, `Json`, `Cursors`, `DirectoryCursors`, `PasswordHash`). The cursor texts, with a
printer and a reader of the JSON they are made of (RFC 8259), and the Argon2id hash text.

Things that came out of the proofs:

- Stored times drop the zeros of their fraction, so within one second text order is the reverse of time
  order exactly when one fraction begins the other (`Timestamps.TextOrderAgainstTime`). An audit filter
  from 12:00:00 leaves out an event at 12:00:00.5 (`AuditDirectory.ReversedAtABound`).
- The handlers read the clock before Allow and use the same time for RecordFailure, so a failure can
  reach a limiter with a time before its last sweep. Then sweeping can change an answer
  (`AttemptRuns.LateFailureShowsTheSweep`), and `LateFailures.LateFailureExactly` says for which failures
  it does in some continuation; it changes none while no time is before the last sweep.
- With the largest int64 as its maximum, `copyBounded` copies nothing, because the bound of its limit
  reader wraps around (`BoundedCopy.CopyBounded`).
- The directory's visibility test looks at one bit of the stored mask and ItemByID at all of it. The CHECK
  of the table makes them agree: a grant with that bit set and a number outside the CHECK is just what
  parts them (`Permissions.VisibilityAgreesExactly`).
- A media or audit cursor is accepted in the one text that the server issues for it
  (`Cursors.CursorIsCanonical`); a user cursor in every base64url text of a JSON object of its two fields,
  in either order and with any spaces, escapes and line breaks (`Cursors.UserCursorExactly`).
- A session whose login had read the old password before a change and whose row is inserted after it works
  (`IdentityRuns.OvertakenLogin`); a change revokes exactly the rows that are there
  (`IdentityRuns.RevokedExactly`).
- A session refused for being idle is not dead while a Resolve that had found it valid has still to touch
  it (`IdentityRuns.RefusedAndRevived`); `IdentityRuns.RefusedEverAfterExactly` says when it is.
- A media directory cursor also fits a query that differs from its own only in bytes that are not UTF-8,
  because the fingerprint is taken of the JSON (`MediaDirectory.CursorIsBound`).
- The audit repository speaks of reverse chronological order
  (internal/storage/sqlite/audit_repository.go:32); the model follows its ORDER BY, which is by text.

What the model takes from outside as parameters or assumptions: SHA-256 is injective, on contents, tokens
and the JSON of a filter; generated tokens, event identifiers and lock objects are new; `time.Parse`
followed by the comparison with the formatted time accepts exactly the formatted texts; Go's and SQLite's
lower-casing, the fold of LIKE and the text that `json.Marshal` makes of a query are fixed functions; a
file or database call that reports an error has changed nothing; the SQL engine returns the rows that
satisfy the WHERE clause in the order of the ORDER BY clause.

## Model

| member | source | states |
|---|---|---|
| `KeyLocks.KeyLockRegistry.Reference` | internal/storage/filesystem/key_locks.go:41-53 | one atomic step of the step system: hands out the mapped lock object of the key or maps a new one, and counts one reference more on it |
| `KeyLocks.KeyLockRegistry.Unreference` | internal/storage/filesystem/key_locks.go:55-66 | one atomic step of the step system: counts one reference less, and removes the key exactly when the count of this lock object reaches zero |
| `KeyLocks.KeyLockRegistry.Acquire` | internal/storage/filesystem/key_locks.go:21-39 | from a state that keeps the lock invariant, a call whose lock is available comes to hold it alone or among readers, and keeps the invariant |
| `KeyLocks.KeyLockRegistry.Release` | internal/storage/filesystem/key_locks.go:25-38 | the release function gives back exactly this acquisition and keeps the lock invariant |
| `KeyLocks.ReachableInv` | internal/storage/filesystem/key_locks.go:21-66 | in every interleaving, counts are numbers of users, mutexes hold what their holders hold, and every user's lock is the mapped one |
| `KeyLocks.OneLockPerKey` | internal/storage/filesystem/key_locks.go:41-66 | all callers that reference a key share one lock object, its count is their number, and the key is mapped exactly while there is one |
| `KeyLocks.OneWriterOrReaders` | internal/storage/filesystem/key_locks.go:21-39 | per key there is one writer alone or there are readers only, although lock objects come and go |
| `KeyLocks.ReleaseNeverPanics` | internal/storage/filesystem/key_locks.go:25-38 | no release unlocks a mutex that is not locked that way or takes a count below zero |
| `KeyLocks.AvailableExactly` | internal/storage/filesystem/key_locks.go:21-39 | the mutex of a key admits a reader or writer next if and only if the holders of that key leave room for it |
| `StorageKeys.StorageKeyInjective` | internal/storage/filesystem/content_store.go:516-518 | two valid media identifiers never share a storage key |
| `StorageKeys.StorageKeyRoundTrip` | internal/storage/filesystem/content_store.go:516-545 | the accepted keys are exactly the keys of valid media identifiers, and each leads back to its identifier |
| `MediaStores.PublishKeepsInv` | internal/storage/filesystem/content_store.go:136-161 | publishing on a free name keeps both stores coherent and makes the uploader's claim true |
| `MediaStores.InsertManagedKeepsInv` | internal/storage/sqlite/media_repository.go:87-142 | the row transaction of an upload keeps both stores coherent: the row's bytes exist |
| `MediaStores.UnpublishKeepsInv` | internal/application/media/upload.go:198-230 | the compensating Delete keeps both stores coherent, and the file it removes is the uploader's own |
| `MediaStores.StageKeepsInv` | internal/storage/filesystem/content_store.go:297-361 | hiding a published file keeps both stores coherent |
| `MediaStores.DeleteRowsKeepsInv` | internal/storage/sqlite/media_repository.go:421-481 | deleting the rows of a staged medium keeps both stores coherent |
| `MediaStores.RestoreKeepsInv` | internal/storage/filesystem/content_store.go:381-402 | Rollback finds its published name free and keeps both stores coherent |
| `MediaStores.DiscardKeepsInv` | internal/storage/filesystem/content_store.go:363-379 | Commit after the row deletion keeps both stores coherent |
| `MediaStores.WatchKeepsInv` | internal/storage/filesystem/content_store.go:164-240 | opening a published file keeps both stores coherent and makes the reader's claim true |
| `MediaStores.UpdateMetadataKeepsInv` | internal/storage/sqlite/media_repository.go:280-333 | replacing size and checksum keeps both stores coherent, at the price of the row's agreement with its bytes alone |
| `MediaStores.InsertMetadataKeepsInv` | internal/storage/sqlite/media_repository.go:35-67 | creating an item without content keeps both stores coherent |
| `MediaStores.DeleteMetadataKeepsInv` | internal/storage/sqlite/media_repository.go:352-400 | deleting an item without a location row keeps both stores coherent |
| `MediaStores.CrashKeepsInv` | internal/storage/filesystem/content_store.go:297-361 | losing every operation in a crash keeps the bytes of every location row under one of the two names |
| `ContentSaga.ReachableInv` | internal/application/media/upload.go:86-230 | every step of every operation keeps the lock invariant, the stores' coherence and the fit of processes to locks |
| `ContentSaga.RowsNeverLoseTheirBytes` | internal/storage/sqlite/media_repository.go:421-481 | in every reachable state, crashes included, a location row's own bytes are published or staged, with its size and checksum unless UpdateItem replaced them |
| `ContentSaga.FailedUploadLeavesNothing` | internal/application/media/upload.go:86-230 | an upload that reported an error leaves, then and ever after, no row, and no file either unless its compensating Delete failed |
| `ContentSaga.CompensationFindsItsFile` | internal/application/media/upload.go:198-230 | under its lock the compensating Delete meets the file this upload published, whatever ran in between |
| `ContentSaga.StagedStaysGuarded` | internal/storage/filesystem/content_store.go:297-402 | staged content stays hidden and unchanged, its published name free, under this write lock alone until Commit or Rollback succeeds |
| `ContentSaga.HiddenFileStays` | internal/storage/filesystem/content_store.go:350-402 | the file a deletion hides at any later point is the one it staged |
| `ContentSaga.RollbackRestores` | internal/storage/filesystem/content_store.go:381-402 | whatever ran since StageDelete, Rollback meets a free name and puts back the same file |
| `ContentSaga.RowsStay` | internal/application/media/managed_deletion.go:49-138 | whatever runs while an operation hides a file and has not deleted the rows, item and location row stay, with the metadata of that time unless UpdateItem replaced it |
| `ContentSaga.FailedDeletionLeavesBoth` | internal/application/media/managed_deletion.go:94-117 | a deletion whose row deletion failed leaves, unless its Rollback fails, file and rows as they were at StageDelete, whatever ran in between, metadata included unless UpdateItem ran |
| `ContentSaga.DeletedMeansGone` | internal/application/media/managed_deletion.go:118-138 | a deletion that succeeds leaves no location row and no file under either name |
| `ContentSaga.ReaderKeepsItsBytes` | internal/storage/filesystem/content_store.go:164-240 | the bytes behind an open reader stay published and unchanged until Close |
| `ContentSaga.OneNameAtATime` | internal/storage/filesystem/content_store.go:297-361 | without crashes a file has one name at a time, and a hidden one belongs to a deletion that still holds its write lock |
| `ContentServices.Archive.UploadItem` | internal/application/media/upload.go:86-230 | an error leaves rows and files as they were unless the compensating Delete failed, which leaves the file alone; without faults the outcome is determined; the lock is free again |
| `ContentServices.Archive.DeleteItem` | internal/application/media/managed_deletion.go:49-138 | a refused, unstaged or rolled-back deletion changes nothing, a successful one leaves neither rows nor file, a failed Commit leaves the hidden file alone; the lock is free again unless Rollback or Commit failed, and then nobody gets it |
| `ContentServices.Archive.Put` | internal/storage/filesystem/content_store.go:67-162 | publishes exactly everything the source had, if that is not empty and within the limit, under a free name of a valid medium, and gives the lock back; says which of the program's reasons it was otherwise, and changes nothing |
| `ContentServices.Archive.Delete` | internal/storage/filesystem/content_store.go:244-294 | removes the published file, or changes nothing |
| `ContentServices.Archive.CreateManaged` | internal/storage/sqlite/media_repository.go:87-142 | inserts item and location together, or changes nothing |
| `ContentServices.Archive.DeleteManaged` | internal/storage/sqlite/media_repository.go:421-481 | deletes item and location together, or changes nothing |
| `ContentServices.Archive.DeleteMetadata` | internal/application/media/managed_deletion.go:140-165 | deletes an item that has no location row, or changes nothing |
| `ContentServices.Archive.StageDelete` | internal/storage/filesystem/content_store.go:297-361 | moves the published file to the hidden name and keeps the write lock, or changes nothing and gives the lock back |
| `ContentServices.Archive.Open` | internal/storage/filesystem/content_store.go:164-240 | gives a reader of the published bytes at their start that holds a read lock of its own, or gives the lock back |
| `ContentServices.Archive.OpenItem` | internal/application/media/content_reading.go:83-189 | a reader only of an existing item with a location whose file has the size of its metadata; a reader it refuses is closed again |
| `ContentServices.StagedDeletion.Commit` | internal/storage/filesystem/content_store.go:363-379 | removes the hidden file, finishes, and gives back this deletion's acquisition of the lock; a failure changes nothing and keeps the lock, a second success is impossible |
| `ContentServices.StagedDeletion.Rollback` | internal/storage/filesystem/content_store.go:381-402 | restores the file on a free name, finishes, and gives back this deletion's acquisition of the lock; a failure changes nothing and keeps the lock |
| `ContentServices.LockedFile.Read` | internal/storage/filesystem/content_store.go:411-419 | what is left to read is what the buffer got followed by what is left afterwards; at least one byte unless the buffer has no room or the content ends, which is reported alone; an error once closed |
| `ContentServices.LockedFile.Seek` | internal/storage/filesystem/content_store.go:421-429 | moves to the target exactly when the file is open and the target is a nonnegative int64 |
| `ContentServices.LockedFile.Close` | internal/storage/filesystem/content_store.go:431-443 | the first call gives back this reader's acquisition of the lock and no other; later calls report an error and release nothing |
| `ContentRuns.UploadIsARun` | internal/application/media/upload.go:86-230 | what UploadItem does by itself, with any result, one operation of ContentSaga does step by step from every reachable state in which the lock is free, lock steps included |
| `ContentRuns.DeleteIsARun` | internal/application/media/managed_deletion.go:49-138 | what DeleteItem does by itself, with any result, is such a run too; after a failed Rollback or Commit the operation is left holding the lock and the hidden file |
| `ContentRuns.OpenIsARun` | internal/storage/filesystem/content_store.go:164-240 | opening a reader is such a run, beside other readers if there are some |
| `ContentRuns.CloseIsARun` | internal/storage/filesystem/content_store.go:431-443 | from every reachable state, closing a reader gives back its lock alone and changes no store |
| `BoundedCopy.CopyBounded` | internal/storage/filesystem/content_store.go:445-485 | uninterrupted, copies a source that fits exactly and counts it, otherwise reports TooLarge after limit + 1 bytes; terminates for every chunking |
| `AttemptBuckets.SweepMap` | internal/application/authentication/limiter.go:232-251 | the sweep drops exactly the buckets whose window is over |
| `AttemptLimiters.AttemptLimiter.CleanupExpired` | internal/application/authentication/limiter.go:232-251 | sweeps both maps when a sweep is due and sets the next one a window later |
| `AttemptBuckets.PrunedDecides` | internal/application/authentication/limiter.go:178-230 | from the last sweep on, a dropped bucket and one whose window is over lead to the same decisions and the same new buckets |
| `AttemptBuckets.DroppedExactlyWhenOver` | internal/application/authentication/limiter.go:178-230 | a bucket can be dropped unnoticed by an operation at a given time if and only if its window is over at that time |
| `AttemptBuckets.SweepUnnoticedExactly` | internal/application/authentication/limiter.go:178-251 | no decision, reservation or recorded failure at a time depends on a sweep, whatever the map holds, if and only if the time is not before the sweep |
| `AttemptBuckets.ReserveKeepsBudget` | internal/application/authentication/limiter.go:192-208 | a permitted reservation keeps failures plus pending within the limit plus the failures that found no reservation |
| `AttemptBuckets.FailureKeepsBudget` | internal/application/authentication/limiter.go:210-230 | a recorded failure keeps that budget and takes no counter below zero |
| `AttemptBuckets.ReleaseKeepsBudget` | internal/application/authentication/limiter.go:147-167 | a release keeps that budget and takes no counter below zero |
| `AttemptLimiters.AttemptLimiter.Allow` | internal/application/authentication/limiter.go:46-87 | answers by both buckets after the sweep, and reserves in both maps or in neither |
| `AttemptLimiters.AttemptLimiter.RecordFailure` | internal/application/authentication/limiter.go:90-112 | sweeps, then turns a reservation into a failure in both maps |
| `AttemptLimiters.AttemptLimiter.RecordSuccess` | internal/application/authentication/limiter.go:115-127 | forgets the user's bucket and releases one reservation of the address |
| `AttemptLimiters.AttemptLimiter.Cancel` | internal/application/authentication/limiter.go:130-145 | releases one reservation in both maps |
| `AttemptRuns.SweepingIsInvisible` | internal/application/authentication/limiter.go:46-251 | for any number of maps and on every run whose times are never before the last sweep, Allow answers as in a limiter that never sweeps |
| `AttemptRuns.NondecreasingInOrder` | internal/application/authentication/limiter.go:232-251 | every run with nondecreasing nonzero times is such a run |
| `AttemptRuns.StoredBucketsAreRecent` | internal/application/authentication/limiter.go:232-251 | after any Allow or RecordFailure at a time, every stored bucket started later than two windows before it |
| `AttemptRuns.CountersCount` | internal/application/authentication/limiter.go:46-230 | a stored bucket's failures plus pending are the attempts let in since its window began, less those released, plus the failures without a reservation; letting one in never takes that above the limit |
| `IPAttemptLimiters.IPAttemptLimiter.Allow` | internal/application/passwords/limiter.go:38-59 | answers by the address's bucket after the sweep, and reserves exactly when it answers yes |
| `IPAttemptLimiters.IPAttemptLimiter.RecordFailure` | internal/application/passwords/limiter.go:62-75 | sweeps, then turns a reservation of the address into a failure |
| `IPAttemptLimiters.IPAttemptLimiter.RecordSuccess` | internal/application/passwords/limiter.go:78-83 | forgets the address's bucket |
| `IPAttemptLimiters.IPAttemptLimiter.Cancel` | internal/application/passwords/limiter.go:86-106 | releases one reservation of the address and drops a bucket left empty |
| `IPAttemptLimiters.IPAttemptLimiter.CleanupExpired` | internal/application/passwords/limiter.go:161-173 | sweeps the map when a sweep is due and sets the next one a window later |
| `AttemptRuns.LateFailureShowsTheSweep` | internal/api/password_enrollment.go:129-161 | a failure recorded with a time before the last sweep can change a later answer of Allow |
| `LateFailures.LateFailureExactly` | internal/application/authentication/limiter.go:90-112 | after a run in order, a failure with a time before the last sweep goes unnoticed in every continuation in order if and only if in each map its key is stored, or the window of its unswept bucket was over at that time, or the window it starts is over by the last sweep |
| `TextOrder.LtTransitive` | internal/storage/sqlite/audit_repository.go:70-81 | text comparison is transitive |
| `TextOrder.LtTotal` | internal/storage/sqlite/audit_repository.go:70-81 | any two different texts are ordered |
| `TextOrder.LtAsymmetric` | internal/storage/sqlite/audit_repository.go:70-81 | never both ways |
| `Timestamps.FieldsAreSeconds` | internal/storage/sqlite/audit_repository.go:50-57 | the calendar order of two UTC times is the order of their seconds since year 0 |
| `Timestamps.TextOrderAgainstTime` | internal/storage/sqlite/audit_repository.go:50-81 | text order of RFC3339Nano texts is time order, and exactly the reverse for two times of one second of which one fraction begins the other |
| `Timestamps.FormatInjective` | internal/storage/sqlite/media_repository.go:211-222 | a stored text stands for one time |
| `Timestamps.HalfSecondIsReversed` | internal/storage/sqlite/audit_repository.go:70-81 | half a second past noon is stored before noon |
| `Keysets.OrderedSpec` | internal/storage/sqlite/media_repository.go:221-222 | the ordered result has exactly the selected keys, each once, in strict order |
| `Keysets.PageSpec` | internal/application/media/directory.go:159-181 | a page holds the first keys after its cursor; it names a next cursor exactly when more remain, is then full, and leaves out only keys after it |
| `Keysets.NoRepeats` | internal/application/auditing/directory.go:125-149 | whatever happens to the rows between pages, the listed keys are strictly in order |
| `Keysets.NoGaps` | internal/application/auditing/directory.go:125-149 | a key present at every page is listed once the pages end |
| `Keysets.StaticListing` | internal/application/users/pagination.go:130-152 | over an unchanged table the pages together are the whole ordered result |
| `Keysets.StaticPagesEnd` | internal/application/users/pagination.go:130-152 | over an unchanged table the pages end: those with a next cursor hold fewer rows than there are |
| `LikeSearch.ThreePassesAreOne` | internal/storage/sqlite/media_repository.go:271-276 | the three replacements equal one escape per character |
| `LikeSearch.LikeFindsSubstrings` | internal/storage/sqlite/media_repository.go:193-205 | the pattern made of any query matches exactly the texts that contain the query, up to the fold |
| `Permissions.NewPermissionSet` | internal/media/permission.go:105-135 | succeeds exactly for a nonempty list of distinct valid permissions, and the set has exactly those |
| `Permissions.Values` | internal/media/permission.go:150-163 | lists exactly the permissions of a set, ascending, and none for an invalid set |
| `Permissions.Authorize` | internal/media/policy.go:11-53 | malformed input is refused in the program's order; otherwise the owner, or a user with a valid matching grant, is allowed and nobody else |
| `Permissions.MediaGrantRepository.Save` | internal/storage/sqlite/media_grant_repository.go:43-83 | stores exactly the valid grants, one per medium and user, replacing the whole mask; every stored grant stays valid |
| `Permissions.MediaGrantRepository.Delete` | internal/storage/sqlite/media_grant_repository.go:176-214 | removes the one grant of a medium and user, or reports that there is none |
| `Permissions.DirectoryAgreesWithItemByID` | internal/application/media/service.go:316-353 | while saved grants are valid, the directory's visibility condition holds for an active actor exactly when ItemByID returns the item |
| `Permissions.TableHoldsValidGrants` | internal/storage/sqlite/media_grant_repository.go:216-238 | for valid identifiers, validateStoredGrant accepts exactly the numbers 1 to 63 that the CHECK of the table admits |
| `Permissions.VisibilityAgreesExactly` | internal/storage/sqlite/media_repository.go:177-191 | whatever the rows hold, the directory and ItemByID agree about an item if and only if the actor owns it, has no grant, has the bit clear, or the number is one that the table admits |
| `MediaDirectory.LoadItems` | internal/storage/sqlite/media_repository.go:256-263 | loads the listed rows in their order |
| `MediaDirectory.ListItemsReturnsAPage` | internal/application/media/directory.go:115-182 | a call succeeds exactly for an acceptable actor, filter, limit and cursor, and returns one keyset page with a cursor bound to filter and limit |
| `MediaDirectory.CursorIsBound` | internal/application/media/directory.go:142-157 | an issued cursor is accepted exactly with its own limit, type and a query of the same JSON text |
| `MediaDirectory.PagesDoNotRepeat` | internal/application/media/directory.go:159-181 | following the cursor over changing tables lists no item twice, newest text first |
| `MediaDirectory.PagesMissNothing` | internal/application/media/directory.go:159-181 | an item that matches at every page is listed |
| `MediaDirectory.SelectedExactly` | internal/storage/sqlite/media_repository.go:177-210 | the SELECT keeps exactly the items that contain the query in title or author, have the type, and that ItemByID would return |
| `MediaDirectory.PagesHoldExactlyTheVisible` | internal/storage/sqlite/media_repository.go:177-223 | over unchanged tables the pages together hold exactly the matching items that ItemByID would return |
| `Listings.SliceIsAPage` | internal/application/users/pagination.go:130-152 | the limit + 1 trick over rows is a keyset page of their keys, and every listed row is a stored, wanted one |
| `Listings.RowsDoNotRepeat` | internal/application/auditing/directory.go:125-149 | following the cursor over changing tables lists rows strictly in order |
| `Listings.RowsMissNothing` | internal/application/auditing/directory.go:125-149 | a row there and wanted at every page is listed |
| `Listings.RowsOfAStaticTable` | internal/storage/sqlite/user_repository.go:547-564 | over an unchanged table exactly the wanted rows are listed |
| `Listings.SlicesEnd` | internal/application/users/pagination.go:139-152 | over an unchanged table the pages end: those with a next cursor hold fewer rows than are wanted |
| `AuditDirectory.Conditions` | internal/storage/sqlite/audit_repository.go:48-77 | the appended conditions together mean the filter and the cursor |
| `AuditDirectory.WindowIsChronological` | internal/storage/sqlite/audit_repository.go:50-57 | outside the reversed case the from/to filter is the half-open interval of time |
| `AuditDirectory.ReversedAtABound` | internal/storage/sqlite/audit_repository.go:50-57 | in the reversed case each bound decides the other way round |
| `AuditDirectory.AuditService.Append` | internal/storage/sqlite/audit_repository.go:28-30 | stores exactly a valid event with a new identifier and touches no other, so every stored event could be a cursor |
| `AuditDirectory.AuditService.ListEvents` | internal/application/auditing/directory.go:98-150 | rejects in the program's order without a trace; otherwise records its own event first and answers from the table that holds it |
| `AuditDirectory.CursorIsBound` | internal/application/auditing/directory.go:170-181 | an issued cursor is accepted with its own filter and limit and with no other |
| `AuditDirectory.EarlierEventsAreListedOnce` | internal/application/auditing/directory.go:98-150 | although every page appends an event, each selected event that was there at the first page is listed exactly once |
| `UserDirectory.ListUsersReturnsASlice` | internal/application/users/pagination.go:102-153 | a call with a valid limit and cursor never fails and returns one ascending keyset page |
| `UserDirectory.StayingUsersAreListedOnce` | internal/storage/sqlite/user_repository.go:547-564 | a user that stays is listed exactly once, oldest first, whatever happens to others between pages |
| `Decimal.ParseChecked` | internal/api/content_range.go:74-90 | accepts exactly a nonempty run of digits whose value fits int64, with that value |
| `Decimal.ParsePrint` | internal/client/media_content.go:272-283 | a printed nonnegative int64 is read back |
| `ByteRanges.AcceptedRanges` | internal/api/content_range.go:16-72 | the server selects an interval exactly for one unit `bytes` in any case, `=`, and two runs of digits about one hyphen that RFC 9110 allows for the size |
| `ByteRanges.SelectionShape` | internal/api/content_range.go:16-72 | a selected interval is nonempty and inside the file; the whole file is served exactly without a Range header |
| `ByteRanges.ServerSelectsWhatWasAsked` | internal/client/media_content.go:158-183 | the server rejects a client-built range exactly when its first byte is at or past the size, and otherwise selects just those bytes |
| `ByteRanges.ContentRangeRoundTrip` | internal/client/media_content.go:254-270 | a printed Content-Range is read back as the same interval and total |
| `ByteRanges.MatchesExactlyTheSelection` | internal/client/media_content.go:285-309 | of all valid intervals with a given total, `matches` accepts the one the server selects, and none when it rejects |
| `ByteRanges.Serve` | internal/api/media_content.go:86-150 | answers with status, length, range and body of the selection or with an internal error; content goes out only with its access on record, and a broken connection only takes away the end of the body |
| `ByteRanges.ClientGetsWhatItAskedFor` | internal/client/media_content.go:85-156 | end to end, the client writes exactly the bytes it asked for, or is refused: when the file has none of them, and when any part of the answer did not arrive |
| `IdentityTables.UpdateKeepsSound` | internal/storage/sqlite/user_repository.go:203-255 | a committed update keeps an active administrator and the enrollment rule, whatever stale value it writes |
| `IdentityTables.CreateKeepsSound` | internal/storage/sqlite/user_repository.go:110-174 | a committed creation keeps an active administrator and the enrollment rule |
| `IdentityTables.DeleteKeepsSound` | internal/storage/sqlite/user_repository.go:276-370 | a committed deletion keeps an active administrator and the enrollment rule |
| `IdentityTables.BootstrapIsSound` | internal/storage/sqlite/admin_bootstrap.go:31-107 | the bootstrap makes an active administrator with a credential |
| `IdentityTables.DeletionIsRefusedForTheLastAdministrator` | internal/storage/sqlite/user_repository.go:298-309 | a deletion is refused for the last administrator exactly when no active administrator would remain |
| `IdentityTables.DeletionLeavesNoRow` | internal/storage/sqlite/user_repository.go:311-357 | a committed deletion leaves no grant, session, enrollment or credential of the user, and keeps those of everyone else |
| `IdentityDatabase.Database.UpdatePreservingLastAdministrator` | internal/storage/sqlite/user_repository.go:203-255 | commits the whole update or leaves every row, with the program's reasons in its order |
| `IdentityDatabase.Database.CreateWithAudit` | internal/storage/sqlite/user_repository.go:110-174 | inserts a user with a new identifier and username, or changes nothing |
| `IdentityDatabase.Database.DeletePreservingLastAdministrator` | internal/storage/sqlite/user_repository.go:276-370 | commits all its deletes or rolls every row back, whichever statement fails |
| `IdentityDatabase.Database.SaveForCredentiallessUser` | internal/storage/sqlite/password_enrollment_repository.go:52-121 | saves or replaces the enrollment of an existing user without a credential, or changes nothing |
| `IdentityDatabase.Database.FindByTokenHash` | internal/storage/sqlite/password_enrollment_repository.go:124-185 | finds a user whose enrollment has the token, or there is none |
| `IdentityDatabase.Database.CreateCredentialAndConsume` | internal/storage/sqlite/password_enrollment_repository.go:222-323 | creates the credential and consumes the enrollment together, or changes nothing |
| `IdentityDatabase.Database.ChangePasswordAndRevokeSessions` | internal/storage/sqlite/password_credential_repository.go:124-182 | replaces the hash and revokes every session of the user together, or changes nothing |
| `IdentityDatabase.Database.BootstrapAdmin` | internal/storage/sqlite/admin_bootstrap.go:31-107 | inserts administrator and credential into an empty user table, or changes nothing |
| `IdentityDatabase.Database.Touch` | internal/storage/sqlite/session_repository.go:200-232 | moves the last-seen time of an unrevoked session and of no other |
| `IdentityDatabase.Database.RevokeWithAudit` | internal/storage/sqlite/session_repository.go:258-296 | revokes an unrevoked session with its event, or changes nothing |
| `IdentityDatabase.Database.Resolve` | internal/application/sessions/service.go:217-275 | succeeds only for a valid session of an active user, which it touches; without a database error it fails only for an invalid one |
| `IdentityServices.ChangeUser` | internal/application/users/service.go:174-384 | writes the requested change over what it has read, refuses an administrator's lockout of itself and changes without effect, or leaves every row |
| `IdentityServices.DeleteUser` | internal/application/users/service.go:466-516 | deletes another user by one transaction, never the actor, or leaves every row |
| `IdentityServices.IssueEnrollment` | internal/application/passwords/service.go:105-199 | saves an enrollment from now for a positive lifetime, or leaves every row, with the program's reasons in its order |
| `IdentityServices.CompleteEnrollment` | internal/application/passwords/service.go:276-371 | from a sound state, succeeds exactly with the token of a stored enrollment that is valid now, which a credential then replaces |
| `IdentityServices.RevokeSession` | internal/application/sessions/service.go:278-325 | revokes an unrevoked session with its event once; an unknown or revoked one is no error and changes nothing |
| `IdentityServiceRuns.ChangeUserIsARun` | internal/application/users/service.go:174-384 | what ChangeUser does by itself, with any reply, is a read and a write of one operation of IdentityRuns from every state, and nothing else changes |
| `IdentityServiceRuns.DeleteUserIsARun` | internal/application/users/service.go:466-516 | what DeleteUser does by itself is one such step or none |
| `IdentityServiceRuns.IssueEnrollmentIsARun` | internal/application/passwords/service.go:105-199 | what IssueEnrollment does by itself with a new token is such a step; the token becomes the latest of its user |
| `IdentityServiceRuns.CompleteEnrollmentIsARun` | internal/application/passwords/service.go:276-371 | what CompleteEnrollment does by itself is a look and a completion of one operation, which use up its token and no other |
| `IdentityServiceRuns.RevokeSessionIsARun` | internal/application/sessions/service.go:278-325 | what RevokeSession does by itself is one such step or none |
| `IdentityServiceRuns.ResolveIsARun` | internal/application/sessions/service.go:217-275 | a Resolve that succeeds by itself is a look and a touch of one operation |
| `IdentityServiceRuns.ServicesMayRun` | internal/application/passwords/service.go:276-371 | what CompleteEnrollment asks of the tables holds in every run |
| `IdentityRuns.StepKeepsSound` | internal/application/users/service.go:174-384 | every committed step of every service keeps an active administrator and the enrollment rule |
| `IdentityRuns.StepKeepsEnrollments` | internal/application/passwords/service.go:276-371 | every step keeps stored enrollments the latest issued and unused, and pending completions true to what was issued |
| `IdentityRuns.StepKeepsSessions` | internal/application/sessions/service.go:217-325 | every step keeps session rows in line with their login, last use, revocation and events, and pending touches true to a look |
| `IdentityRuns.AlwaysAnActiveAdministrator` | internal/application/users/service.go:174-384 | in every run from the bootstrap on, stale updates included, an active administrator remains and no second bootstrap commits |
| `IdentityRuns.EnrollmentOrCredential` | internal/storage/sqlite/password_enrollment_repository.go:52-121 | no user has both an enrollment and a credential, and both belong to existing users |
| `IdentityRuns.CompletionsAreSound` | internal/application/passwords/service.go:276-371 | a completion commits only with the latest token issued to its user, unused, within created and expires of the service clock |
| `IdentityRuns.TokensWorkOnce` | internal/storage/sqlite/password_enrollment_repository.go:222-323 | no token creates two credentials in any run |
| `IdentityRuns.ResolveIsSound` | internal/application/sessions/service.go:217-275 | a successful Resolve looked at the session at a moment of the run when its user was active and it was unrevoked and used within the idle timeout; when it commits the session still is unrevoked, no password change has come since its row, and the time of the look is within its lifetime |
| `IdentityRuns.RevokedExactly` | internal/storage/sqlite/password_credential_repository.go:124-182 | a stored session is revoked if and only if it was revoked singly or its row was inserted before the latest password change of its user, whatever its login had read |
| `IdentityRuns.OvertakenLogin` | internal/application/sessions/service.go:115-179 | a login that a password change overtakes between its authentication and its row gets a session that is found valid |
| `IdentityRuns.FoundExactly` | internal/session/session.go:81-109 | a look finds the session of an active user valid exactly when it is unrevoked, within its lifetime and not idle too long |
| `IdentityRuns.DeadStaysDead` | internal/session/session.go:81-109 | no step brings back a session that is deleted, revoked, expired, or idle together with every look at it that has still to touch it |
| `IdentityRuns.RefusedEverAfterExactly` | internal/application/sessions/service.go:217-275 | the session of an active user is found valid in no continuation if and only if it is revoked, expired, or idle together with every look at it that has still to touch it |
| `IdentityRuns.RefusedAndRevived` | internal/application/sessions/service.go:252-275 | a run in which a session is refused for being idle and found valid again after a touch that was on its way |
| `IdentityRuns.OneRevocationEvent` | internal/storage/sqlite/session_repository.go:258-296 | each session gets at most one session.revoked event |
| `Base64.DecodeEncode` | internal/password/hasher.go:126-136 | encoded bytes decode to themselves, in both alphabets, without a `$` in the text |
| `Base64.DecodeIgnoresABreak` | internal/api/user_directory.go:171-178 | a line break in the text changes nothing for the decoder |
| `Json.ReadObjectSound` | internal/api/user_directory.go:202-272 | what the reader reads of a text is written there: the text is one object of those members by the grammar |
| `Json.ReadObjectComplete` | internal/api/user_directory.go:202-272 | every text that the grammar allows for an object of texts and numbers is read as its members |
| `Json.ReadPrinted` | internal/api/media_directory.go:144-180 | what is printed of plain named texts and numbers is read back, every field of it |
| `Cursors.BoundReadsBack` | internal/api/media_directory.go:144-210 | the document of a media or audit cursor is read back from its JSON with all its fields |
| `Cursors.DecodeUserCursorDocument` | internal/api/user_directory.go:202-272 | the loop over tokens with its set of seen fields takes exactly one object of known fields, none twice, and nothing after it, and returns their texts |
| `Cursors.EncodedFits` | internal/api/media_directory.go:168-171 | no issued cursor is longer than the decoder's limit |
| `Cursors.CursorRoundTrip` | internal/api/media_directory.go:144-210 | every valid media or audit cursor comes back from its text, through JSON and base64url |
| `Cursors.CursorIsCanonical` | internal/api/audit_directory.go:226-261 | a media or audit text decodes to a cursor if and only if it is the encoding of that valid cursor |
| `Cursors.UserCursorExactly` | internal/api/user_directory.go:165-272 | a text is accepted as a user cursor if and only if it is a base64url text of one JSON object of its two canonical fields, in either order and with any spacing and escaping |
| `Cursors.UserCursorRoundTrip` | internal/api/user_directory.go:146-200 | every valid user cursor comes back from its text |
| `DirectoryCursors.MediaCursorReturns` | internal/api/media_directory.go:144-210 | a valid cursor of the media directory comes back from its text as itself and as no other of a different fingerprint |
| `DirectoryCursors.AuditCursorReturns` | internal/api/audit_directory.go:200-261 | a valid cursor of the audit directory comes back from its text as itself and as no other of a different fingerprint |
| `PasswordHash.ScanPrinted` | internal/password/hasher.go:139-201 | printed cost parameters are read back, each of the three |
| `PasswordHash.ParseHashExactly` | internal/password/hasher.go:139-201 | a text parses to a hash exactly when it is the six printed fields of valid parameters with texts that decode to a salt and key of those lengths |
| `PasswordHash.ParseEncodedHash` | internal/password/hasher.go:121-201 | an encoded hash parses back to the same parameters, salt and key |
| `PasswordHash.VerifyComparesKeys` | internal/password/hasher.go:77-119 | a password verifies against a stored hash exactly when Argon2id derives the same key, so every password verifies against its own |

## Left out

- Liveness of staged deletions: a failed Commit or Rollback keeps its write lock by design, so only safety is stated.
- ContentSaga.FailedUploadLeavesNothing: speaks of the compensating Delete, not of the error the caller sees, because a failed audit append hides the failed compensation from the caller.
- ContentServices.Archive.Put: takes the reason of a failure in the temporary file, in directories and in permissions as one, and leaves those files out.
- KeyLocks.KeyLockRegistry.Acquire: is acquireRead and acquireWrite in one; a call that would have to wait is in the step system only.
- MediaDirectory.PagesHoldExactlyTheVisible: lower-casing differs between Go and SQLite outside ASCII; the two functions are parameters, so an item whose folds differ is not found.
- Json.ReadObjectComplete: speaks of texts and decimal numbers; other values, which no accepted cursor holds, are refused, and bytes outside ASCII stand for themselves.
- IdentityRuns.ResolveIsSound: the two reads and the clock of a Resolve are one step, as are the reads of a login, whose user may be inactive by then.
- IdentityDatabase.Database.Resolve: a revocation at the zero time counts as none for the validity check; the clock of a run is never zero.
- Field validators, password rules, titles, MIME types and file names, and the update of media metadata beyond its effect on size and checksum.
- Audit events other than the listing's own and session.revoked, denial events, and the handling of errors in recording them.
- HTTP routing and response writing beyond range and cursor handling, TLS, configuration, consoles and migrations.
- SHA-256, Argon2id, randomness, real directories and permissions, and the SQL engine beyond text comparison and LIKE.
