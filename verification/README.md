# Models of the file upload, lease, rate limit, scan, relation and policy code

A Dafny model of the stateful core of the server and proofs of what it promises. `dafny verify dfyconfig.toml` checks everything.

The main part is the **upload protocol**. An upload is spread over a session row, a durable multipart row, an entry in the memory of the client, backend objects, a file row and an append-only feed. Part uploads, merges, completions, cancels, deletes and the hourly sweep interleave between single KV and S3 calls, and only part of that work is under the lock of the id. `UploadModel` is a step machine with one step per call, any number of processes, a lock, a clock, processes that end at any point (an error return, a failed append, a dropped request) and crashes that lose the memory. The machine follows one file id. `UploadSystem` is the whole server: stores keyed by file id and by upload id, one feed, requests on any ids and sweeps that list once and then walk all ids; `UploadSystem.SystemProjects` proves that each of its runs is, for every id, a run of the one-id machine, so the results hold for every id. `UploadInvariant` proves the invariant: what each process knows at its program point survives every step of the others. `UploadTheorems` states the results over every run, `UploadRuns` walks through runs that show which hypotheses cannot be dropped, and `UploadFutures` says of each promise that can fail exactly from which states no further run breaks it. `UploadHistory` says what a step rests on: what must have happened before in the same run. `UploadAlone` gives the outcome of each request and of each pass of a sweep from any state when nobody else moves, and `UploadWhole` that of a whole upload with its parts in any order. `FileUse` joins the machine of a file with the relations, so that the count that the file pass reads is the one that attach and detach keep. `Multipart` is the state map of the object store client and `SessionLocks` the lock map, both as classes that change in place.

Around it: `Lease` (the single-writer lease as a protocol of any number of processes over one versioned object), `TokenBucket` (the rate limiter with its evicting map), `Keys`, `KvPages` and `FileScans` (the ordered store, the paged walk under concurrent writes, the two ways to read all file records), `RelationKeys` and `Relations` (reference counts), `PolicyKeys` and `PolicyAdapter` (the rule store), `PartTiling` (how parts make a file) and `ByteRange` (the `Range` header, RFC 9110 sections 14.1.2 and 14.2).

## Where the code does less than its comments say

The model follows the code. Each of these is a lemma.

- A lease record stamped later than `now` is read as stale, not as live (`Lease.LiveAsDocumented`, comment at src/lease.rs:96-98). Two processes can then serve although every write was in time (`Lease.FutureStampSplitsBrain`). A renewal that is written after its TTL has the same effect (`Lease.LateRenewalSplitsBrain`). A take-over gives two holders exactly when the holder of the judged record has not run out, and the new record neither (`Lease.TakeOverSplitsIff`); over a run, the stored record names every unexpired holder exactly as long as no call changes the object while somebody else holds unexpired (`Lease.AlwaysNamedIff`). The delete of a release is unconditional, although it is meant to go only to the holder's own record (src/lease.rs:348-349): it follows a read that saw its own record or none (`Lease.ReleaseFollowsRead`), and when the delete lands late it takes the record of another process, even after a lost lease (`Lease.LateReleaseDeletesOther`).
- The session pass and `cancel_upload` do not look for a committed file row. A session that is kept after a failed announce can take the committed bytes with it when it expires (`UploadRuns.ExpiryTakesCommittedBytes`), or be cancelled so that the file is never announced (`UploadRuns.CancelLosesAnnounce`). Once the session is gone, the committed record is in the feed exactly unless a cancel or an expiry deleted the session while the record was not announced (`UploadTheorems.AnnouncedIff`). The bytes are at risk for single-part uploads only (`UploadTheorems.FileRowsHaveBytes`): the file pass aside, a file that has its bytes keeps them exactly when it is multipart, or its session row is gone and no delete that dropped an earlier row has still to delete the object (`UploadFutures.BytesStayIff`).
- The kept session also outlives a delete of the file: the retry then returns success and announces a file without bytes, with no expiry anywhere (`UploadRuns.DeleteThenRetryCommitsNothing`).
- `delete_file` takes no lock. A delete between the file row and the announce of a completion leaves a feed that ends with FileCreate although the row is gone (`UploadRuns.DeleteOvertakesAnnounce`); no further run does this exactly when the session row is gone and either the last entry is a delete already or no announced delete has still to drop the row (`UploadFutures.LastEntryIff`).
- A part upload that read the session before the commit can replace the content of the committed file (`UploadRuns.LatePutReplacesContent`); no further run can do this exactly when the upload is multipart, or its session row is gone and no part upload that read it has still to put its body (`UploadFutures.ContentStaysIff`).
- An expiry of a single-part session that fails between the object delete and the row delete leaves a session that a later completion commits without bytes (`UploadRuns.CutExpiryCommitsNothing`).
- The file pass takes no lock. It reads the reference count and deletes the object in two calls, and it deletes the bytes before the row (`UploadRuns.FilePassLeavesRow`). A file that `rows_for_file` lists when the count is read is never taken (`FileUse.ListedFileIsSpared`), but an attach that lands after that read is not seen: the row then refers to a file without bytes (`FileUse.AttachAfterRead`).
- "The multipart record lives and dies with its session" (src/fs/store.rs:405-406) fails exactly when the session is deleted between the two writes of init and init then goes on (`UploadTheorems.RecordHasSession`): by a cancel (`UploadRuns.CancelRacesInit`), or by an expiry when init stalled there for longer than the TTL (`UploadRuns.ExpiryRacesInit`).
- An idle limiter entry looks like a new one exactly when ten minutes refill a whole bucket, that is when `capacity <= 10 * per_minute` (`TokenBucket.SweepsInvisibleIff`).
- `save_policy` clears the store before it checks a rule, so a malformed rule leaves an empty store (`PolicyAdapter.OxkvAdapter.SavePolicy`; comment at src/policy/adapter.rs:255-257).
- Bounds in reverse order give a full answer exactly when the first bound lies in the file (`ByteRange.ReversedIsFullIff`), and a plus sign before a bound is let through (`ByteRange.PlusIsIgnored`).
- `attach` takes any row type and row id. After it, `rows_for_file` names the row exactly when neither holds a colon (`Relations.AttachListedIff`); a file attached to row id `a:b` is listed under `a` (`Relations.RowIdColonMisread`). The two listings are inverse exactly when no row of the file has a colon (`Relations.InverseIff`), and two relations share a key exactly when one does (`RelationKeys.RelKeySharedIff`). Counts stay right all the same (`Relations.RunAgrees`).
- `detach` does not look for the file. With a colon in the file id it can take off the marker of another file while that file's count stays; the counts stay right exactly when the id holds no colon or no marker has the key (`Relations.DetachRefinesIff`). `attach` and `delete_file` look for the file first, and file ids are uuids, so a colon in their file ids concerns the store alone (`Relations.ColonInFileIdMisread`).
- A rule shares its storage key with another well-formed rule exactly when one of its fields holds U+001F (`PolicyKeys.RuleKeySharedIff`); the validator does not look at the fields.
- A page read that fails inside `next_file` leaves the walk after the entries that the step had passed. A caller that goes on gets every record, but not the undecodable keys among those entries: one is lost exactly when one of the entries is a metadata row that does not decode (`FileScans.FailedStepLosesIff`, `FileScans.GarbledRowIsLost`). The snapshot writer stops at the error (src/sync/snapshot.rs:1248), so it loses nothing.

## Model

| member | source | states |
|---|---|---|
| UploadInvariant.Stable | src/fs/mod.rs:797-835 | what one process has read, or promised, at its program point survives every step of any other process |
| UploadInvariant.NextKeeps | src/fs/mod.rs:552-1139 | every step of init, part upload, merge, completion, cancel, delete, sweep, early end or crash keeps the invariant of rows, record, bytes and feed |
| UploadInvariant.NextGrows | src/fs/store.rs:396-420 | no step brings a deleted session back or forgets a commit; the feed is only appended to, and without a session only by deletes |
| UploadInvariant.RunKeeps | src/fs/gc.rs:92-345 | the invariant holds after every run, whatever the interleaving with sweeps |
| UploadTheorems.OneHolder | src/fs/mod.rs:162-227 | over all runs at most one process is inside the critical section of an id |
| UploadTheorems.FileRowsHaveBytes | src/fs/gc.rs:144-173 | a file row without its object comes from the file pass, or from a single-part upload whose completion or expiry was cut short; from nothing else |
| UploadTheorems.OrderlyRunsKeepBytes | src/fs/mod.rs:806-1054 | over every interleaving in which no commit and no expiry is cut short and the file pass deletes nothing, every file row has its object; merges may be cut anywhere |
| UploadTheorems.CommittedSize | src/fs/mod.rs:1003-1020 | a committed row has the size that init declared |
| UploadTheorems.OrphanPassSparesReferenced | src/fs/gc.rs:302-345 | when the orphan pass deletes a key, no session row and no file row references it at that moment, even if object stamps are behind by up to the TTL |
| UploadTheorems.DeletedSessionNeverReturns | src/fs/mod.rs:806-834 | a session row that was deleted stays deleted over every further run |
| UploadTheorems.RecordHasSession | src/fs/store.rs:396-420 | a multipart record is without its session iff the session was deleted between the two writes of init and init went on; by an expiry only past the TTL |
| UploadTheorems.RecordCoversSession | src/fs/mod.rs:797-835 | in every state, crashes included, uploaded parts are in the durable record, with the same id unless a merge is or was half done, and indices are in range |
| UploadTheorems.CompletionCannotFail | src/fs/mod.rs:973-1002 | with every part uploaded and no part upload touching the restored entry, completion passes the count and missing-part checks, and the etag check if no merge was cut |
| UploadTheorems.GoneFilesAreAnnounced | src/fs/mod.rs:1103-1139 | a file that was committed and is gone has its FileDelete in the feed, through the delete request and through the sweep |
| UploadTheorems.LastEntryAgrees | src/fs/gc.rs:215-258 | from a state without a session, and with no announced delete in flight or a delete as last entry, the last entry is FileDelete whenever the row is gone |
| UploadTheorems.AnnouncedIff | src/fs/mod.rs:1020-1054 | once the session is gone, the committed record is in the feed iff no cancel and no expiry deleted the session of the unannounced record |
| UploadTheorems.RetryConverges | src/fs/mod.rs:941-967 | a completion that returns success has committed and leaves no session; the record is announced iff its retry handle was not lost, and if the file is gone its delete is announced |
| UploadTheorems.CreatesAreBounded | src/fs/mod.rs:1020-1023 | FileCreate is in the feed at most once more than announced completions failed to delete the session |
| UploadTheorems.LaterCompletesAppendNothing | src/fs/mod.rs:941-967 | after a successful completion nobody appends another FileCreate |
| UploadHistory.MergeFillsSlot | src/fs/mod.rs:797-835 | a merge that returns has its id in its slot and in the record, and changes no other slot |
| UploadHistory.MergedStays | src/fs/mod.rs:797-835 | over every run, a slot that is filled stays filled while the session row is there |
| UploadHistory.MergedAllIsComplete | src/fs/mod.rs:797-835 | once every part was merged at some time of a run, the session is complete if it is still there |
| UploadHistory.TakeDecides | src/fs/object_store.rs:239-268 | a completion takes the entry out and assembles iff it holds exactly the parts and ids that the session names |
| UploadHistory.AssembledWasExact | src/fs/object_store.rs:219-268 | over every run, the entry of an assembled object held exactly the parts and ids of the session when it was taken out |
| UploadHistory.CommittedWasExact | src/fs/mod.rs:973-1020 | over every run, a committed multipart file was assembled that way |
| UploadHistory.RowsAsDeclared | src/fs/mod.rs:552-602 | a session has the part count and the size of the one init request of the run, and a file row has that size |
| UploadHistory.FilePassTakesIff | src/fs/gc.rs:193-206 | the file pass goes on to the bytes iff it listed the file, read a count of zero, and the file was without a row for longer than the TTL |
| UploadHistory.FilePassDeletesUnused | src/fs/gc.rs:178-228 | over every run, a sweep that deletes the bytes of a file has read a count of zero, and at its start more than the TTL had passed since the stamp it read, or since the creation |
| UploadAlone.UploadsAlone | src/fs/mod.rs:634-835 | a part upload alone leaves its id in the entry, the record and its slot, and changes nothing else |
| UploadAlone.UploadsSingleAlone | src/fs/mod.rs:716-835 | the part of a single-part upload alone puts the object and fills the slot |
| UploadAlone.CompletesAlone | src/fs/mod.rs:920-1023 | from every reachable state with all parts merged, no cut merge, a free lock, no row and an open upload, a completion alone ends with the object, the row, FileCreate in the feed, and no session, record or entry |
| UploadAlone.CompletesSingleAlone | src/fs/mod.rs:920-1023 | a single-part completion alone commits the object that was put and announces it |
| UploadAlone.MismatchFailsAlone | src/fs/object_store.rs:239-262 | with a record that is not what the session names a completion alone fails, and only the entry is gone |
| UploadAlone.RetriesAlone | src/fs/mod.rs:941-967 | a retry alone announces the row if the session is there, and else changes nothing |
| UploadAlone.CancelsAlone | src/fs/mod.rs:1034-1054 | a cancel alone removes session and record, aborts a multipart upload, and leaves object, row and feed |
| UploadAlone.SessionPassAlone | src/fs/gc.rs:103-173 | the session pass alone gives up exactly the listed sessions that have run out, with the object of a single part |
| UploadAlone.FilePassAlone | src/fs/gc.rs:178-259 | the file pass alone leaves neither bytes nor row of such a file, and announces it; any other file it leaves |
| UploadAlone.OrphanPassAlone | src/fs/gc.rs:302-345 | the orphan pass alone deletes the object iff neither scan named it and it is older than the TTL |
| UploadAlone.SweepsAlone | src/fs/gc.rs:92-345 | a whole sweep alone gives up a session that has run out, takes an unused file, deletes an object that nothing refers to, each more than the TTL after, and changes nothing else |
| UploadAlone.DeletesAlone | src/fs/mod.rs:1103-1139 | a delete alone announces and leaves neither row nor object |
| UploadWhole.InitsAlone | src/fs/mod.rs:552-632 | an init alone leaves a session of the declared size and part count with nothing merged, and a record for a multipart upload |
| UploadWhole.AnyOrderIsComplete | src/fs/mod.rs:634-835 | for every number of parts, uploading them in any order, some of them repeatedly, makes the session complete |
| UploadWhole.AnyOrderCommits | src/fs/mod.rs:920-1023 | the completion then leaves a row of the declared size, its object, exactly one feed entry and no session |
| UploadFutures.StepTouches | src/fs/mod.rs:552-1139 | only the put and the assembly change the content, only deletes, closes, the file pass and the orphan pass remove the object, only a completion writes the row |
| UploadFutures.LastEntryIff | src/fs/mod.rs:1103-1139 | no further run ends the feed with FileCreate for a file that is gone iff the session is gone and the last entry is a delete or no announced delete has still to drop the row |
| UploadFutures.ContentStaysIff | src/fs/mod.rs:716-735 | no further run replaces the content of a committed file iff it is multipart, or its session is gone and no put of a part is pending |
| UploadFutures.BytesStayIff | src/fs/gc.rs:144-173 | over every further run in which the file pass deletes nothing a file row has its object iff it has it now and, for a single part, the session is gone and no delete of the object is pending |
| UploadFutures.UncancelledIsAnnounced | src/fs/mod.rs:1020-1054 | along every run in which no cancel and no expiry deletes the session row, a committed record whose session is gone is in the feed |
| UploadSystem.CommitReads | src/fs/store.rs:339-351 | a call for an id leaves in the keyed stores and the feed what that id then reads |
| UploadSystem.CommitSpares | src/fs/store.rs:339-351 | a call for an id changes nothing that another id reads, although both share the feed and the upload maps |
| UploadSystem.ListProjects | src/fs/gc.rs:93-103 | one listing over all ids is, for each id, the listing of its own machine |
| UploadSystem.SystemProjects | src/fs/gc.rs:92-345 | along every run of the whole server, with any ids, requests and sweeps over shared stores, each id is in a reachable state of its own machine |
| UploadSystem.PassesSkipNothing | src/fs/gc.rs:92-345 | over every run of the server, a pass of a sweep that is over has turned to every session, file or key that it listed |
| FileUse.SweepTakesIff | src/fs/gc.rs:193-206 | the file pass goes on to the bytes iff `rows_for_file` lists no row at that moment and the last one went, or the file was created, more than the TTL before the sweep |
| FileUse.ListedFileIsSpared | src/fs/gc.rs:178-228 | over every joint run, a sweep that deletes bytes read the count at a moment at which `rows_for_file` listed nothing |
| FileUse.AttachAfterRead | src/fs/gc.rs:193-221 | an attach between that read and the delete is listed, and the bytes go all the same |
| UploadRuns.ExpiryTakesCommittedBytes | src/fs/gc.rs:144-173 | a run in which the expiry of a kept session deletes the bytes of the committed file |
| UploadRuns.CutExpiryCommitsNothing | src/fs/mod.rs:863-909 | a run in which a completion succeeds and announces a file without bytes after a cut expiry |
| UploadRuns.CancelLosesAnnounce | src/fs/mod.rs:1034-1054 | a run in which a cancel leaves a committed file that is never announced |
| UploadRuns.FilePassLeavesRow | src/fs/gc.rs:178-259 | a run in which the file pass leaves a row without bytes |
| UploadRuns.CancelRacesInit | src/fs/mod.rs:584-602 | a run in which a cancel between the two writes of init strands a multipart record |
| UploadRuns.ExpiryRacesInit | src/fs/mod.rs:584-602 | a run in which an expiry does, with init stalled past the TTL |
| UploadRuns.DeleteThenRetryCommitsNothing | src/fs/mod.rs:941-1023 | a run in which a failed announce, a delete and the retry announce a file without bytes |
| UploadRuns.DeleteOvertakesAnnounce | src/fs/mod.rs:1103-1139 | a run in which FileCreate follows FileDelete and the row is gone, with nothing cut short |
| UploadRuns.LatePutReplacesContent | src/fs/mod.rs:716-735 | a run that ends with a part upload that replaces the content of a committed file |
| Multipart.CheckPartsExact | src/fs/object_store.rs:239-262 | the count check and the part-by-part check together pass exactly when the etags name the staged parts and nothing else |
| Multipart.CheckNamesFirst | src/fs/object_store.rs:249-262 | a failed check names the first part that is absent or differs |
| Multipart.RestoreThenComplete | src/fs/object_store.rs:219-343 | restoring a record and completing succeeds exactly when the etags name its parts and the backend agrees, whatever the map held, and leaves no entry |
| Multipart.ObjectStoreClient.CreateMultipartUpload | src/fs/object_store.rs:123-148 | the alias names an entry with no parts; a new alias leaves every other entry as it is |
| Multipart.ObjectStoreClient.Lookup | src/fs/object_store.rs:150-188 | which error or backend id a part upload finds |
| Multipart.ObjectStoreClient.RecordPart | src/fs/object_store.rs:190-217 | only the entry of the upload changes, and an entry that is gone stays gone |
| Multipart.ObjectStoreClient.CompleteMultipartUpload | src/fs/object_store.rs:219-268 | the checking loop takes the entry out first and hands the ids to the backend in part order, or returns the first mismatch; a failed backend call leaves no entry |
| Multipart.ObjectStoreClient.AbortMultipartUpload | src/fs/object_store.rs:270-300 | a wrong target changes nothing; otherwise the entry goes even if the backend call fails, and an unknown upload is success |
| Multipart.ObjectStoreClient.RestoreMultipart | src/fs/object_store.rs:307-343 | the entry becomes that of the record; a record without target is refused |
| SessionLocks.SessionLocks.Acquire | src/fs/mod.rs:204-227 | a claim shares the entry of its key with all live claims, and all other keys keep theirs |
| SessionLocks.SessionLocks.TryLock | src/fs/mod.rs:160-165 | a guard is given exactly when no live claim on the key holds one |
| SessionLocks.SessionLocks.Unlock | src/fs/mod.rs:160-165 | only this guard goes |
| SessionLocks.SessionLocks.Drop | src/fs/mod.rs:167-193 | the key leaves the map exactly with its last live claim |
| SessionLocks.SessionLocks.MutualExclusion | src/fs/mod.rs:154-227 | guards on one key exclude each other, claims are counted exactly, and a key is in the map iff it is claimed |
| Lease.LiveAsDocumented | src/lease.rs:86-104 | the documented meaning of a live record holds exactly outside future stamps and ages beyond i64 |
| Lease.WaitIsExact | src/lease.rs:548-564 | the reported wait is never too long, and unless it is cut to i64 the exact moment at which the record turns stale |
| Lease.NextKeeps | src/lease.rs:175-383 | every call of any process keeps instances apart and versions in order |
| Lease.EachVersionTakenOnce | src/lease.rs:626-652 | without any timing hypothesis no version is taken over twice |
| Lease.LoserWritesNothing | src/lease.rs:228-254 | over all runs, an acquirer that was refused without a landed failing call is never, before or after, the instance that is stored |
| Lease.AcquiresAlone | src/lease.rs:175-257 | `acquire` alone takes a free or stale lease under a new record, and is refused by a live one without a write |
| Lease.RenewsAlone | src/lease.rs:307-346 | `renew` alone stores its record with the new stamp, or marks the lease lost and writes nothing when another instance is stored |
| Lease.ReleasesAlone | src/lease.rs:354-383 | `release` alone deletes the record unless another instance is stored |
| Lease.LostStaysLost | src/lease.rs:307-320 | with no timing hypothesis, a holder whose renewal reads another instance is lost over every further run: its instance is never stored again, and no call for it but the delete of a release changes the object |
| Lease.RenewalFollowsRead | src/lease.rs:307-346 | over every run, a renewal that is about to write has read its own record or none, as the last thing that its process did but for the stamp |
| Lease.ReleaseFollowsRead | src/lease.rs:354-383 | over every run, the same for a release that is about to delete |
| Lease.AtMostOneWriter | src/lease.rs:307-383 | if renewals and deletes land before the TTL ends and acquirers see no future stamp, at most one process serves and the stored record names it |
| Lease.StaysNamedIff | src/lease.rs:175-383 | after one call the stored record still names every unexpired holder iff the call does not change the object while somebody else holds unexpired |
| Lease.AlwaysNamedIff | src/lease.rs:175-383 | with no timing hypothesis, the same for all steps of a run; no two processes then hold unexpired |
| Lease.TakeOverSplitsIff | src/lease.rs:228-254 | a landed take-over gives two unexpired holders iff the new record and a holder of the judged record have both not run out |
| Lease.FutureStampSplitsBrain | src/lease.rs:175-218 | a run with a future stamp in which two processes serve |
| Lease.LateRenewalSplitsBrain | src/lease.rs:307-346 | a run with a late renewal in which two processes serve |
| Lease.LateReleaseDeletesOther | src/lease.rs:354-383 | a run in which the late delete of a lost holder removes the record of a process that serves |
| TokenBucket.TokenBucket.MakeRoom | src/limits.rs:123-138 | the loop ends with room for one and removed only entries with the least `last`, nothing when there was room |
| TokenBucket.TokenBucket.Take | src/limits.rs:189-217 | the new map and the answer, with eviction only for a new key over the cap |
| TokenBucket.TokenBucket.EvictIdle | src/limits.rs:242-249 | exactly the entries that were idle for the window go |
| TokenBucket.RunInRange | src/limits.rs:123-217 | in all runs at most 4096 entries, with tokens always between 0 and the capacity |
| TokenBucket.AdmissionBound | src/limits.rs:189-217 | a key that is never evicted is admitted at most `capacity + refill * (t2 - t1)` times between `t1` and `t2` |
| TokenBucket.SweptAdmissionBound | src/limits.rs:189-249 | below the cap and with `capacity <= 10 * per_minute` the same bound holds for every key, idle sweeps included |
| TokenBucket.RefusedHasSpent | src/limits.rs:189-217 | in every run, whatever is evicted, a refused key was admitted since one of its takes more often than a full bucket and the refill since can pay for together with one more |
| TokenBucket.RefusedIff | src/limits.rs:189-217 | a key that is never evicted is refused iff it has overspent that way |
| TokenBucket.SweptRefusedIff | src/limits.rs:189-249 | below the cap and with `capacity <= 10 * per_minute` the same holds for every key, idle sweeps included |
| TokenBucket.GoneIsIdleOrCrowdedOut | src/limits.rs:123-249 | an entry goes only by a sweep after the idle window, or for a new key when 4095 other keys were taken since its own last take |
| TokenBucket.RunAnswersAsUnswept | src/limits.rs:242-249 | below the cap, every answer of a run with sweeps anywhere is the answer of the limiter that never sweeps |
| TokenBucket.SweepsVisible | src/limits.rs:242-249 | a run in which a sweep changes an answer, for every limiter with capacity over ten minutes of refill |
| TokenBucket.SweepsInvisibleIff | src/limits.rs:189-249 | sweeps never change an answer iff `capacity <= 10 * per_minute` |
| Keys.PrefixRange | src/fs/store.rs:947-959 | the range from `prefix:` to `prefix;` holds exactly the keys of the family and its own upper bound |
| Keys.KeysWithinExact | src/fs/store.rs:325-337 | a range read gives exactly the stored keys between its inclusive bounds, ascending |
| KvPages.KvPages.Next | src/fs/store.rs:865-916 | one call of the walk; a failed read leaves the walk as it was |
| KvPages.ReturnedAscending | src/fs/store.rs:865-916 | under any writes between the calls, the returned keys strictly ascend |
| KvPages.StandingKeysReturned | src/fs/store.rs:865-916 | a finished walk returned every key that was there throughout |
| KvPages.ReturnedWasStored | src/fs/store.rs:865-916 | what is returned was in the store, with that value, at some call of the walk |
| KvPages.NoneIsFinal | src/fs/store.rs:869-871 | once the walk ended it stays ended |
| KvPages.StepTakesRest | src/fs/store.rs:865-916 | over a store that stays, a walk in any state returns its rest one by one, and then nothing |
| KvPages.FixedWalk | src/fs/store.rs:823-917 | on a fixed store the first `n` calls return the first `n` rows in order, and the end comes exactly after the last |
| KvPages.PageSizeIff | src/fs/store.rs:901-911 | a page size of at least two is exactly what makes the walk complete |
| FileScans.FileStore.ListFiles | src/fs/store.rs:662-681 | the loop collects the records and the undecodable keys of the scan |
| FileScans.FileStore.NextFile | src/fs/store.rs:733-771 | the loop gives the outcome of one step and the walk after it, page reads that fail included |
| FileScans.OkStepScans | src/fs/store.rs:733-771 | a step that succeeds gives the next record and every undecodable key before it, and leaves the walk right after it |
| FileScans.FailedStepLosesIff | src/fs/store.rs:733-771 | a failed step loses no record, and loses undecodable keys iff one of the entries that it passed is a metadata row that does not decode |
| FileScans.GarbledRowIsLost | src/fs/store.rs:733-771 | with one undecodable row and one page read that succeeds, the step fails and the rest of the walk no longer has the key |
| FileScans.DrainIsList | src/fs/store.rs:662-771 | draining a walk gives the same records in the same order and the same undecodable keys as the list |
| FileScans.ListExact | src/fs/store.rs:662-681 | every metadata key is in exactly one of the two lists, once, in key order |
| FileScans.MetaKeysIff | src/fs/store.rs:348-350 | the keys that the scans take for metadata are those of the file records, and one more that no record is stored under; count rows are not among them |
| RelationKeys.MarkKeyInjective | src/fs/relation.rs:21-23 | a relation key names one file and one text of type and row, whatever colons that text holds |
| RelationKeys.RelKeySharedIff | src/fs/relation.rs:21-23 | two relations share a key iff the row type or the row id holds a colon |
| RelationKeys.RowOfRelKeyIff | src/fs/store.rs:612-617 | a key reads back as its row type and row id iff neither holds a colon |
| RelationKeys.MarkKeySuffix | src/fs/store.rs:606-621 | the suffix `:file` of a relation key names its file, for any row type and row id |
| RelationKeys.MarkKeyRow | src/fs/relation.rs:31-33 | the prefix of a row, with a colon-free rest, is that of exactly that row, colons or not |
| Relations.FsStore.Attach | src/fs/store.rs:534-566 | marker and count in one transaction, idempotent, saturating |
| Relations.FsStore.Detach | src/fs/store.rs:571-603 | marker and count in one transaction, idempotent, with the orphan stamp at zero |
| Relations.FsStore.DeleteFile | src/fs/store.rs:494-517 | exactly the record, the count and every marker of the file go |
| Relations.FsStore.RowsForFile | src/fs/store.rs:606-621 | the loop lists the rows that the markers of the scan name |
| Relations.FsStore.FilesForRow | src/fs/store.rs:630-649 | the loop lists the files of the row, sorted, without duplicates |
| Relations.AttachRefines | src/fs/store.rs:534-566 | attach adds the relation and returns the number of rows of the file |
| Relations.AttachRefinesIff | src/fs/store.rs:553-555 | the count stays the number of rows iff it is below the top of u32 |
| Relations.DetachRefines | src/fs/store.rs:571-603 | detach removes the relation and returns the number that is left |
| Relations.DetachRefinesIff | src/fs/mod.rs:486-507 | for any file id, detach keeps the counts iff the id holds no colon or no marker has the key |
| Relations.DeleteRefines | src/fs/store.rs:494-517 | deleting a file removes its relations and no other |
| Relations.RowsForFileExact | src/fs/store.rs:606-621 | `rows_for_file` lists the first two segments of each marker of the file, and the count is their number |
| Relations.FilesForRowExact | src/fs/store.rs:630-649 | `files_for_row` lists exactly the files attached to that row, colons or not, once and in order |
| Relations.RunAgrees | src/fs/store.rs:494-649 | after any run, with any row types and row ids, the count is the number of listed rows, it is 0 iff the orphan stamp is set, and `files_for_row` lists exactly what is attached |
| Relations.RefInfoExact | src/fs/store.rs:520-603 | after any run the stored info of a file is its number of relations and the time at which its last one was taken off |
| Relations.InverseIff | src/fs/store.rs:606-649 | the two listings are inverse iff no row type and no row id of the file holds a colon |
| Relations.PlainRunInverse | src/fs/store.rs:494-649 | after any run that attaches to colon-free rows only, the two listings are inverse |
| Relations.AttachListedIff | src/fs/mod.rs:457-482 | after an attach on any store the row is listed iff neither its type nor its id holds a colon; what is listed are their first two segments |
| Relations.RowIdColonMisread | src/fs/mod.rs:457-482 | a file attached to row id `a:b` is listed under row id `a` |
| Relations.ColonInFileIdMisread | src/fs/store.rs:606-621 | in the store alone, a file id with a colon makes the listing name its row for the file after the colon |
| PolicyKeys.RuleKeyInjective | src/policy/adapter.rs:23-31 | a well-formed rule without U+001F shares its key with no other rule that is well-formed or without U+001F |
| PolicyKeys.RuleKeyPrefix | src/policy/adapter.rs:344-363 | the prefix of a section and type is that of the keys of its rules only |
| PolicyKeys.ValidatesIff | src/policy/adapter.rs:87-128 | the validator lets exactly the well-formed rules through; a colon in section or type is refused |
| PolicyKeys.RuleKeysCollide | src/policy/adapter.rs:28-31 | every well-formed rule with U+001F in a field shares its key with another well-formed rule |
| PolicyKeys.RuleKeySharedIff | src/policy/adapter.rs:23-31 | a well-formed rule shares its key iff one of its fields holds U+001F |
| PolicyAdapter.OxkvAdapter.LoadAll | src/policy/adapter.rs:150-168 | the loop skips foreign keys and fails on a value that does not decode |
| PolicyAdapter.OxkvAdapter.ClearAll | src/policy/adapter.rs:171-185 | nothing is left |
| PolicyAdapter.OxkvAdapter.AddPolicies | src/policy/adapter.rs:288-312 | the whole batch or nothing |
| PolicyAdapter.OxkvAdapter.RemovePolicies | src/policy/adapter.rs:323-342 | the whole batch or nothing |
| PolicyAdapter.OxkvAdapter.RemoveFilteredPolicy | src/policy/adapter.rs:344-376 | exactly the matching keys go; an undecodable value under the prefix fails and changes nothing |
| PolicyAdapter.OxkvAdapter.SavePolicy | src/policy/adapter.rs:238-269 | the store becomes the given rules, or empty when one is malformed |
| PolicyAdapter.AddExact | src/policy/adapter.rs:288-312 | error iff a rule is malformed; true iff the batch has no duplicate and is disjoint from the store; else the store stays |
| PolicyAdapter.RemoveExact | src/policy/adapter.rs:323-342 | true iff the batch has no duplicate and is stored; else the store stays |
| PolicyAdapter.FilteredExact | src/policy/adapter.rs:344-376 | exactly the matching policies of the section and type go |
| PolicyAdapter.RuleMatchesIff | src/policy/adapter.rs:190-195 | a rule matches iff the values are its fields from the index on |
| PolicyAdapter.LoadExact | src/policy/adapter.rs:150-168 | a load brings each stored policy once and nothing else |
| PolicyAdapter.SaveThenLoad | src/policy/adapter.rs:238-269 | save then load brings back the saved set |
| PolicyAdapter.RunRefines | src/policy/adapter.rs:150-376 | after any run of the adapter the store is the set of policies that the run describes |
| PartTiling.ValidateIff | src/fs/model.rs:43-108 | the checks accept exactly one part that is the whole file, or parts that cover it with only the last one short |
| PartTiling.RangeCheckNeverFires | src/fs/model.rs:84-105 | the count check makes the final range check redundant |
| PartTiling.PartLen | src/fs/mod.rs:661-668 | every part length lies in `1..=part_size`, and neither the product nor the difference leaves u64 |
| PartTiling.PartsTile | src/fs/mod.rs:664-668 | the parts follow each other without gap or overlap up to the end of the file |
| PartTiling.OnlyItsPart | src/fs/mod.rs:664-668 | an offset lies in part `o / part_size` and in no other |
| PartTiling.ReceivePart | src/fs/mod.rs:660-715 | a part is accepted iff its index is in range, a declared length is the expected one, and the unbroken chunks have that length; a wrong declared length gives its own error |
| PartTiling.ReceivedExact | src/fs/mod.rs:693-715 | a part is accepted iff no chunk is broken and the body has the expected length; else its length alone decides the error |
| PartTiling.CompletedUpload | src/fs/object_store.rs:239-266 | a completed object has the file's size, and byte `o` is byte `o % part_size` of part `o / part_size` |
| ByteRange.RangedInBounds | src/fs/route.rs:241-288 | every range that is served satisfies `start <= end < total` |
| ByteRange.PrintedRange | src/fs/route.rs:241-288 | the outcome of every printed `first-last`, with any white space around the header |
| ByteRange.PrintParseRoundTrip | src/fs/route.rs:241-288 | printing a range and parsing it gives it back |
| ByteRange.SuffixRange | src/fs/route.rs:254-267 | a suffix of `n` selects the last `min(n, total)` bytes |
| ByteRange.OpenRange | src/fs/route.rs:274-275 | an open range runs to the end |
| ByteRange.ReversedIsFullIff | src/fs/route.rs:271-283 | reversed bounds give a full answer iff the first lies in the file |
| ByteRange.PlusIsIgnored | src/fs/route.rs:268-278 | a leading plus is read as if it were not there |
| ByteRange.UsableHeader | src/fs/route.rs:241-253 | only a header that names one range in bytes asks for less than the whole |
| ByteRange.RangedStreams | src/fs/mod.rs:1188-1194 | the clamped range streams exactly the parsed bytes, and the header states exactly the parsed end |

## Left out

- UploadTheorems.OrderlyRunsKeepBytes: runs in which the file pass deletes bytes are excluded, because that pass deletes bytes before the row; `FileRowsHaveBytes` has no such hypothesis and names the cause instead, and `UploadHistory.FilePassDeletesUnused` says which files it takes.
- UploadTheorems.CompletionCannotFail: a part upload that writes the memory entry between restore and take is excluded, because the entry then is no longer the record.
- KvPages.FixedWalk: the page size is a parameter of the walk functions; the class uses the constant of 512.
- FileScans.FileStore.NextFile: stated for a store that does not change during the one call, with page reads that may fail; `KvPages` covers changes between page reads for the walk itself.
- TokenBucket.AdmissionBound: times must not decrease in the order of the lock, because `take` samples the time before it locks; the refill rate is positive, because at rate zero the limiter is off.
- FileUse.ListedFileIsSpared: one file at a time; the relations of a file go when its row is dropped and are free otherwise, with good file ids and counts below the top of u32.
- Lease.AtMostOneWriter: one clock serves all processes; a clock that is ahead or behind shows only as the hypotheses on stamps and late writes.
- UploadFutures.ContentStaysIff: which of two concurrent puts of a single part is the merged one is not distinguished; the committed content is that of the last put before the file row.
- UploadFutures.BytesStayIff: runs in which the file pass deletes bytes are excluded, because that pass may take the bytes of any file whose reference count it reads as zero.
- Owner, policy and token checks of the engine: a request that fails one is a process that ends before its first write.
- A dropped request whose store call is still under way: the call either landed before the process ended or did not land at all.
- The count of cleaned items; a sweep walks the items of a pass in any order, and upload ids are an injective naming of file ids instead of drawn uuids.
- The staged single-part chunk rows, checksums and the progress percentage.
- The upload machine assumes that the object store stamps an object at most one TTL before the session row was written, which is the slack that the orphan pass has.
- `attach` and `detach` write first and announce after, so no feed guarantee is stated for them; the file existence check before them is left out.
- The pass over WAL objects inside the key-value store is one call into a library that is not part of this model.
- `oxkv` is an ordered map with atomic operations and transactions; its failures inside a transaction leave the store unchanged.
- JSON is abstract: a stored value is its decoded form, or a value that does not decode.
- The fields of the limiter are reals, so f64 rounding is not modelled; neither are `sweep_due` under threads and mutex poisoning.
- The renewer task of the lease, its timers and the warning log; the fencing latch.
- `load_filtered_policy` and the casbin model itself; a save gets the rules of the model as a sequence.
- HTTP routing, middleware, OIDC, JWT, telemetry, configuration, replicas, queues and snapshots.
