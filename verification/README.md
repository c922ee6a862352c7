# Monoize: a verified model

Monoize is a gateway that meters, bills and routes requests to model providers. This project models
the parts of it whose correctness depends on order, interleaving or arithmetic, and proves what they
promise over all inputs, all interleavings and whole runs. `dafny verify dfyconfig.toml` checks everything.

| file | what it models |
|---|---|
| `SpoolModel`, `SpoolSafety`, `SpoolOrigin`, `SpoolQuota`, `SpoolTheorems`, `SpoolProgress`, `SpoolFaults`, `SpoolWitness` | the durable request-log spool as a transition system: reservations, admission markers, terminal push, cancellation, the destructor, the flusher, crashes and restarts |
| `SpoolFlusher`, `SpoolRefinement` | the flusher's loops over buffer, directory and database, and why each flush is a sequence of steps of the transition system |
| `CacheProtocol`, `CacheProgress`, `ApiKeyCache` | the invalidation protocol of the API-key and balance caches, and the key cache with its two reverse indexes |
| `ImageCache`, `ImageStartup` | the quota-bounded LRU cache of transformed images and its startup scan |
| `Glob` | the two greedy glob matchers |
| `RateLimiter` | the public token-bucket limiter with bounded memory |
| `ExactDecimal` | exact decimal multipliers on 128-bit amounts |
| `RateLookup`, `RateTable`, `ProfileCopy`, `RateEffects` | billing-rate lookup, profile copying and the synchronisations around it |
| `Prober` | the active health prober |
| `Captcha` | the built-in captcha stores |
| `Common`, `Sums`, `Orders`, `TextOrder` | optional values and 64-bit arithmetic, sums over maps, the least element of a set, the order of strings |

## How to read the models

The spool, the caches' protocol and the captcha are concurrent. There a step is one atomic action of one
thread (a compare-exchange, a rename, a directory sync, one removal, one commit, one critical section)
and a run is any sequence of enabled steps, so a lemma over runs speaks of every interleaving. In the
spool, `disk` holds every directory a crash may leave: the directory after any prefix of the operations
since the last successful directory sync. A crash picks one of them. Calls may be abandoned at their await
points, in which case the file operation they had started still lands later.

Where the source updates an object in place there is a class with its fields (`RequestLogBatcher`, `Cache`,
`CacheMetadata`, `ImageTransformCache`, `PublicRateLimiter`, `RateStore`, `HealthTable`, `BuiltInCap`),
and its loops are loops. Storage failures, clock readings, random draws and the progress of other threads
enter as parameters. Tables are maps, and an SQL statement is its effect on them.

Assumptions: UUIDs and random file names are fresh; renames are atomic; a directory listing has no name
twice; strings are ordered by code point, which is the byte order of their UTF-8 form; floating-point token
counts are rationals; times are unbounded integers.

## Results worth knowing

- An armed and uncancelled reservation is never lost, in any run with any number of crashes: what survives is
  the fallback it was armed with or the record it was claimed for (`ArmedIsNeverLost`), and a durable terminal
  record always wins over the fallback. Whatever directory a crash leaves, a restart and a flush bring the
  record into the database (`CrashedReachesRow`).
- Every spool operation can run to its end from any safe state that allows it, and ends where its caller was
  promised: arming, pushing, cancelling, promotion and release on drop, restart and flush (`SpoolProgress`).
  The outcome of startup repair does not depend on the order of the directory (`StartupRepairs`).
- The limiter refuses an address as limited if and only if, since some earlier request of its own, it has been
  admitted more than 19 times beyond one a second (`LimitedIff`).
- In every run after a successful start in which no failing write leaves its file visible, no push is
  abandoned during its write and no addition saturates, the byte counter of the spool never undercounts,
  stays at most the larger of the quota and the bytes found at startup, and never wraps; it is exact if no
  promotion fails, finds nothing to measure or is left unsynced (`FaultFreeQuota`). Only a quota of
  2^64 - 1 lets an addition saturate. Each of these faults can really cost: concrete runs show an undercount
  from a failed write, an abandoned push, a released file and a saturated addition, and bytes kept for good
  by a promotion that the flusher overtakes (`OvertakenPromotionLeaks`).
- With or without faults, the distance of the counter from what is owed changes at every step by an exactly
  computed amount (`CounterDrifts`), and an exact counter stays exact if and only if the step is not one of
  a named few (`ExactIff`): deleting a flushed file whose reservation is still held in full, or whose size
  has changed since it was loaded; releasing a reservation whose file is visible; a late write that changes
  a file, or a promotion that then finds it changed; a saturating addition; a failing promotion. A failed
  write or an abandoned call by itself does not move it.
- The counter can wrap. A write that fails after its rename, is flushed, and whose reservation is then
  dropped takes the counter from 2 to 2^64 - 4 with a quota of 100, where every reservation is refused
  (`CounterWraps`). A subtraction wraps only when the counter is already below what is owed
  (`GrowsOnlyByWrapping`).
- The image cache refuses an entry of admissible size as quota exhausted if and only if it is limited to one
  file and already indexes the same key with zero bytes.
- Ids of copied rates are unique within one target profile but not across targets: a colon in a profile
  name makes a second, legitimate copy fail as a storage error (`SecondCopyRefused`). `CopyProfile` states
  the exact condition for success.
- The startup scan of the image cache keeps exactly the newest files, as many as the file quota allows, if
  these fit the byte quota, whatever the order of the listing; and only if they do, unless its running total
  saturates at 2^64 - 1 (`KeepsNewestIff`, `SaturatedScanKeepsTooMuch`). When they do not fit, the outcome
  depends on that order (`ListingOrderMatters`).

## Model

| member | source | states |
|---|---|---|
| SpoolTheorems.ArmedIsNeverLost | src/db_cache.rs:918-962 | from the return of arming until someone begins to cancel, in the running directory and in every directory a crash could leave, over all runs with crashes and restarts, the record is in an armed marker, a final file or the database; a marker holds exactly the fallback named at arming, a file or row that fallback or the record of a claim taken for the id, and if nothing was ever claimed the fallback itself is there |
| SpoolOrigin.StoredIsGenuine | src/db_cache.rs:1853-1923 | after arming, cancelled or not, every marker, file and row of the id holds the fallback it was armed with or, for files and rows, the record of a claim taken for it, through repair, promotion, push, flush and late writes |
| SpoolOrigin.StepTraced | src/db_cache.rs:651-758 | every step keeps the content of every armed record, on disk, in the loaded batch, in late writes and in the database |
| SpoolOrigin.ClaimHasCause | src/db_cache.rs:542-556 | a claimed record is that of a claim step taken earlier in the run |
| SpoolProgress.ReservesIff | src/db_cache.rs:1169-1192 | bytes are reserved exactly when they are some, at most the quota, and fit beside those admitted or the quota is 2^64 - 1 |
| SpoolProgress.ArmingCompletes | src/db_cache.rs:874-962 | reserve, probe and arm can run to the end: the fallback is in the only directory a crash may leave, the reservation is armed, and the counter is up by exactly the amount |
| SpoolProgress.ArmRetries | src/db_cache.rs:586-593 | after a failed write the reservation can be armed with any fallback that fits |
| SpoolProgress.FailedAdmissionUndone | src/db_cache.rs:874-908 | an admission whose probe fails leaves directory, reservations and counter as they were |
| SpoolProgress.CancelCompletes | src/db_cache.rs:964-1017 | from every safe running state with the reservation armed and its marker held, begin, remove and finish are enabled in turn and end with the id in no directory and no row, the reservation consumed, the counter lower by exactly its bytes, and all else unchanged |
| SpoolProgress.CancelAgainCompletes | src/db_cache.rs:980-1009 | the same for a cancellation already begun, however often its removal failed |
| SpoolProgress.CancelRefuses | src/db_cache.rs:969-977 | without a marker a cancellation goes back to armed and nothing has moved |
| SpoolProgress.PushCompletes | src/db_cache.rs:1037-1163 | from every running state with the reservation armed and the lock free, claim, lock, rename, sync and consume are enabled in turn and end with the record as final file in every directory a crash may leave, the marker gone if its removal worked, the reservation consumed and the counter lower by exactly the bytes the record does not need |
| SpoolProgress.WriteRetries | src/db_cache.rs:1075-1114 | after a failed write the same, from the claim that stands |
| SpoolProgress.UnreservedPushCompletes | src/db_cache.rs:1024-1073 | a push without a reservation ends with the record durable, exactly its bytes admitted and no reservation left |
| SpoolProgress.FlushCompletes | src/db_cache.rs:1229-1314 | a visible record becomes a row unless its id has one, and its file and bytes go |
| SpoolProgress.PromotionCompletes | src/db_cache.rs:651-758 | dropping an armed reservation ends with a durable final file, the one already there or else the fallback, no marker, and only that file's bytes admitted |
| SpoolProgress.ReleaseCompletes | src/db_cache.rs:651-696 | dropping a reservation that was never armed removes its probe and gives all its bytes back |
| SpoolProgress.AbandonedArmLands | src/db_cache.rs:918-962 | the fallback of an abandoned arming can still be written |
| SpoolProgress.AbandonedPushLands | src/db_cache.rs:1075-1114 | the record of an abandoned push can still become its final file |
| SpoolProgress.AbandonedCancelLands | src/db_cache.rs:982-991 | the marker of an abandoned cancellation can still be removed |
| SpoolProgress.RepairTowards | src/db_cache.rs:1873-1908 | dealing with one marker removes it and leaves the outcome of the whole repair as it was |
| SpoolProgress.RepairsComplete | src/db_cache.rs:1853-1923 | in whatever order the markers come, startup gets through with no marker, every final file it found, the fallback of every other armed marker, and exactly their bytes admitted, up to 64 bits |
| SpoolProgress.StartupRepairs | src/db_cache.rs:1853-1923 | in every run a start that succeeds leaves exactly that directory, synced |
| SpoolProgress.CrashedReachesRow | src/db_cache.rs:1853-1923 | from every safe running state and for every directory a crash may leave, a crash, a restart and a flush give an armed, uncancelled id a row: the one it had, else the final file left, else the fallback |
| SpoolProgress.OnlySyncsForget | src/db_cache.rs:1955-2006 | a step that reports no directory sync leaves every directory a crash could have left before and adds the current one |
| SpoolProgress.LockIsExclusive | src/db_cache.rs:1089-1114 | only the push or flush that holds the lock, or a crash, changes it; it is taken only when free |
| SpoolTheorems.RowsAreUnique | src/db_cache.rs:466-497 | in every reachable state the database has at most one row for an id |
| SpoolTheorems.TerminalWins | src/db_cache.rs:1075-1163 | once the terminal record of a push is durable, every later row for its id is that record, and until there is a row the final file holds it in every directory a crash could leave; failed marker removal, crash, recovery and repeated flushes included |
| SpoolTheorems.CancelledIsGone | src/db_cache.rs:964-1017 | after a cancellation returned there is never a row for its id, nor a marker or file in any directory a crash could leave |
| SpoolTheorems.SettledAtMostOnce | src/db_cache.rs:542-672 | terminal push, cancel, release on drop and promotion on drop together settle a reservation at most once in a run |
| SpoolFaults.FaultFreeQuota | src/db_cache.rs:1169-1210 | from a successful start that fits 64 bits, in every run in which no failing write leaves its file visible, no push is abandoned and no addition saturates: admitted bytes are at least the unsettled reservations plus the sizes of the other visible files, at most the larger of the quota and the bytes found at startup, equal to that sum if no promotion fails, and no enabled step wraps the counter |
| SpoolFaults.StepClean | src/db_cache.rs:1075-1114 | every step other than those faults keeps: no write on its way, a held file visible only under its push's lock, loaded entries equal to visible files, promoted files of unchanged size |
| SpoolFaults.CleanCounts | src/db_cache.rs:1287-1304 | in such a state only a saturating addition loses bytes and only a failing promotion keeps any |
| SpoolFaults.SaturationNeedsTopQuota | src/db_cache.rs:1177-1192 | an addition saturates only under the largest quota |
| SpoolTheorems.GrowsOnlyByWrapping | src/db_cache.rs:620-672 | outside admission and startup the counter grows exactly when a subtraction is larger than it, and that happens only when it is below what is owed |
| SpoolTheorems.CounterDrifts | src/db_cache.rs:1169-1210 | at every step of a running process, whatever happened before, the distance of the counter from the bytes owed changes by exactly the drift computed from the state and the step, wrap-around and saturation included |
| SpoolTheorems.ExactIff | src/db_cache.rs:1287-1304 | an exact counter stays exact if and only if the step neither loses nor keeps bytes, by guards on the state before it, and falls short if and only if it loses some |
| SpoolTheorems.StartIsExactIff | src/db_cache.rs:1853-1923 | a successful start is exact if and only if the files found fit in 64 bits, a failed one if and only if there is no file |
| SpoolTheorems.OwedSplits | src/db_cache.rs:1169-1210 | the bytes owed are those of the unsettled reservations plus the other visible files |
| SpoolTheorems.RunRemembers | src/db_cache.rs:542-648 | armed, cancelled, pushed and settled facts never disappear along a run |
| SpoolTheorems.NeverCancelled | src/db_cache.rs:595-609 | an id enters cancellation only through the step that begins it |
| SpoolSafety.StepSafe | src/db_cache.rs:651-758 | every step of every kind keeps the safety invariant of every reservation |
| SpoolSafety.RunSafe | src/db_cache.rs:1853-1923 | the safety invariant holds in every state of every run, across crashes and startup repair |
| SpoolSafety.InsertAllRows | src/db_cache.rs:466-497 | inserting a batch with the conflict rule keeps every old row, gives every id of the batch a row and never a second one |
| SpoolSafety.FlushCommitSelf | src/db_cache.rs:1229-1314 | a commit, reported or not, keeps the invariant of every id in the batch |
| SpoolSafety.DropPromoteSelf | src/db_cache.rs:698-758 | promoting a fallback on drop keeps its record covered in every directory a crash could leave |
| SpoolSafety.BootSelf | src/db_cache.rs:1853-1923 | repairing one marker at startup, or landing a late file operation, keeps that id safe |
| SpoolQuota.StepDrifts | src/db_cache.rs:620-672 | every step of a running process moves the distance between counter and debt by exactly its drift |
| SpoolQuota.DriftSign | src/db_cache.rs:739-756 | while nothing is undercounted, a step drifts down exactly if it is one of the byte-losing ones and up exactly if it is one of the byte-keeping ones |
| SpoolQuota.CoveredNeverWraps | src/db_cache.rs:620-672 | while nothing is undercounted no subtraction wraps |
| SpoolQuota.RunMetered | src/db_cache.rs:369-379 | in every run no record is larger than its reservation or empty, and what the flusher has loaded or a push made durable is visible |
| SpoolQuota.GapMoves | src/db_cache.rs:1169-1210 | if one id is touched, the distance changes by the counter's change less the change of what that id owes |
| SpoolWitness.OvertakenPromotionLeaks | src/db_cache.rs:739-756 | a fault-free run ends with an empty spool, no reservation and six admitted bytes |
| SpoolWitness.VisibleFailedWriteUndercounts | src/db_cache.rs:1075-1114 | a run in which a failed write left its file visible reaches fewer admitted bytes than are owed |
| SpoolWitness.CounterWraps | src/db_cache.rs:746-753 | a run with a quota of 100 ends with no reservation, a counter of 2^64 - 4 and no reservation possible |
| SpoolWitness.AbandonedPushUndercounts | src/db_cache.rs:1075-1114 | a run in which an abandoned write lands after its fallback was promoted reaches fewer admitted bytes than are owed |
| SpoolWitness.ReleasedFileUndercounts | src/db_cache.rs:1054-1073 | an unreserved push that fails after its rename gives back all its bytes while its file is visible |
| SpoolWitness.SaturatedAdmissionUndercounts | src/db_cache.rs:1169-1210 | with the largest quota two reservations saturate the counter below their sum |
| SpoolFlusher.ReadPaths | src/db_cache.rs:2034-2062 | reads exactly the named files that exist, in name order, or fails, exactly when one of them is too large or does not decode |
| SpoolFlusher.RequestLogBatcher.SelectPaths | src/db_cache.rs:2008-2033 | at most a full batch: all buffered names, then files of the directory until all are in or the batch is full |
| SpoolFlusher.RequestLogBatcher.LoadSpoolBatch | src/db_cache.rs:2008-2062 | a successful load is a sorted batch of real files within the entry limit that contains every buffered one still there, and is non-empty if the directory alone is asked and not empty |
| SpoolFlusher.RequestLogBatcher.RequeueFront | src/db_cache.rs:1212-1217 | references go back in front and the buffer is cut to its capacity |
| SpoolFlusher.RequestLogBatcher.Flush | src/db_cache.rs:1229-1314 | loads a sorted batch of real files, with every buffered one still there if all are readable; rows are added exactly if the transaction lands, reported or not; files go and bytes come back exactly if it is known to have landed; what stays referenced is the whole batch, or the files whose removal failed; with working storage the backlog strictly decreases |
| SpoolFlusher.RequestLogBatcher.CommitBatch | src/db_cache.rs:1258-1314 | the same for a loaded batch, and with working storage every file of it is gone |
| SpoolFlusher.FlushIsSafe | src/db_cache.rs:1229-1314 | whatever fails, a file is gone only if its row is in the database, and rows are only added, from files, one per id |
| SpoolRefinement.FlushIsSteps | src/db_cache.rs:1229-1314 | database, files and counter after a flush are those after a sequence of load, commit, delete and end steps of the transition system, each enabled where it is taken |
| SpoolFlusher.RequestLogBatcher.InsertChunks | src/db_cache.rs:1270-1278 | inserting in statements of at most twenty rows is inserting the whole batch |
| SpoolFlusher.RequestLogBatcher.DeleteCommitted | src/db_cache.rs:1294-1314 | exactly the committed files whose removal works are gone, both counters went down by exactly their bytes, stopping at zero, and the others stay referenced in order |
| SpoolFlusher.StuckRefsIff | src/db_cache.rs:1294-1314 | the references kept are those of the entries whose removal failed, with their sizes |
| SpoolFlusher.RequestLogBatcher.Drain | src/db_cache.rs:1229-1314 | repeated flushing with working storage ends with no file and no reference left and a row for every record; every row added is the record of a file |
| SpoolFlusher.InsertAppend | src/db_cache.rs:466-497 | inserting two batches in turn is inserting their concatenation |
| CacheProtocol.HitReflectsAcknowledgedWrites | src/db_cache.rs:1474-1504 | in every interleaving, a returned hit is the stored value after at least every write whose invalidation began before the reader's last generation check |
| CacheProtocol.ReadIsHonest | src/db_cache.rs:1506-1508 | a value read after capturing the generation reflects every acknowledged write as long as that generation is current |
| CacheProtocol.StepInv | src/db_cache.rs:1510-1573 | every step of loaders, writers and readers, with the check and the insertion of a loader apart, keeps all cached and carried values honest |
| CacheProtocol.RunInv | src/db_cache.rs:1731-1804 | honesty holds in every state of every run, for the key cache and the balance cache alike |
| CacheProgress.LoadCompletes | src/db_cache.rs:1510-1569 | a load nothing overtakes leaves the store's latest value in the cache, stamped with the current generation, and changes nothing else but what it evicts |
| CacheProgress.OvertakenIsWithdrawn | src/db_cache.rs:1557-1568 | an insert an invalidation overtook is taken out again before the lock is given up |
| CacheProgress.OvertakenGivesUp | src/db_cache.rs:1518-1527 | a load overtaken before its check ends without inserting |
| CacheProgress.HitCompletes | src/db_cache.rs:1474-1504 | a reader nothing overtakes gets the entry of the current generation and changes nothing |
| CacheProgress.StaleMisses | src/db_cache.rs:1474-1479 | an entry of an older generation is never copied |
| CacheProgress.WriteCompletes | src/db_cache.rs:1571-1590 | a write nothing overtakes is the store's latest value, acknowledged, with its entry gone and every other entry stale |
| CacheProgress.LockIsExclusive | src/db_cache.rs:1521-1527 | in every run the cache is changed only by the holder of the lock, expiry apart, and the lock passes only when free or from its holder |
| ApiKeyCache.IndexIsExact | src/db_cache.rs:1837-1851 | an exact index has a set for an id exactly when some cached entry has it, never empty, holding exactly those keys |
| ApiKeyCache.AddKeepsExact | src/db_cache.rs:1540-1560 | adding a key under the ids of its entry keeps an index exact |
| ApiKeyCache.RemoveKeepsExact | src/db_cache.rs:1677-1683 | removing a key from the set of its id, and the set once empty, keeps an index exact |
| ApiKeyCache.Cache.Get | src/db_cache.rs:1474-1504 | a hit exactly for an entry no older than the time to live, of the generation current before and after the copy; only an older entry of the current generation is removed |
| ApiKeyCache.Cache.InsertIfCurrent | src/db_cache.rs:1510-1569 | inserts exactly while the captured generation is current; at capacity one other key goes; an overtaken insert leaves no entry; indexes stay exact and the size bounded |
| ApiKeyCache.Cache.RemoveKeyLocked | src/db_cache.rs:1677-1683 | exactly that key is gone and both indexes stay exact |
| ApiKeyCache.Cache.InvalidateByKeyId | src/db_cache.rs:1575-1590 | exactly the entries with that key id are gone and the generation has moved on |
| ApiKeyCache.Cache.InvalidateByUserId | src/db_cache.rs:1592-1607 | exactly the entries of that user are gone and the generation has moved on |
| ApiKeyCache.Cache.InvalidateByKeyIds | src/db_cache.rs:1609-1625 | exactly the entries with one of the key ids are gone and the generation has moved on once |
| ApiKeyCache.Cache.InvalidateAll | src/db_cache.rs:1637-1646 | cache and indexes are empty and the generation has moved on |
| ApiKeyCache.Cache.EvictExpired | src/db_cache.rs:1648-1675 | exactly the entries older than the time to live are gone and both indexes stay exact |
| ImageCache.CacheMetadata.Insert | src/image_transform_cache.rs:374-388 | the key gets the next sequence number; the LRU set mirrors the entries, and the byte total is their sum unless it would pass 64 bits |
| ImageCache.CacheMetadata.Remove | src/image_transform_cache.rs:390-396 | exactly that entry is gone; mirror and total hold |
| ImageCache.CacheMetadata.Touch | src/image_transform_cache.rs:398-406 | a known key becomes the most recent and nothing else changes |
| ImageCache.CacheMetadata.OldestExcept | src/image_transform_cache.rs:408-413 | the least recent entry other than the excluded key, or none exactly when there is no other |
| ImageCache.OlderIff | src/image_transform_cache.rs:408-413 | least recent means the lowest sequence number, and among equal ones the key that comes first |
| ImageCache.ImageTransformCache.EvictOldest | src/image_transform_cache.rs:241-271 | the least recent entry other than the target goes, with its file, unless there is none or its file is stuck |
| ImageCache.ImageTransformCache.MakeRoomFor | src/image_transform_cache.rs:241-271 | evicts exactly the shortest LRU prefix, target excluded, after which the projection fits; gives up as exhausted only when nothing else is left |
| ImageCache.ImageTransformCache.Write | src/image_transform_cache.rs:198-239 | a successful write evicts exactly that prefix and ends within both quotas, on disk too if only indexed files are there, except that a byte quota of 2^64 - 1 is exceeded by a sum that does not fit in 64 bits; too large exactly when over a limit; exhausted exactly in the zero-byte one-file case |
| ImageCache.ImageTransformCache.ReadIfFresh | src/image_transform_cache.rs:152-196 | a hit exactly for an indexed, unexpired file of the indexed size within the entry limit that can be read and decodes, which becomes the most recent; a miss takes only that key out; a failed call or a stuck removal changes nothing |
| ImageCache.ImageTransformCache.RemoveEntryLocked | src/image_transform_cache.rs:336-351 | file and entry go together or, if the file is stuck, neither |
| ImageCache.OneMoreGone | src/image_transform_cache.rs:241-271 | evicting the least recent remaining entry extends the shortest prefix |
| ImageCache.FitsIff | src/image_transform_cache.rs:241-258 | the projection fits exactly when one more file, or none if the target is replaced and has bytes, is within the file quota and the other entries with the new one are within the byte quota, or that quota is 2^64 - 1 |
| ImageCache.NoRoomLeft | src/image_transform_cache.rs:241-271 | with only the target left, an admissible entry fits unless the cache is limited to one file and the target is indexed with zero bytes |
| ImageCache.ZeroLengthNeverFits | src/image_transform_cache.rs:241-271 | in that case it never fits, whatever its size |
| ImageCache.WithinQuota | src/image_transform_cache.rs:198-239 | an insertion whose projection fits ends within the file quota, and within the byte quota exactly if that is below 2^64 - 1 or the sum fits in 64 bits |
| ImageCache.RefusalExplained | src/image_transform_cache.rs:241-271 | an admissible entry is refused as exhausted only when the cache is limited to one file and the key was indexed with zero bytes, and in that case always |
| ImageStartup.KeepsNewestIff | src/image_transform_cache.rs:421-470 | whatever the listing order, the scan keeps files that were there, within the file quota and, unless the total saturates, within the byte quota; it keeps exactly the newest, as many as the file quota allows, if these fit the byte quota, and, unless the total saturates, only if they do |
| ImageStartup.ListingOrderMatters | src/image_transform_cache.rs:458-469 | two listings of the same three files of which one leaves the oldest file and the other does not |
| ImageStartup.ScanDirectory | src/image_transform_cache.rs:421-470 | fails exactly when a file that has to go cannot be removed, and otherwise keeps what the specified scan keeps |
| ImageStartup.BlockedIff | src/image_transform_cache.rs:447-469 | startup fails exactly when some listed file that it does not keep cannot be removed |
| ImageStartup.SeenIff | src/image_transform_cache.rs:443-457 | the files considered are exactly the listed ones with a valid name, unexpired and within the entry limit |
| ImageStartup.EarlierIff | src/image_transform_cache.rs:456-458 | files are ordered by modification time, and by name among equal times |
| ImageStartup.Shrink | src/image_transform_cache.rs:458-469 | fails exactly when a dropped file cannot be removed, and otherwise leaves what the specified shrinking leaves, and its running total |
| ImageStartup.ShrinkKeepsMost | src/image_transform_cache.rs:458-469 | with an exact total, the most of the latest files that respect both quotas stay, and no more go |
| ImageStartup.ShrunkSpares | src/image_transform_cache.rs:458-469 | no file of a latest collection that respects both quotas is dropped, even if the running total has saturated |
| ImageStartup.SeedIndex | src/image_transform_cache.rs:471-475 | the fresh index holds exactly the kept files, its recency order is their modification order, and its total is their sum if that fits in 64 bits |
| ImageStartup.LoadCacheMetadata | src/image_transform_cache.rs:416-476 | fails exactly when the scan does; otherwise the index mirrors the kept files in modification order, within the file quota and, unless the total saturates, within the byte quota |
| ImageStartup.Open | src/image_transform_cache.rs:103-128 | a cache opened over the files the scan left has only indexed files in its directory and, unless the total saturates, is valid and within both quotas on disk |
| ImageStartup.SaturatedScanKeepsTooMuch | src/image_transform_cache.rs:456-469 | two files under a byte quota of 2^64 - 1 that the scan keeps although together they exceed it |
| Glob.CaseSensitiveGlobMatch | src/glob.rs:16-54 | the loop with one bookmark terminates and accepts exactly what the recursive definition accepts |
| Glob.GlobMatches | src/billing_rate_store.rs:744-777 | the billing matcher terminates and accepts exactly what the recursive definition accepts on the ASCII-lowered inputs |
| Glob.MatchesIff | src/glob.rs:3-16 | a pattern matches exactly when the value can be cut into consecutive stretches, any one for a star, one symbol for a question mark and the symbol itself for anything else |
| Glob.LowerIs | src/billing_rate_store.rs:756-757 | lowering turns A to Z into a to z and nothing else, so two names agree exactly when they differ in the case of those letters only |
| Glob.LastStarSuffices | src/glob.rs:37-40 | once a later star is reached, moving the earlier one never helps |
| Glob.MismatchAdvances | src/glob.rs:41-44 | after a mismatch the last star matches from where it stood exactly if it matches from one symbol further on |
| Glob.FinishDecides | src/glob.rs:50-53 | when the value is used up, the pattern matches exactly if only stars follow |
| RateLimiter.PublicRateLimiter.Admit | src/public_api.rs:34-71 | the decision and the new map are those of the specified step; the map stays within capacity; refused as full exactly when the address is new, the map at capacity and every bucket seen less than 120 seconds ago; a new address starts with 19 tokens left; only the least recently seen bucket of those idle for 120 seconds goes, and no other bucket changes |
| RateLimiter.PublicRateLimiter.OldestIdle | src/public_api.rs:49-58 | an idle bucket no other idle one is older than, or none exactly when none is idle |
| RateLimiter.EvictionIsUnobservable | src/public_api.rs:34-71 | every decision other than refusing a new address when full is that of a limiter that never evicts, fed the same remaining requests |
| RateLimiter.WindowBound | src/public_api.rs:9-12 | in any window of w seconds any address is admitted at most 20 + w times, whatever was evicted |
| RateLimiter.LimitedIff | src/public_api.rs:34-47 | in every run a request is limited if and only if since some earlier request of its address, at time u, that address was admitted more than 19 + (t - u) times |
| RateLimiter.TokensAccounted | src/public_api.rs:34-47 | the tokens of an address are 20 less its admissions plus the seconds since some earlier request of its own |
| RateLimiter.FullHasCause | src/public_api.rs:49-60 | a request is refused as full only if as many other addresses as the map holds made a request in the last 120 seconds |
| RateLimiter.StepSimulates | src/public_api.rs:34-71 | one request leaves the bounded and the never-evicting limiter in agreement |
| RateLimiter.IdleIsFull | src/public_api.rs:9-12 | a bucket idle for two minutes answers like a new one |
| RateLimiter.WindowBudget | src/public_api.rs:34-47 | admissions in a window plus the tokens left never exceed the tokens at its start plus its length |
| RateLimiter.SizeIsBounded | src/public_api.rs:49-60 | the map never exceeds its capacity in any run |
| ExactDecimal.ScaleIsExact | src/exact_decimal.rs:35-43 | for every multiplier and every 128-bit base the result is the exact product truncated toward zero when that fits, and none exactly when it does not |
| ExactDecimal.ScaleIff | src/exact_decimal.rs:35-43 | the result is r exactly when r is the product over the power of ten with the fraction cut off and lies between -2^127 and 2^127 - 1 |
| ExactDecimal.RemainderNeverOverflows | src/exact_decimal.rs:35-43 | the product of remainder and coefficient always fits in 128 bits |
| ExactDecimal.ParseKeepsScaling | src/exact_decimal.rs:12-33 | parsing accepts exactly the positive decimals with at most nine places, refuses zero as not positive and more places as too precise, and the stored form scales every amount alike |
| ExactDecimal.NormalizeKeepsValue | src/exact_decimal.rs:12-33 | the normal form denotes the same number and is a valid multiplier |
| ExactDecimal.NormalFormIsUnique | src/exact_decimal.rs:12-33 | equal values have one normal form |
| RateLookup.ListMatchingRates | src/billing_rate_store.rs:158-193 | exactly the enabled rows of the profile that are untyped or of the type and whose pattern covers the model, each once, the higher priority first and among equals the id that is a prefix or has the smaller symbol at the first difference |
| RateLookup.ListCandidateRates | src/billing_rate_store.rs:258-325 | for any table and lists, with chunks of 200: each enabled row of the profiles that is untyped or of the types, once, in the same order; nothing if a list is empty |
| RateLookup.AscendingIff | src/billing_rate_store.rs:175 | listed in order means by descending priority and ascending id |
| TextOrder.LessIff | src/billing_rate_store.rs:175 | ascending ids: a proper prefix first, otherwise the smaller symbol at the first difference |
| RateLookup.RunTypeChunks | src/billing_rate_store.rs:279-316 | a chunk of profiles is covered for all types once the type chunks are done |
| RateLookup.Gather | src/billing_rate_store.rs:312-315 | rows returned by several statements are kept once, under their id |
| RateLookup.Deduplicate | src/billing_rate_store.rs:266-275 | the distinct names in ascending order |
| RateLookup.NarrowCandidates | src/app.rs:1306-1326 | exactly the candidates that apply to the profile, type and model, still in order |
| RateLookup.LookupsAgree | src/app.rs:1306-1326 | narrowing the candidates and querying directly give the same sequence, for every table and all lists that contain the profile and the type |
| RateLookup.ListingUnique | src/billing_rate_store.rs:317-324 | a set of rows has only one listing in that order |
| RateLookup.FilterDone | src/app.rs:1306-1326 | filtering any ordered superset of the applicable rows gives the applicable rows in order |
| ProfileCopy.RateStore.CopyProfile | src/billing_rate_store.rs:514-595 | refused, with the first failing check as reason and nothing changed, or copied with one row added per source row and all else untouched; the exact condition for each |
| ProfileCopy.CopyIsOneToOne | src/billing_rate_store.rs:514-595 | after a copy the target profile is a one-to-one image of the source profile under the ids `manual:profile-copy:<target>:<id>`, equal in every column but id, source, profile and time, and every row there before is as it was |
| ProfileCopy.TrimIsStretch | src/billing_rate_store.rs:519 | the trimmed target is a stretch of what was given with nothing but white space around it |
| ProfileCopy.SecondCopyRefused | src/billing_rate_store.rs:566-589 | a table in which a copy to an empty target fails on an id taken by an earlier copy |
| ProfileCopy.CopiedIdInjective | src/billing_rate_store.rs:1137-1139 | within one target, different rows get different ids |
| ProfileCopy.CopiedIdsCollide | src/billing_rate_store.rs:1137-1139 | across targets two rows can get the same id |
| ProfileCopy.CopySurvives | src/billing_rate_store.rs:505-513 | no sequence of catalog syncs, models.dev syncs, metadata upserts and metadata deletes changes a copied row, on SQLite or PostgreSQL |
| ProfileCopy.CopiedProfileSurvives | src/billing_rate_store.rs:505-513 | every row of a copied profile is there unchanged after any such sequence |
| ProfileCopy.CatalogRowVanishes | src/billing_rate_store.rs:668-675 | a row that kept the catalog source is gone after the next committed sync that does not list it |
| ProfileCopy.CopyNamespace | src/model_registry_store.rs:1290-1304 | a copy's id never matches the pattern by which mirrored rates are deleted, with or without case |
| ProfileCopy.RateStore.SyncCatalog | src/billing_rate_store.rs:628-741 | replaces the catalog rows, skipping ids of manual rows, or changes nothing exactly when an id is taken |
| RateEffects.CatalogCommitsIff | src/billing_rate_store.rs:649-731 | a sync commits exactly when no listed id belongs to a row of a source other than manual and catalog and no id without a manual row is listed twice |
| ProfileCopy.RateStore.UpsertModelMetadata | src/model_registry_store.rs:561-708 | stores the merged record and rewrites its mirrored rates; `UpsertedRecord` and `MirroredRate` say what both hold |
| RateEffects.UpsertedRecord | src/model_registry_store.rs:561-708 | after an upsert each field left out has its stored value, or none in a new record, each field given has the given value, null included, a currency left out stays or is CNY in a new record, the raw data stays, the source is manual, and every other record is as it was |
| RateEffects.MirroredRate | src/model_registry_store.rs:1224-1288 | after an upsert each priced class has the rate `model_metadata:<model>:<class>` with the record's price, currency, source, time and provider as profile, or `default`; plain and untiered, unless it replaces a rate whose kind and tiers it keeps; an unpriced class has none |
| RateEffects.OnlyMirrored | src/model_registry_store.rs:1224-1304 | no other rate mirrors the model |
| RateEffects.PricedIff | src/model_registry_store.rs:1235-1252 | the usage classes are input_uncached, output, cache_read, cache_write_5m and reasoning_output, each with the price of its field |
| RateEffects.LikeMirrorIff | src/model_registry_store.rs:1290-1304 | the deleted ids start with `model_metadata:`, any sixth character, in any letter case on SQLite |
| ProfileCopy.MirrorRates | src/model_registry_store.rs:1224-1288 | one upsert for each priced usage class, in order |
| ProfileCopy.MirrorIsExact | src/model_registry_store.rs:1224-1304 | after an upsert the mirrored rates of the model are exactly one for each priced usage class, with the class, its price and the record's profile, currency and source, and every other rate is as it was |
| ProfileCopy.RateStore.DeleteModelMetadata | src/model_registry_store.rs:710-729 | removes the record and its mirrored rates, or nothing if there was no record |
| ProfileCopy.DeleteIsExact | src/model_registry_store.rs:710-729 | after a delete exactly the rates that do not mirror the record and the other records are left, as they were |
| ProfileCopy.CatalogIsExact | src/billing_rate_store.rs:649-731 | after a committed sync the catalog rows are exactly the listed ones without a manual row of that id, as listed, and every other row is as it was |
| ProfileCopy.MetadataIsExact | src/model_registry_store.rs:815-858 | after a models.dev sync manual records are as they were and the others are exactly the models of the feed with a positive input price and no manual record, with the provider, mode, prices, limits and raw data of the feed |
| ProfileCopy.FeedRatesAreExact | src/model_registry_store.rs:822-1027 | after a models.dev sync the models.dev rates are exactly those of the priced classes of the feed's models, as the feed gives them up to kept tier columns, and every rate of another source the feed does not overwrite is as it was |
| RateEffects.FeedPricesIff | src/model_registry_store.rs:887-912 | the rates of a feed variant are exactly one for each priced class, `models_dev:<provider>:<model>:<class>`, in dollars, with the provider as profile, plain and untiered |
| RateEffects.FeedKeepsTiers | src/model_registry_store.rs:979-1027 | a synchronised rate has the tiers of the row of another source it replaces, or none |
| RateEffects.SyncedRecord | src/model_registry_store.rs:815-886 | after a models.dev sync a manual record stays; any other is that of a feed variant with a positive input price for the model, in dollars and of source models_dev, or is gone |
| ProfileCopy.WriteSynced | src/model_registry_store.rs:979-1027 | one upsert for each rate of the feed, in order, keeping the tier columns |
| ProfileCopy.RateStore.SyncFromModelsDev | src/model_registry_store.rs:809-1027 | drops and rewrites the models.dev rows of both tables, leaving models with a manual record alone |
| Prober.HealthTable.Visit | src/app.rs:677-952 | nothing changes unless the chosen key was due and a result came back; then that key alone gets that result |
| Prober.HealthTable.Pass | src/app.rs:616-956 | in a pass logs only grow, and only with results of the time the pass began |
| Prober.SelectModel | src/app.rs:672-720 | per model the configured model if due, else the least due one; per channel the configured model, else the least; none exactly when nothing is due or there is no model |
| Prober.ProberIsLawful | src/app.rs:677-952 | in every state any run of passes reaches, results of a key are an interval apart and a cooldown apart after a failure, and the key is healthy exactly when its successes since the last failure reached the threshold |
| Prober.ResultsAreSpaced | src/app.rs:677-720 | the i-th and j-th results of a key are at least j - i intervals apart, plus the cooldown in place of the first if the i-th failed, whatever the clock did |
| Prober.RecoversAtThreshold | src/app.rs:899-925 | an unhealthy key recovers exactly when its successes since the last failure, with those counted before, reach the threshold |
| Prober.RecoveryTakesThreshold | src/app.rs:2030-2036 | with no successes counted at the start, a recovery ends a log with exactly the threshold number of successes and no failure between |
| Prober.RecoveryIsLast | src/app.rs:677-720 | a healthy key is never probed |
| Prober.DueIff | src/app.rs:686-719 | after a result an unhealthy key is due exactly when the interval, and after a failure the cooldown too, has passed since that result |
| Prober.RecoveredIsClean | src/app.rs:899-925 | a recovered key has no cooldown, no count, no last probe and the time of its last success |
| Prober.HealthKeysDiffer | src/handlers/routing.rs:28-33 | within one channel the models have different keys, none of them the channel's |
| Prober.HealthKeysCollide | src/handlers/routing.rs:28-33 | across channels two colons in a name can make two of them share a key |
| Captcha.NothingIsUsedTwice | src/captcha.rs:200-290 | after any interleaving, in total and name by name, verified and live tokens never exceed redemptions, redemptions and live challenges never exceed creations, and both stores are within bound |
| Captcha.UsedInTime | src/captcha.rs:303-306 | whatever is redeemed or verified was handed out by an earlier, successful step less than its lifetime before |
| Captcha.UnspentIsRedeemed | src/captcha.rs:247-272 | within ten minutes of its creation an unspent challenge is redeemed if fewer than 10,000 tokens are stored, and its token lives twenty minutes |
| Captcha.UnverifiedIsAccepted | src/captcha.rs:275-290 | within twenty minutes of its redemption an unverified token is accepted, and is then gone |
| Captcha.ChallengeHasOrigin | src/captcha.rs:200-229 | every live challenge comes from a creation that was not refused and expires its lifetime after it |
| Captcha.TokenHasOrigin | src/captcha.rs:252-272 | every live token comes from a redemption that succeeded and expires its lifetime after it |
| Captcha.RunKeeps | src/captcha.rs:200-290 | both stores are sound after any interleaving, and as many tokens were issued as challenges redeemed |
| Captcha.BuiltInCap.CreateChallenge | src/captcha.rs:200-229 | the first drawn name that no live challenge has, unless the store is full after expiry |
| Captcha.BuiltInCap.CheckChallenge | src/captcha.rs:231-245 | says whether the challenge is live, changing nothing but expiry |
| Captcha.BuiltInCap.SpendChallenge | src/captcha.rs:247-272 | capacity error exactly when the token store is full, without spending; success exactly when the challenge is still live |
| Captcha.BuiltInCap.VerifyToken | src/captcha.rs:275-290 | accepts exactly a live token and removes it |

## Left out

- The last-used batcher, which writes the latest use of each key in bounded chunks, and the shipping of spooled batches to a primary node, which deletes files after delivery instead of after a commit.
- The cancellation and flush-error texts, `spool_error` health flags and logging: they change no state the properties speak of.
- `spool_bytes` as an exact total: it is modelled in the flusher only, where it goes down by the deleted bytes.
- The retry backoff of a terminal push: a retry is a repeated step, and its delays do not matter to safety.
- SpoolFlusher.RequestLogBatcher.Flush: runs without other threads in between; the transition system lets them in between its steps, and loads an arbitrary batch of visible files.
- CacheProtocol.HitReflectsAcknowledgedWrites: generations are unbounded, so a wrap-around of the 64-bit counter is not modelled.
- The balance cache as a class: it is the key cache without indexes, and the protocol model covers both.
- RateLimiter.WindowBound: over rationals; rounding of the floating-point counts is not modelled, and request times do not go back.
- ImageCache.CacheMetadata.Insert: the total is the sum only while the sum fits in 64 bits; past that the source saturates.
- ImageStartup.LoadCacheMetadata: within the byte quota only if the running total cannot saturate, that is if the byte quota plus the entry limit, or all files together, fit in 64 bits; past that the source's counter no longer sees the excess.
- ImageStartup.KeepsNewestIff: the only-if half leaves out scans whose running total saturates, where it is false.
- ImageStartup.ScanDirectory: errors of listing the directory or reading a file's metadata, which abort startup, are not modelled.
- The image cache's periodic cleanup, which removes every expired entry by the modelled removal, its temporary files, which startup removes, and the payload encoding.
- Decimal parsing and printing, SHA-256, random generation, proof-of-work checking of captcha solutions: library or pure computation; a redemption step stands for one whose solutions were valid.
- Captcha.BuiltInCap.CreateChallenge: requires that some draw is unused unless the store is full, since the source draws until it finds one.
- The JSON text stored with a synchronised rate, which names feed and provider, is taken as given.
- Choosing the best models.dev variant, model-id normalisation, price validation: the synchronisation takes the chosen variants, and a rejected input is a change that did not commit.
- Chunking of catalog and models.dev writes: a transaction's statements are applied row by row.
- Upserts and deletions of single billing rates by an administrator: they may change any row by design.
- Prober.HealthTable.Visit: other writers of a health key (passive failures, administrative resets) are left out, as are changes of settings; times do not reach the ends of the 64-bit range.
- HTTP handlers, routing, upstream calls, authentication, the frontend and migrations.
