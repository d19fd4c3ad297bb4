# InfiniCache, verified model

InfiniCache keeps erasure-coded objects in the memory of short-lived cloud functions. A client library
sends chunk requests through a sliding window; a proxy places chunks on function instances, decides when an
object has been created, reserves backups and rotates the instances through a moving window; the
functions persist their operations to a lineage log from which a reclaimed function is rebuilt. This
project models the parts of that system whose correctness spans several steps or several components and
proves what they keep.

Code shared by goroutines is modelled as atomic steps over one state, with theorems about every
interleaving. Code that changes objects in place is modelled by classes whose methods are tied to
functions of the old state, and laws are proved of those functions.

| file | system part |
|---|---|
| `Common.dfy` | options, sequences and products, shared |
| `WaitGroup.dfy` | wait group that tolerates a Done before its Add |
| `WindowProtocol.dfy` | concurrent senders and ackers of the client window |
| `BucketWindow.dfy` | the linked bucket list behind the window |
| `Tracker.dfy` | the persistence tracker: reorder buffer, token throttle, signals |
| `LineageReplay.dfy` | replay of the lineage |
| `LineageSnapshot.dfy` | snapshots of the lineage |
| `LineageLog.dfy` | the hash-chained term log and its window of unconfirmed terms |
| `MetaStore.dfy`, `AnyCandidate.dfy`, `Verdicts.dfy` | the versioned metadata store: with fresh candidates, with any, and what became of each version and why |
| `RequestGroup.dfy` | the packed counters of an object's chunk requests and the race for their responses |
| `Backups.dfy` | reservation of backups and the filter of the backup nodes |
| `MovingWindow.dfy`, `ClusterObjects.dfy` | buckets over the double-buffered instance group |
| `BackupCandidates.dfy` | choice of backup candidates for a node |
| `BufferQueue.dfy` | the self-indexing heap of buffered chunks and eviction from it |
| `Splitting.dfy` | download parts, chunk recovery, fragment split and join |

`dafny verify dfyconfig.toml` checks everything.

## Where the code falls short of its promise

Each of these is stated as a lemma or contract with the exact condition under which the promise holds.

- The wait group keeps "real count = max(waiting, 0)" exactly for deltas that do not jump over zero (`AddKeepsBalanceIff`).
- A request that is acked and retired while AddRequest is still adding it has lost its slot, and then sleeps for ever even though its place in the window is free; a sleeping sender can be woken if and only if its slot is filled (`CanWakeIffStored`, `LostWakeupWithoutDiscipline`). When acks match sent requests only, no wakeup is lost (`NoLostWakeup`).
- Replay keeps the first a log tells of a key and the serving node the last. They agree exactly under the condition of `ReplayRebuildsServingIff`; a key set again after its deletion is lost (`SecondSetIsLost`), and one deleted in the term it was set in comes back (`ShortLivedKeyResurrected`).
- A set whose upload fails is dropped from the log but stays in the repository, so the next snapshot lists it and recovers a key that no term carries (`FailedUploadResurfaces`). A snapshot and the later terms recover what all terms do if and only if the snapshot lists no such key and no short-lived one, for keys set once (`SnapshotReplayEquivalentIff`), and under the condition of `AnySnapshotEquivalentIff` for any log and memory. A snapshot restores the repository it was taken of if and only if exactly the chunks without bytes are deleted (`SnapshotRestoresIff`).
- `ReviseBy` asks the new meta, not the one it replaces, whether it is valid, so inserting a candidate that was already invalidated over a created version hides that version from `Get` (`CreatedVersionStaysReadableIff`); in every interleaving a greatest created version is found if and only if it is the newest or the version right above it was valid when it was revised (`GetFindsGreatestIff`, `LinksIffValidWhenRevised`, `GetFindsGreatestIffRevisedValid`); `GreatestMissed` is a run from the empty store that misses it. Metas made by `NewMeta` are valid and the store keeps its promises for them. The comment in `meta.go` gives a deleted meta the flags 0x05; the code gives 0x07, and the model follows the code.
- A timeout that sets a chunk's response between the mark and the count of its success makes a fully successful SET report nothing (`ReportLostToTimeout`); the report is made if and only if some response had not passed its once when the last success was counted (`ReportedIff`).
- A fallback instance overwrites the candidate of the hole it fills, so a candidate that was merely busy is forgotten unless a fallback reserves it again (`LostIff`); `BusyCandidateForgotten` performs such a reservation.
- `ResetCandidates` accepts a required number below the number of backups held. The proxy's locator and the backups then disagree on the total (`RerouteAcceptedIff`, `TotalsDisagree`). Nothing in the repository does so: backups are assigned to newly created instances only.
- The channel for signals has room for one, and a delayed signal that is sent again evicts whatever waits in it, a forced one included (`ForcedSignalFate`, `ForcedSignalEvicted`).
- `bufferRemove` keeps the buffer counter right if and only if what it removes has the size of what it was asked to remove (`BufferRemove`); this holds as long as a key names one queued chunk.
- `ChunkQueue.Less` holds both ways between chunks of different sizes (`LessBothWaysIff`). The queue of the buffer can be in heap order only while all chunks have one size (`OrderNeedsEqualSizes`); as long as they do, the operations keep the order and eviction takes the least recently used first (`Pop`, `Validate`), and for mixed sizes nothing is claimed about the order.
- The sizes `decodeFragments` recomputes equal the sizes `Split` produced if and only if all fragments but the last are full; otherwise one comes out negative (`FragmentSizesAgreeIff`, `SizesDisagree`). The numbers of fragments the client chooses meet the condition (`ClientFragmentsAgree`).
- A chunk that is deleted while it is being recovered never releases those who wait for it (`Recover`).

## Model

| member | source | states |
|---|---|---|
| `EarlyDoneWaitGroup.AddKeepsBalanceIff` | common/sync/waitgroup.go:14-22 | the real counter stays max(waiting, 0) across an Add if and only if the delta does not jump over zero |
| `EarlyDoneWaitGroup.UnitRunBlocksOnSurplus` | common/sync/waitgroup.go:14-32 | over every run of single Adds and Dones in any order, exactly the surplus of Adds blocks |
| `EarlyDoneWaitGroup.WaitGroup.Add` | common/sync/waitgroup.go:14-22 | from a balanced state the counter callers block on is max(waiting, 0) afterwards if and only if the delta does not jump over zero |
| `EarlyDoneWaitGroup.WaitGroup.Reset` | common/sync/waitgroup.go:42-46 | early Dones are forgotten and no waiter is released by it |
| `WindowProtocol.NeverAheadOfWindow` | common/redeo/client/wnd.go:180-226 | in every interleaving, a request that was let through is at most size numbers ahead of the ack frontier |
| `WindowProtocol.CanWakeIffStored` | common/redeo/client/wnd.go:180-318 | in every interleaving, with acks matching requests at any moment after they were stored, a sender that sleeps on a free place can still be woken if and only if its slot is filled; otherwise no continuation wakes it |
| `WindowProtocol.StoredHasRelease` | common/redeo/client/wnd.go:263-312 | in every interleaving, a sender that sleeps on a free place and has its slot has an acker that is going to release it; an empty slot means the request was acked and retired while being added |
| `WindowProtocol.AsleepThroughout` | common/redeo/client/wnd.go:288-294 | a sender that sleeps without a slot sleeps through every continuation |
| `WindowProtocol.CreditGoesWithSlot` | common/redeo/client/wnd.go:288-298 | in every interleaving, a number whose slot was emptied and whose notifier was reset has no notification left, so whoever blocks then sleeps for good |
| `WindowProtocol.MatchIffAwake` | common/redeo/client/wnd.go:371-396 | in every interleaving, an ack finds a request exactly while its slot is filled and its sender is not asleep |
| `WindowProtocol.NoLostWakeup` | common/redeo/client/wnd.go:244-318 | if acks match only requests that were sent, a sender that sleeps on a free place has an acker that is still going to release it and finds its slot |
| `WindowProtocol.QuiescentFrontier` | common/redeo/client/wnd.go:263-312 | with no acker under way, in every interleaving, the frontier is the longest acked prefix, and a sender still asleep is beyond the window if and only if its slot is filled |
| `WindowProtocol.TurnComesBySwap` | common/redeo/client/wnd.go:272-298 | the place of a stored number becomes free only by the swap of the frontier to that number minus size |
| `WindowProtocol.LostWakeupWithoutDiscipline` | common/redeo/client/wnd.go:288-294 | the empty slot occurs: a reachable run in which a request acked while being added sleeps with its place free and no acker left |
| `BucketWindow.FrontierUnique` | common/redeo/client/wnd.go:263-312 | the frontier is determined by the set of acked numbers, whatever their order |
| `BucketWindow.ReqBucket.Reset` | common/redeo/client/wnd.go:74-89 | counters cleared; all slots emptied if something was unacked, none touched otherwise |
| `BucketWindow.Window.TakeNumber` | common/redeo/client/wnd.go:188-196 | consecutive numbers; everything else unchanged |
| `BucketWindow.Window.Store` | common/redeo/client/wnd.go:198-210 | the plain map gains exactly the request under its number, the list refines it whatever had to be appended |
| `BucketWindow.Window.Seek` | common/redeo/client/wnd.go:348-369 | the bucket whose range contains the number, or none beyond the list |
| `BucketWindow.Window.Find` | common/redeo/client/wnd.go:371-396 | the outcome for acked, unseen, unsent and found numbers |
| `BucketWindow.Window.MatchRequest` | common/redeo/client/wnd.go:228-242 | found exactly for stored, unacked, sent numbers, and then the request stored under that number |
| `BucketWindow.Window.AckRequest` | common/redeo/client/wnd.go:244-318 | the ack set gains exactly the number, the frontier becomes the longest acked prefix, and exactly the senders size numbers ahead of passed numbers are released, in increasing order: those with a slot whose number lies within the window now and did not before |
| `BucketWindow.Window.Advance` | common/redeo/client/wnd.go:263-312 | the frontier loop stops at the first number that is not acked and releases exactly the stored numbers that came within the window, in order |
| `BucketWindow.Window.AppendBucket` | common/redeo/client/wnd.go:398-419 | the list grows by an empty bucket for the next range |
| `BucketWindow.Window.RecycleTop` | common/redeo/client/wnd.go:421-428 | the head bucket moves behind the tail under the next range; the plain map is unchanged because only acked numbers were in it |
| `BucketWindow.Window.Gc` | common/redeo/client/wnd.go:472-493 | recycling and moving active keep the refinement and every bucket; active ends at the frontier's bucket |
| `Tracker.DeliversSuccessesInOrder` | lambda/storage/persistent_storage.go:302-322 | in every interleaving, delivered operations are distinct, successful and in arrival order, and all successful ones once everything is concluded |
| `Tracker.DeliversWhatSucceeded` | lambda/storage/persistent_storage.go:302-400 | in every run, the operations taken in, the one in hand and those waiting are the submitted ones in order, and a concluded operation is handed on if and only if it needed no upload or its upload reported success |
| `Tracker.TokenSendsNeverBlock` | lambda/storage/persistent_storage.go:324-400 | free tokens, queued tokens and uploads in flight add up to the concurrency in every interleaving, so every token send finds room, and whenever an operation is in hand a token is queued or an upload will bring one |
| `Tracker.ActsOnlyWhenConcluded` | lambda/storage/persistent_storage.go:402-447 | a signal that does not force its way is acted on only with every dequeued operation concluded |
| `Tracker.DelayedSignalHasCarrier` | lambda/storage/persistent_storage.go:402-430 | a delayed signal waits for an upload or queued token whose collection re-examines it |
| `Tracker.ForcedSignalFate` | lambda/storage/persistent_storage.go:402-470 | the tracker acts on a queued forced signal as soon as it takes it, and the signal is lost exactly when another is sent first or the collection of the last outstanding operation sends a delayed one again |
| `Tracker.UnforcedSignalFate` | lambda/storage/persistent_storage.go:415-470 | an unforced signal stays queued while operations wait, is put off while one is outstanding, is acted on otherwise, and is lost before that exactly by eviction |
| `Tracker.DelayedSignalFate` | lambda/storage/persistent_storage.go:402-447 | a delayed signal stays until the collection of the last outstanding operation sends it again, or another is put off in its place |
| `Tracker.NothingAfterStop` | lambda/storage/persistent_storage.go:402-447 | in every interleaving the tracker has stopped if and only if the last signal it acted on was a stop, and no earlier one was |
| `Tracker.ForcedSignalEvicted` | lambda/storage/persistent_storage.go:402-470 | for every concurrency, a reachable run in which the collection of the last upload sends a delayed signal again and the queued forced signal is gone without having been acted on |
| `Tracker.SuccessesExact` | lambda/storage/persistent_storage.go:306-321 | the reference list of deliveries contains exactly the successful slots below a position |
| `Tracker.EventLoop.CollectPersisted` | lambda/storage/persistent_storage.go:306-321 | the collection loop drains exactly the concluded prefix and delivers its successes |
| `Tracker.EventLoop.OnOperation` | lambda/storage/persistent_storage.go:330-345 | keeps the invariant of all runs, and the operation in hand finds a token queued or an upload that will bring one |
| `Tracker.EventLoop.OnTokenForOperation` | lambda/storage/persistent_storage.go:345-400 | a collected token is reused for the upload in the slot reserved for the operation |
| `Tracker.EventLoop.OnToken` | lambda/storage/persistent_storage.go:402-414 | a token is collected and a delayed signal sent again once all is concluded |
| `Tracker.EventLoop.OnSignal` | lambda/storage/persistent_storage.go:415-447 | keeps the invariant of all runs, and acts on an unforced signal only with nothing incoming, no upload under way and no outcome uncollected |
| `LineageReplay.ReplayRebuildsServingIff` | lambda/storage/lineage_storage.go:998-1213 | for every log, with keys deleted and set again at will: replay rebuilds the live and deleted keys, ids and sizes of the node that wrote it if and only if, key by key, some delete came in a later term than the first event exactly when a delete is the last event, and first and last set agree |
| `LineageReplay.ReplayKeepsFirst` | lambda/storage/lineage_storage.go:1045-1151 | what replay makes of one key of any log: the first the log tells of it, unless some delete is of a later term; then it is deleted, without bytes and with the term of the first such delete |
| `LineageReplay.ServeKeepsLast` | lambda/storage/lineage_storage.go:141-165 | what the serving node makes of it: id and size of the last set, deleted and without bytes if and only if a delete is last, with the term of the last event |
| `LineageReplay.WrittenOnceRebuildsIff` | lambda/storage/lineage_storage.go:998-1213 | with keys written once, replay rebuilds the node if and only if no key was deleted in the term it was set in |
| `LineageSnapshot.SnapshotRestoresIff` | lambda/storage/lineage_storage.go:714-745 | a snapshot restores the repository if and only if exactly the chunks without bytes are deleted |
| `LineageSnapshot.SnapshotReplayEquivalentIff` | lambda/storage/lineage_storage.go:714-1213 | with keys written once: snapshot plus later terms and all terms give the same live and deleted keys, ids and sizes, whatever was in memory under whatever label, sets whose upload failed included, if and only if the snapshot lists no key set and deleted within one term and no failed one whose deletion did not reach the log |
| `LineageSnapshot.RecoveredSnapshotEquivalentIff` | lambda/storage/lineage_storage.go:714-1213 | the same for the snapshot of a node that was rebuilt from the log, had its chunks downloaded and went on serving |
| `LineageSnapshot.LaterLabelsAreHarmless` | lambda/storage/lineage_storage.go:714-735 | if everything in memory that is not in the log is labelled after the snapshot, the condition is that no key of the snapshot's own terms is short-lived |
| `LineageSnapshot.AnySnapshotEquivalentIff` | lambda/storage/lineage_storage.go:714-1213 | for any log and any memory of non-empty chunks, with keys deleted and set again at will and operations that reach the log later or never: snapshot plus later terms recover what all terms do if and only if for each key the first the log tells agrees with the last the snapshot lists and the later deletes, and nothing is listed that the log does not know |
| `LineageSnapshot.FailedUploadResurfaces` | lambda/storage/persistent_storage.go:306-321 | a set whose upload failed is dropped from the log and listed by the snapshot of its term, which recovers a key no term carries |
| `LineageSnapshot.LoggedMemory` | lambda/storage/lineage_storage.go:714-735 | a log with keys written once, and a memory all of which reaches it, meet the premises of the law |
| `LineageReplay.SnapshotReplayRank` | lambda/storage/lineage_storage.go:1040-1056 | both recoveries arrive at the same difference rank, given the rank the log records |
| `LineageReplay.LaterTermsAddRank` | lambda/storage/lineage_storage.go:1040-1056 | terms replayed later without a snapshot add the number of their sets to the rank the node has, and replaying in two parts ends with the rank of replaying all |
| `LineageReplay.FirstIsSet` | lambda/storage/lineage_storage.go:582-600 | any log that starts on an empty node contains a set, so its rank is positive and its snapshot is recognised as one |
| `LineageLog.Log.SnapshotRank` | lambda/storage/lineage_storage.go:371-386 | the rank kept by onPersisted and stored by doCommitTerm is the number of sets of all committed terms, so a snapshot with it recovers the rank of the whole log |
| `LineageReplay.NewerChunksUntouched` | lambda/storage/lineage_storage.go:1055-1066 | replay never alters a chunk whose term exceeds the recovered one |
| `LineageReplay.ShortLivedKeyResurrected` | lambda/storage/lineage_storage.go:1055-1085 | for every key, a log after whose full replay it lives although it was deleted |
| `LineageReplay.SecondSetIsLost` | lambda/storage/lineage_storage.go:1091-1095 | for every key, a log that sets it again after deletion and leaves it deleted on replay |
| `LineageReplay.MainStorage.DoReplayLineage` | lambda/storage/lineage_storage.go:998-1213 | the in-place loops compute the replay function and the rank, and return each new key to download exactly once |
| `LineageLog.EqualHashesEqualHistories` | lambda/storage/lineage_storage.go:655-667 | with an injective hash, equal chained hashes at equal terms mean equal operations and update counts in every term |
| `LineageLog.ConsistentIffSameHistory` | lambda/storage/lineage_storage.go:316-318 | the consistency test on term and hash says yes if and only if the whole histories are the same |
| `LineageLog.RecoveredUpdates` | lambda/storage/lineage_storage.go:974-985 | what recovery adds up from a term equals the update count the committing node had |
| `LineageLog.Log.OnPersisted` | lambda/storage/lineage_storage.go:371-386 | committed operations followed by pending ones grow by exactly the delivered operation |
| `LineageLog.Log.DoCommitTerm` | lambda/storage/lineage_storage.go:644-712 | the pending operations become the next chained term and the delivered sequence is unchanged; a failed encoding changes nothing |
| `LineageLog.Log.Compact` | lambda/storage/lineage_storage.go:681-687 | moving the unconfirmed terms to the front of the array does not change which they are |
| `LineageLog.Log.WindowContent` | lambda/storage/lineage_storage.go:644-712 | the window holds exactly the consecutive terms after the last confirmed one |
| `LineageLog.Log.Validate` | lambda/storage/lineage_storage.go:249-290 | confirmation moves exactly up to the term that equals the given view, for current and for historical views, and never back |
| `Backups.ExactlyOneBackupPerKey` | common/types/backup_locator.go:53-72 | for a fixed total a backup accepts a chunk if and only if it is the one the locator gives and the chunk is not above the limit, if there is one |
| `Backups.Backups.ResetCandidates` | proxy/lambdastore/backups.go:88-101 | new candidates and required number, above or below the current length; what is held stays, and a slice that is too small becomes one of the required length with holes at the end |
| `Backups.Backups.ReserveBacking` | proxy/lambdastore/instance.go:580-604 | an instance that was granted in this call is not granted again; otherwise the answer is the outside world's, and exactly a granted one is reserved |
| `Backups.Backups.PromoteCandidate` | proxy/lambdastore/backups.go:312-319 | candidates are exchanged and the slot filled; the change is counted |
| `Backups.Backups.AddToBackups` | proxy/lambdastore/backups.go:321-333 | the slot and the number of available backups change together |
| `Backups.Backups.Search` | proxy/lambdastore/backups.go:142-173 | the inner search ends, keeps all live alternates and drops only candidates that answered closed; if it finds nobody, every alternate still listed has answered busy |
| `Backups.Backups.Elect` | proxy/lambdastore/backups.go:126-174 | each position holds its own candidate, a promoted alternate or a hole; the changes and trailing holes are counted right; a hole is left only if the position's own candidate is gone or busy and every alternate still listed is busy; a position goes to somebody else than its own candidate only if that refused |
| `Backups.Backups.Failover` | proxy/lambdastore/backups.go:176-217 | what was held stays, a candidate is replaced only where a hole was filled, and the trailing holes are counted; a hole is left only if all of the fallback has refused or is reserved, or as many in a row as are required refused |
| `Backups.Backups.Reserve` | proxy/lambdastore/backups.go:115-230 | the instances granted in the call are exactly the non-nil backups, without repetition, as many as reported available, each the candidate of its position, with no hole at the end; with and without a fallback, the changes are counted before it, only candidates that answered closed are cut off by the election, distinct ones stay distinct, and the fallback replaces a candidate only where it fills a hole; a hole is left by the election only if the candidate is gone or busy and all alternates are busy, and by the fallback only if that gave up, where whoever is reserved has answered granted and whoever counts as busy has answered so or is reserved; a position loses its own candidate only if that refused; afterwards GetByHash finds a backup exactly when the position of the hash is filled, the one there, and the instances it can find are exactly the reserved ones |
| `Backups.LostIff` | proxy/lambdastore/backups.go:132-208 | a candidate that did not answer closed is forgotten if and only if its position was a hole that a fallback filled and no fallback reserved it again |
| `Backups.BusyCandidateForgotten` | proxy/lambdastore/backups.go:115-230 | it happens: reserving for one position with a busy candidate and a willing fallback always gives the position to the fallback and forgets the candidate |
| `Backups.Backups.StartsReserved` | proxy/lambdastore/backups.go:253-262 | the instances that can be started are exactly the reserved ones, each told its own position and the number required |
| `Backups.Backups.RerouteAcceptedIff` | proxy/lambdastore/backups.go:253-310 | a chunk rerouted to a backup is accepted by the filter that backup was started with if and only if the locator's total and the required number place its key alike, as they do when the slice was not longer than required |
| `Backups.TotalsDisagree` | proxy/lambdastore/backups.go:253-310 | a key on which the two totals disagree after the required number was lowered |
| `MetaStore.VersionsWithoutGaps` | proxy/server/metastore/metastore.go:32-80 | in every interleaving the installed versions are 1, 2, 3, ... each linked to the one before, and all but the newest are decided |
| `MetaStore.FateIsFinal` | proxy/server/metastore/meta.go:199-234 | no step changes whether a decided version is created or invalid, and it is never both |
| `Verdicts.FateIsFirstVerdict` | proxy/server/metastore/meta.go:199-239 | in every run from the empty store, a version handed in fresh is created if and only if the first of the confirmations, invalidations and expiries of its meta is a confirmation, and valid if and only if the first is none of the other two; one handed in decided keeps its flags; it is deleted if and only if it came so or was deleted |
| `Verdicts.GreatestMovesByConfirm` | proxy/server/metastore/meta.go:199-228 | with fresh candidates the greatest created version changes only by confirming the newest version in creation, and then to that version; giving up or expiry leaves it alone |
| `Verdicts.OnlyDeadlinesExpire` | proxy/server/metastore/meta.go:206-215 | as long as no call finds a meta past its deadline, a version is given up by Invalidate only |
| `Verdicts.NeighboursMadeByDifferentRequests` | proxy/server/metastore/metastore.go:54-80 | in every interleaving, no request makes two versions in a row |
| `Verdicts.OwnVersionIsShared` | proxy/server/metastore/metastore.go:54-60 | a call by the request that made the newest version is refused with that version and installs nothing |
| `Verdicts.CreationUnderWayRefuses` | proxy/server/metastore/metastore.go:62-70 | while another request is creating the newest version, a call is refused with it and installs nothing |
| `Verdicts.RefusedOverUncreated` | proxy/server/metastore/metastore.go:62-70 | a call of another request is refused only over a version it has just seen not created |
| `Verdicts.DeadlineGivesWay` | proxy/server/metastore/metastore.go:62-80 | a call that finds the newest version past its deadline gives it up and makes the next version |
| `MetaStore.GetIsLinearizable` | proxy/server/metastore/metastore.go:82-104 | Get answers with the version that was the greatest created one at some moment of the call, or none if there was none |
| `MetaStore.GetGoesDown` | proxy/server/metastore/metastore.go:82-104 | Get follows strictly falling versions |
| `MetaStore.GreatestIsGreatest` | proxy/server/metastore/metastore.go:82-104 | the reference answer is created and no greater version is |
| `MetaStore.Get` | proxy/server/metastore/metastore.go:82-104 | the loop over version links finds the greatest created version |
| `AnyCandidate.GetFindsGreatestIff` | proxy/server/metastore/metastore.go:32-104 | in every interleaving, with candidates of any flags: an undisturbed Get finds the greatest created version if and only if there is none, it is the newest, or the version right above it links to it |
| `AnyCandidate.LinksIffValidWhenRevised` | proxy/server/metastore/meta.go:143-156 | in every run from the empty store, a version links to the one right before it if and only if it was valid at its last revision |
| `AnyCandidate.GetFindsGreatestIffRevisedValid` | proxy/server/metastore/metastore.go:32-104 | in every run, an undisturbed Get finds the greatest created version if and only if there is none, it is the newest, or the version right above it was valid when it was revised |
| `AnyCandidate.GreatestMissed` | proxy/server/metastore/meta.go:143-156 | a run from the empty store after which Get misses the created version |
| `AnyCandidate.RunKeepsLoose` | proxy/server/metastore/metastore.go:32-80 | in every interleaving, with candidates of any flags: versions are contiguous and each links to the one before it or to what that one links to |
| `MetaStore.CreatedVersionStaysReadableIff` | proxy/server/metastore/meta.go:143-156 | one insertion of an uncreated candidate over a decided version: the candidate becomes the next version, and Get still finds the greatest created one if and only if the candidate is valid or the replaced version is not created |
| `RequestGroup.StatusNeverCarries` | proxy/global/requests.go:113-222 | in every interleaving with at most 65535 chunks each field of the packed word is the number of distinct chunks it counts, recovered <= succeeded <= returned <= d+p, and all-returned means all are counted |
| `RequestGroup.AbandonedOnlyWhenFulfilled` | proxy/global/requests.go:185-208 | a GET group is fulfilled if and only if d distinct chunks are flushed, or succeeded when the proxy does not wait for the client, and stays so; a chunk is abandoned only then, and an answer is late exactly when the group has enough without it |
| `RequestGroup.OneWinner` | proxy/types/request.go:59-67 | at most one responder wins a shared response and a responder loses only to one that won |
| `RequestGroup.SuccessIsAnswered` | proxy/global/requests.go:137-167 | in every interleaving, a chunk counts as succeeded only if a responder has an answer for it, as recovered only if that answer was, and as failed only if one had none |
| `RequestGroup.RestIsComplete` | proxy/types/request.go:457-532 | when all responders have finished, every chunk that had one is counted, its once closed and its response won |
| `RequestGroup.ReportedOnlyIfAllSucceeded` | proxy/types/request.go:515-532 | AllSucceeded is recorded for a SET only if every chunk was counted as succeeded |
| `RequestGroup.ReportedIff` | proxy/types/request.go:515-532 | for every run of a SET and the step that counts its last success: some request carries AllSucceeded in the end if and only if the once of some response was still open at that step |
| `RequestGroup.OnceRecordsFulfilment` | proxy/types/request.go:515-532 | for every group, a once records AllSucceeded only if the group is fulfilled, and whenever it was before the once closed |
| `RequestGroup.LastCount` | proxy/global/requests.go:160-167 | the last success is counted by an answer's addition to the status, which leaves every once as it was, and nothing was reported before |
| `RequestGroup.RecordedForWinner` | proxy/types/request.go:457-532 | without copies of a request, its winning response confirms the object if and only if it is an answer and the once found all chunks counted |
| `RequestGroup.SomeResponseConfirms` | proxy/server/proxy.go:400-406 | if successes are counted before responses are set, at least one winning answer confirms the object |
| `RequestGroup.ReportLostToTimeout` | proxy/lambdastore/connection.go:1032-1065 | a reachable run in which all chunks succeed and nobody reports it |
| `MovingWindow.BucketsPartitionGroup` | proxy/server/cluster/movingwindow.go:387-467 | through every run buckets are contiguous with consecutive ids, the last ends at the group's end, the group starts with the first unexpired bucket and numActives is the length of the active ones |
| `MovingWindow.IndexLeadsHome` | proxy/server/cluster/group.go:56-123 | through every run a logical index leads to the instance that has it, lies in exactly one unexpired bucket, and the instance carries that bucket's id |
| `MovingWindow.ActiveLength` | proxy/server/cluster/movingwindow.go:412-422 | the total length of the last contiguous buckets is the distance between two bounds |
| `MovingWindow.SplitKeeps` | proxy/server/cluster/bucket.go:95-140 | handing the unfilled part to the next bucket keeps the invariant |
| `MovingWindow.OpenKeeps` | proxy/server/cluster/bucket.go:60-93 | a new bucket at the end of the group keeps the invariant |
| `MovingWindow.ScaleKeeps` | proxy/server/cluster/bucket.go:191-214 | growing the current bucket keeps the invariant |
| `MovingWindow.SwapKeeps` | proxy/server/cluster/bucket.go:297-301 | exchanging two instances of the current bucket, with their indices, keeps the invariant |
| `MovingWindow.DegradeKeeps` | proxy/server/cluster/movingwindow.go:412-430 | after degrading, exactly the last six buckets are active and counted |
| `MovingWindow.ExpireKeeps` | proxy/server/cluster/movingwindow.go:441-467 | after expiring, the group starts with the first unexpired bucket and one expired bucket is left |
| `MovingWindow.ExpireIs` | proxy/server/cluster/movingwindow.go:446-456 | exactly one bucket expires per round, the oldest in the group, and the group has that many instances |
| `MovingWindow.RotationOpensOrDivides` | proxy/server/cluster/bucket.go:96-142 | a rotation makes num new instances in a bucket of their own if the current bucket has fewer left; otherwise it makes none, reorders only the part behind the fill mark, and the next bucket is what is left |
| `MovingWindow.FlushFillsUp` | proxy/server/cluster/movingwindow.go:387-410 | packing keeps the instances, their number and the filled part, and sets the fill mark |
| `ClusterObjects.Group.CheckCapacity` | proxy/server/cluster/group.go:125-137 | enough room, with the used elements carried over on request |
| `ClusterObjects.Group.Expand` | proxy/server/cluster/group.go:56-63 | n more slots, the old content untouched |
| `ClusterObjects.Group.Expire` | proxy/server/cluster/group.go:65-82 | the content loses its first n elements and the base moves by n; too large an n changes nothing |
| `ClusterObjects.Group.SubGroup` | proxy/server/cluster/group.go:93-99 | in a group whose slots match its indices, the k-th of the instances returned has the logical index start + k |
| `ClusterObjects.Group.Swap` | proxy/server/cluster/group.go:118-123 | two instances trade slots and indices |
| `ClusterObjects.Group.Populate` | proxy/server/cluster/bucket.go:142-160 | n new instances in new slots, each labelled with its index and bucket |
| `ClusterObjects.Cluster.Start` | proxy/server/cluster/movingwindow.go:96-120 | the first bucket of steps and buffer instances, or nothing when the pool is too small |
| `ClusterObjects.Cluster.Rotate` | proxy/server/cluster/movingwindow.go:387-410 | with fewer instances left than a step, the group grows by one step that is the new bucket; otherwise no instance is made and the new bucket is the rest of the current one; it fails exactly when new ones are needed and the pool is too small |
| `ClusterObjects.Cluster.DegradeCheck` | proxy/server/cluster/movingwindow.go:424-430 | the cluster becomes what the degrade function says, and the number reported left the active count |
| `ClusterObjects.Cluster.ExpireCheck` | proxy/server/cluster/movingwindow.go:441-467 | the cluster becomes what the expire function says, and the base moved by the number reported |
| `ClusterObjects.Cluster.Tick` | proxy/server/cluster/movingwindow.go:332-346 | a round of the daemon is rotate, degrade and expire, or nothing when rotation fails |
| `ClusterObjects.Cluster.DoScale` | proxy/server/cluster/movingwindow.go:504-552 | the bucket grows by the least multiple of the step that reaches the target, only for an instance of the current bucket with too few behind it; the group and the bucket grow by exactly that many |
| `ClusterObjects.Multiple` | proxy/server/cluster/movingwindow.go:531-534 | least positive multiple of the step that reaches the target |
| `ClusterObjects.Cluster.AssignBackups` | proxy/server/cluster/movingwindow.go:480-502 | every new instance gets distinct instances of the active buckets other than itself, as many as available up to the number wanted |
| `BackupCandidates.GetBackupsForNode` | proxy/server/cluster/movingwindow.go:569-599 | for every permutation, pairwise distinct nodes, min(wanted, available minus self) of them, never the node itself; they follow each other in the permutation from the place after the node's own on, at the widest step with which all fit into one turn |
| `BackupCandidates.DistanceFits` | proxy/server/cluster/movingwindow.go:575-580 | the last candidate lies less than a turn away and short of the node itself |
| `BufferQueue.ChunkQueue.Swap` | lambda/storage/chunk_queue.go:38-42 | exchanged elements still know their positions |
| `BufferQueue.ChunkQueue.Up` | common/sync/heap/heap.go:107-116 | same chunks, positions known, nothing behind the start moves, whatever Less answers; chunks of one size that are in order but for this one are in heap order afterwards |
| `BufferQueue.ChunkQueue.Down` | common/sync/heap/heap.go:118-136 | same chunks, positions known, nothing from n on moves; for chunks of one size the order is right below the start, and everywhere if it moved |
| `BufferQueue.ChunkQueue.Push` | common/sync/heap/heap.go:57-63 | the chunk joins the queue and all positions are known; a queue in order stays so if the sizes stay equal |
| `BufferQueue.ChunkQueue.Pop` | common/sync/heap/heap.go:68-76 | the top leaves and everything else stays; of a queue in order it is the least recently accessed, and the rest is in order |
| `BufferQueue.ChunkQueue.Remove` | common/sync/heap/heap.go:80-92 | exactly the element at the position leaves; a queue in order stays so |
| `BufferQueue.ChunkQueue.Fix` | common/sync/heap/heap.go:98-105 | same chunks, positions known; chunks of one size that are in order but for this one are in order afterwards |
| `BufferQueue.ChunkQueue.Init` | common/sync/heap/heap.go:44-53 | same chunks, positions known; chunks of one size are in order afterwards |
| `BufferQueue.LessBothWaysIff` | lambda/storage/chunk_queue.go:27-36 | the unsigned difference makes Less hold both ways if and only if lru is set and the sizes differ |
| `BufferQueue.HeapUpdated` | lambda/storage/lineage_storage.go:1512-1518 | an access that changes the time of one chunk leaves a queue in order but for that chunk, what BufferFix starts from |
| `BufferQueue.OrderNeedsEqualSizes` | lambda/storage/chunk_queue.go:27-36 | if on the buffer's queue no chunk precedes its parent, all chunks have one size |
| `BufferQueue.Buffer.BufferAdd` | lambda/storage/lineage_storage.go:1498-1501 | the chunk joins and the counter stays the sum of queued sizes |
| `BufferQueue.Buffer.BufferRemove` | lambda/storage/lineage_storage.go:1503-1510 | removes what is queued at the remembered position under the same key; the counter stays right if and only if the sizes agree; when keys name chunks, the chunk is removed exactly when it is queued |
| `BufferQueue.Buffer.BufferFix` | lambda/storage/lineage_storage.go:1512-1518 | same chunks, counter and positions right; chunks of one size that are in order but for this one are in order afterwards |
| `BufferQueue.Buffer.Validate` | lambda/storage/lineage_storage.go:173-208 | the eviction ends, never takes from an empty queue, conserves chunks, and moves the storage counter by exactly what was kept and evicted; it stops with room made, the buffer empty or the chunk itself refused; every eviction and the refusal come at a moment without room, so with room from the start the chunk fits and nothing is evicted; of chunks of one size the evicted ones were accessed before all that are left |
| `Splitting.EvenPieces` | common/aws/s3/downloader.go:147-150 | cutting into ceil(S/M) pieces of equal size gives exactly that many, none larger than M |
| `Splitting.Schedule` | common/aws/s3/downloader.go:142-168 | the parts tile [0, S) in order, each at most the part size, all but the last equal, and as many are sent as announced |
| `Splitting.Download` | common/aws/s3/downloader.go:170-186 | size 0 is refused; otherwise the channel holds all parts |
| `Splitting.Recover` | lambda/types/types.go:162-205 | exactly the last arriving part reports completion; the chunk turns available and its waiters are released if and only if it was not deleted meanwhile |
| `Splitting.AnyOrderCompletes` | lambda/types/types.go:180-190 | the parts of a schedule in any order are positive and add up to the chunk |
| `Splitting.Chunk.AddRecovered` | lambda/types/types.go:180-190 | progress, completion report and status |
| `Splitting.Split` | client/ec.go:71-91 | the shards are the consecutive pieces of the data, nil once the data has ended; empty data is refused |
| `Splitting.Join` | client/ec.go:94-132 | too few shards, a missing one exactly when a shard is nil that the check needs, too little data, or the first outSize bytes |
| `Splitting.JoinAnswers` | client/ec.go:94-132 | which of the four answers Join gives, over the shards themselves: a missing shard is an error if and only if it is the first or those in front of it are not enough |
| `Splitting.JoinUndoesSplit` | client/ec.go:71-132 | joining what was split gives back every non-empty data for every number of shards |
| `Splitting.DecodeFragments` | client/client_handlers.go:509-537 | the loop arrives at the recomputed sizes |
| `Splitting.FragmentSizesAgreeIff` | client/client_handlers.go:511-537 | the recomputed sizes equal the produced ones, fragment by fragment, if and only if (N-1)*ceil(S/N) <= S |
| `Splitting.LargeObjectsAgree` | client/client_handlers.go:511-516 | which holds for every S above (N-1)^2 |
| `Splitting.SizesDisagree` | client/client_handlers.go:511-516 | five bytes in four fragments: the recomputed sizes are 2, 2, 1 and -1 |
| `Splitting.NumFragsNearest` | client/client_handlers.go:243 | the number of fragments is the number of units nearest to the size |
| `Splitting.ClientFragmentsAgree` | client/client_handlers.go:242-244 | the number of fragments the client itself chooses meets the condition for every object up to the square of 10 MB times the placements |

## Left out

- Network, AWS and S3 calls, RESP framing, timers, logging and metrics: timeouts and answers of the outside world are nondeterministic steps or parameters.
- Reed-Solomon coding, SHA-256, xxhash, gzip and marshalling: the chained hash is an injective constructor, a key's hash is a number, encoding succeeds or fails.
- Window.Close, Window.Reset, ErrConnectionClosed and changes of the window size: the window has a constant size and stays open.
- A bucket's slots are a sequence field, not an array; the pins senders hold on buckets are a number that only Gc reads.
- Replay of backup and delegated repositories, of buffered chunks and of the placeholder for the key being served, and the reassembly of terms from downloads: replay starts from a given list of terms of unbuffered chunks.
- Total storage size in setWithOption and delWithOption: a re-set after deletion does not keep it the sum of live chunks.
- The metadata store is modelled for one key; recycling of metas through a pool, deadlines and placement data are not modelled, and installing a meta and registering its version is one step.
- Reference counts, the registry and the recycling of request groups.
- MovingWindow.Flushed: flushInactiveLocked is any sequence of swaps in the unfilled part followed by a move of its start; which instances it packs and that it ends are not modelled.
- ClusterObjects.Cluster.Rotate: leaves the assignment of backups to AssignBackups, which the source calls from it; the branches of assignBackupLocked for instances outside the active buckets are not reached from its callers and not modelled. Shadow instances are represented by the ids they stand for.
- ClusterObjects.Cluster.DoScale: the retirement of the requesting instance is a separate FlushInactive.
- GroupInstance and BucketIndex objects are entries of a map from instance id to index instead of objects.
- BufferQueue.Buffer.Validate: the effect of an eviction on the repository is its deletion from the counters only. The second queue that delegation builds over some of the same chunks is not modelled; its swaps exchange the positions of chunks of the buffer.
- The order in which the buffer evicts chunks of different sizes, because ChunkQueue.Less is no order on them.
- Tracker.ForcedSignalFate: in the lineage storage signals pass through lsSignalTracker and the goroutine of generatePersistSignal (lambda/storage/lineage_storage.go:355-368) before they reach the tracker; here sending a signal, again or for the first time, is one step.
- LineageLog.Log.OnPersisted: operations delivered while the lineage is still being recovered, whose rank is counted afterwards.
- Splitting.Schedule: the ceilings computed in floating point are exact here, as they are for sizes below 2^53.
- Splitting.DecodeFragments: a fragment that another routine has already decoded, which would be skipped without advancing the read position; no other routine writes the readers.
- 64-bit overflow, except in the status word of a request group and the size counters of the buffer, where it is explicit.
- Placement by LRU, spare-link counts, instance validation, pings and the busy counters of instances.
