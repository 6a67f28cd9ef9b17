# Verified models of the concurrent core of XCPlite

XCPlite lets a measurement and calibration client change parameters of a running program and stream
measurement data out of it. This project models the parts of it where correctness depends on the
interleaving of threads, on bytes staying where they are, or on arithmetic, and proves what they
promise.

**How concurrency is modelled.** A lock-free algorithm is a state machine. One action is one atomic
access, or one byte of a `memcpy` or `memset`, of one thread; `Steps(s, acts, s')` says that the
sequence `acts` is a run from `s` to `s'`, and every theorem speaks about every sequence of actions
of any number of threads. Memory is sequentially consistent. Next to each machine stands the C
object in its own form: a class whose fields and arrays the methods change in place, proved against
the functions that the machine is made of, or against what the machine does when one thread runs
alone (lemmas named `...Alone`).

**The parts.**

- *Calibration segments* (`RefCountRcu`, `HandOverRcu`, `CalServer`, `CalMemory`, ...). The two
  publication algorithms are proved against one abstract specification, a register of complete
  versions (`VersionRegister`). `CalServer` models the writer side - writes, pending publishes,
  begin/end transactions, page switching - for every outcome of every publish, and `CalObservation`
  composes both: what a reader copies out of a locked page is the client's page after a whole number
  of commands outside any transaction. `CalRefCountSystem` and `CalHandOverSystem` run server, writer and
  readers as one system, in which the outcome of every attempt to publish is the machine's own, and
  `CalRefCountFlow` and `CalHandOverFlow` follow a write through it to the bytes that a reader copies.
- *Lock-free queues* (`VarQueue`, `FixQueue`). Both refine one abstract queue of reservations
  (`ReservationQueue`). The variable-size queue is modelled on raw bytes, slack included.
  Machine and invariant are in the module named after the queue; the proofs for producers and
  consumer, the theorems and the calls on their own are in modules whose names start with it.
- *Segment-accumulating queues* (`SegmentRing`, `SegmentPacking`, `SegmentQueue`), with the two
  implementations as variants of one machine.
- *Kernels*: median filter, clock synchronizer, Internet checksum, raw frames, persistence file.

**Results that say no.** Some promises do not hold of the code; they are stated as the exact condition
under which they do, or with the input that breaks them.

- `VarQueueStale.PeekAfterRelease`: `queueRelease` resets the cached cursor to 0 and not to the tail. A
  peek with an index above 0 right after a release is right if the entry is available and the tail lies at
  the first byte of the buffer, or if the entry is not available and a scan from the first byte finds none;
  in all other cases it is wrong. It can miss an entry (`VarQueueAlone.PeekAheadMisses`), return another one,
  or, when the ring is full, return an entry for an index behind the newest (`PeekAroundFullRing`).
- `CalServer.PublishAllComplete`, `EpkTransactionNotPublished`: `XcpCalSegPublishAll` skips the EPK
  segment, so a transaction that changes it ends with OK and stays unpublished. The comment above
  `XcpCalSegWriteMemory` calls writing that segment an error; the code accepts it, and so does the model.
- `HandOverAlone.UnlockedAcceptsOnePublish`: a segment that no reader locks takes at most one more publish.
- `SegmentQueueLosses.CountsKeptIff`: `queue32.c` reads and resets the lost counter outside its mutex, and the
  increment inside is a load and a store. A store between the read and the reset is dropped; a reset between
  the load and the store of a count above 0 is undone, so that losses are reported twice. These are the only
  two ways to miscount; `queue32m.c` has neither.
- `BinRoundTrip.LoadRecovers`: a written file loads iff the memory segment numbers are in the order of the
  list. The number is drawn by a plain increment before the mutex of the list, so that threads which create
  segments at the same time can leave another order, or one number twice (`CalNumbers.ConcurrentNumbers`).
- `VarQueueRetry.RefusedWhileEmpty`, `FixQueueRetry.RefusedWhileEmpty`: `queueAcquire` reads the tail before the
  head, so that a producer that is held up in between can be refused while the queue is empty. `RetryAlone` gives
  the exact condition: the tail that it holds decides, and in the fixed-size queue a failed swap reads it again.
- `SegmentQueueDelivery.PopHandsOut`: with a single segment, nothing is ever handed out.
- `ClockStability.StableIff`, `BootstrappedStableIff`: the overflow analysis in the source takes intervals up to 10 s and bounded errors. Under
  these no intermediate overflows (`ClockSync.RunSafe`), but the servo keeps its errors bounded by itself iff
  intervals are below 4 s; from there on even identical clocks drive it away from a drift of 1.6 percent.
- `ClockSync.SeedClampedIff`: the bootstrap seed is not clamped.
- `CalLayout.AllocatedSizeIsUsedSize`: allocated and used page size agree iff the size is at most 65528.
- `Median.HalfIsNotEnough`: outlier rejection needs a strict majority of inliers.

**What callers have to keep.** Fewer than 65535 concurrent locks and one unlock per lock; segment sizes
from 1 to 65528; for the queues, release in order and only what was peeked; for the segment queues, pop
and release in pairs. Sizes, clamps and shifts are the constants of the default configuration (MTU
1500, messages up to 248 bytes in the queue with fixed slots and 1024 in the others).

## Model

| member | source | states |
|---|---|---|
| `VersionRegister.VersionIsSnapshot` | src/cal.c:667-672 | every version of a segment is the whole writer page at one single point of the writer's program, and that point is an announcement |
| `VersionRegister.RunConsistent` | src/cal.c:667-672 | the contract of lock, unlock and publish, for every run: what a client has copied is a prefix of one complete version, and no client ever goes back |
| `RefCountRcu.RunInv` | src/cal.c:674-769 | reference counts exact, published and writer page as announced, locked pages untouched: kept by every run |
| `RefCountRcu.StepRefs` | src/cal.c:706-743 | `page_refs[p]` equals the number of readers that pin `p` after every step, with pins that fail validation included |
| `RefCountRcu.ZeroRefsUnheld` | src/cal.c:746-763 | a page with count zero is held by no reader |
| `RefCountRcu.LockedPageIsNotWritten` | src/cal.c:746-769 | no step of any thread changes a byte of a page some reader has validly locked |
| `RefCountRcu.ValidatedLockIsNewest` | src/cal.c:706-721 | a lock that validates holds the newest announced version |
| `RefCountRcu.StepRefines` | src/cal.c:706-769 | each step is one operation of the version register, or none |
| `RefCountRcu.RunRefines` | src/cal.c:706-769 | each run is a run of the version register |
| `RefCountRcu.ReadersSeeCompleteVersions` | src/cal.c:706-769 | every interleaving from the initial state: locked pages are complete versions, copies are untorn, successive locks never return an older version |
| `RefCountRcu.ScanIsComplete` | src/cal.c:746-763 | the round robin search fails iff every page but the writer's and the published one is pinned, and otherwise finds a free one |
| `RefCountRcu.PublishAlone` | src/cal.c:746-769 | with readers not moving, a publish runs to completion and changes nothing iff every candidate is pinned |
| `RefCountAlone.LockEndsWithPage` | src/cal.c:706-721 | a lock never ends without a page: a thread leaves it with exactly one lock more, on the published page, or at its first step on the default page iff the working page is not selected |
| `RefCountAlone.OtherStepsKeepLocks` | src/cal.c:724-743 | outside a lock a thread keeps every lock but the one it unlocks |
| `RefCountAlone.LockAlone` | src/cal.c:706-721 | from any point of a lock, a failed validation included, in any reachable state: the thread alone ends with one more lock, on the published page and of the newest version |
| `RefCountAlone.LockAndCopy` | src/cal.c:706-721 | a lock and a copy give all bytes of the published page |
| `RefCountSegment.CalSeg.constructor` | src/cal.c:694-703 | a new segment: default, writer and published page hold the default page and nothing is pinned |
| `RefCountSegment.CalSeg.Lock` | src/cal.c:706-721 | the published page with exactly one more pin, or the default page and no pin |
| `RefCountSegment.CalSeg.Unlock` | src/cal.c:724-743 | the page pointer finds the pin to drop; a pointer to no RCU page drops none |
| `RefCountSegment.CalSeg.LockUnlock` | src/cal.c:706-743 | lock and unlock are inverse |
| `RefCountSegment.CalSeg.CopyWriterPage` | src/cal.c:765 | the copy fills the target with the writer page and leaves every other page as it was |
| `RefCountSegment.CalSeg.TryPublish` | src/cal.c:746-769 | succeeds iff an unpinned candidate exists; then the newly published page equals the writer page and no other page changed; otherwise nothing changed |
| `HandOverRcu.RunInv` | src/cal.c:784-885 | lock count exact, one owner per page, versions in place: kept by every run |
| `HandOverRcu.RunRefines` | src/cal.c:819-885 | each run is a run of the version register |
| `HandOverRcu.ReadersSeeCompleteVersions` | src/cal.c:819-885 | every interleaving from the initial state: locked pages are complete versions, copies are untorn, successive locks never return an older version |
| `HandOverRcu.PagesPartitioned` | src/cal.c:819-885 | pages that readers may hold and pages that the writer may write are disjoint, every page has its role, and no step writes outside the writer's pages |
| `HandOverAlone.LockAlone` | src/cal.c:819-849 | an undisturbed lock has exactly the effect of the sequential `Lock` |
| `HandOverAlone.LockUnlockAlone` | src/cal.c:819-859 | so has a pair of lock and unlock, which leaves pages and versions alone |
| `HandOverAlone.PublishAlone` | src/cal.c:862-885 | so has an undisturbed publish |
| `HandOverAlone.FirstLockIsNewest` | src/cal.c:819-849 | with no lock held, the next lock gets the newest announced version |
| `HandOverAlone.RestingRole` | src/cal.c:819-885 | with no lock held and the writer idle, the third page is free or waiting to be taken over, never stuck under the hazard |
| `HandOverAlone.TwoLocksAllowPublish` | src/cal.c:819-885 | with no lock held, after one undisturbed lock pair a publish succeeds iff nothing waited to be taken over, after two always |
| `HandOverAlone.PublishAfterTwoLocks` | src/cal.c:819-885 | the same as a run of the machine, which announces the writer page as one more version |
| `HandOverAlone.UnlockedAcceptsOnePublish` | src/cal.c:862-885 | without readers, any number of publish attempts announces at most one more version |
| `HandOverLock.LockEndsWithPage` | src/cal.c:819-849 | a lock never ends without a page: exactly one lock more, on the ECU page, or on the default page iff the working page is not selected when it looks |
| `HandOverLock.LockFinishes` | src/cal.c:819-849 | the lock is wait-free: from any point of it, in any state, the thread alone has its page within seven steps |
| `HandOverLock.LockAndCopy` | src/cal.c:819-849 | with no lock held, a lock and a copy give all bytes of the page that was announced last |
| `HandOverSegment.CalSeg.constructor` | src/cal.c:801-814 | a new segment: three RCU pages in their roles, with the default page as content |
| `HandOverSegment.CalSeg.Lock` | src/cal.c:819-849 | the header changes as the machine's undisturbed lock says; result is the ECU page or the default page |
| `HandOverSegment.CalSeg.Unlock` | src/cal.c:852-859 | the lock count drops by one and nothing else changes |
| `HandOverSegment.CalSeg.TryPublish` | src/cal.c:862-885 | succeeds iff a free page exists and is not under hazard; then the old writer page is offered and writing goes on in an equal copy; the ECU page is not touched |
| `CalLayout.AllocatedSizeIsUsedSize` | src/cal.h:178-222 | the 16 bit size used for allocation and the 32 bit size used for addressing agree iff the page size is at most 65528 |
| `CalLayout.PagesDisjoint` | src/cal.h:207-222 | pages do not overlap, are aligned and lie inside the block |
| `CalLayout.OffsetIdentifiesPage` | src/cal.h:207-222 | the offset of a non-empty page identifies the page |
| `CalServer.RunsOk` | src/cal.c:983-1084 | writer page, pending flag and versions agree with the commands so far, for every run and every outcome of every publish |
| `CalServer.NoLostUpdate` | src/cal.c:958-1084 | reading the working page always agrees with a plain byte array under the same writes; whenever nothing is pending, the newest version is that array |
| `CalServer.VersionsAtBoundaries` | src/cal.c:983-1084 | transactions are atomic: every version is the client's page after a number of commands that leaves no transaction open, also when a publish failed and was retried later |
| `CalServer.PublishAllComplete` | src/cal.c:1012-1038 | what OK means: exactly the segments that are skipped, and all of them inside a transaction, may still be pending |
| `CalServer.EpkTransactionNotPublished` | src/cal.c:1012-1038 | a transaction on the EPK segment ends with OK and is not published |
| `CalClient.AddressRoundTrip` | src/xcp_cfg.h:249-261 | the address a segment is published under leads back to the segment, at every offset |
| `CalClient.SetPageEffect` | src/cal.c:1213-1243 | mode by mode: 0x01 selects the page of the application alone, 0x02 that of the client alone, 0x03 both, 0x80 on top all segments; an unknown number or page changes nothing |
| `CalClient.EcuModeKeepsClient` | src/cal.c:1213-1243 | selecting a page for the application leaves every read and write of the client as it was |
| `CalClient.GetPageRoundTrip` | src/cal.c:1194-1208 | what was selected is what is reported, and the other access is as before |
| `CalClient.ReadFollowsPage` | src/cal.c:958-977 | a read returns the working page or the default page as the client has selected, and an error iff the range does not exist |
| `CalClient.WriteReadsBack` | src/cal.c:1043-1084 | an accepted write reads back and leaves every other byte of all segments as it was; it is denied and changes nothing iff the range does not exist or the default page is selected |
| `CalClient.WritePublishes` | src/cal.c:983-1084 | outside a transaction a write is published iff one of its attempts succeeds - the first or one of 500 more, or the first alone if publishing is lazy - and what its return code means |
| `CalClient.PublishAllMeaning` | src/cal.c:1012-1038 | publishing all returns OK iff every due segment gets an attempt that succeeds, and otherwise the code that belongs to waiting or not |
| `CalClient.EndPublishes` | src/cal.c:1298-1302 | after any run of commands, the end of a transaction with OK makes the newest version of every segment that is not skipped exactly what the client reads back |
| `CalClient.AccessFollowsCommands` | src/cal.c:1213-1243 | over every run, the access of the application is the page that the commands have last selected |
| `CalSegList.SegmentList.constructor` | src/cal.c:230-238 | a list starts outside a transaction |
| `CalSegList.SegmentList.Publish` | src/cal.c:983-1007 | one attempt, or attempts until the timeout; changes stay pending iff all fail |
| `CalSegList.SegmentList.PublishAllSegments` | src/cal.c:1012-1038 | the loop publishes exactly the due segments, and reports the failure of any of them |
| `CalSegList.SegmentList.Write` | src/cal.c:1043-1084 | error and no effect for a wrong segment, range or page; otherwise the write reaches the writer page and is published or left pending |
| `CalSegList.SegmentList.Read` | src/cal.c:958-977 | the selected page, or an error |
| `CalSegList.SegmentList.BeginAtomicTransaction` | src/cal.c:1291-1297 | opens a transaction and changes nothing else |
| `CalSegList.SegmentList.EndAtomicTransaction` | src/cal.c:1298-1302 | closes the transaction and publishes what is due |
| `CalSegList.SegmentList.FindNumber` | src/cal.c:344-355 | the first segment with the number, or none |
| `CalSegList.SegmentList.SelectPage` | src/cal.c:1213-1243 | switches the access of one segment as the mode bits say |
| `CalSegList.SegmentList.SetPage` | src/cal.c:1213-1243 | switches one segment or all; an unknown segment or page changes nothing |
| `CalObservation.RefCountReadersSeeBoundaries` | src/cal.c:983-1084 | for a machine whose trace begins a run of the server: what a reader copied lies at a command boundary; `CalRefCountSystem` discharges that condition |
| `CalObservation.HandOverReadersSeeBoundaries` | src/cal.c:983-1084 | the same for the hand-over; `CalHandOverSystem` discharges the condition |
| `CalWriter.ExecTrace` | src/cal.c:983-1084 | what each command stores into the writer page, and that it adds a version iff one of its attempts succeeds |
| `CalWriter.DoOk` | src/cal.c:983-1084 | at every point of a command - between two bytes, between two attempts - what was stored and published so far is what the commands say |
| `CalWriter.TraceBegins` | src/cal.c:983-1084 | so the writer is always on its way to the end of a run of the server |
| `CalRefCountSystem.ReadersSeeBoundaries` | src/cal.c:983-1084 | server, writer and readers as one system, where the machine decides which attempts succeed: every copy a reader makes lies at a command boundary outside any transaction |
| `CalHandOverSystem.ReadersSeeBoundaries` | src/cal.c:983-1084 | the same with the hand-over of pages |
| `CalRefCountSystem.ReadersFollowPage` | src/cal.c:706-710 | in every run of the whole system, a lock takes the default page iff the finished commands have last selected page 1 for the application |
| `CalHandOverSystem.ReadersFollowPage` | src/cal.c:840-849 | the same with the hand-over, for the step that looks at the access flag |
| `CalRefCountFlow.WriteReachesReader` | src/cal.c:983-1084 | what the client writes is what the readers get: from every reachable state with no command at work, an accepted write goes through if a page is neither published nor pinned, and the next lock copies exactly the page that the client reads back |
| `CalRefCountFlow.GiveUpAlone` | src/cal.c:983-1007 | a command whose attempts all fail ends after the last of them, and adds no version |
| `CalHandOverFlow.WriteReachesReader` | src/cal.c:983-1084 | the same with the hand-over, if a page is free and not under hazard and no lock is held |
| `CalHandOverFlow.GiveUpAlone` | src/cal.c:983-1007 | and a command whose attempts all fail ends there as well |
| `CalMemory.RunInv` | src/cal.c:124-140 | blocks in order, list entries are blocks, no thread loses its block: kept by every run |
| `CalMemory.BlocksAreExclusive` | src/cal.c:124-140 | for every interleaving of creating threads, blocks never overlap, stay in the pool, and each is registered at most once |
| `CalMemory.AllocationAlone` | src/cal.c:124-140 | undisturbed, an allocation fails iff the pool has no room |
| `CalMemory.FreshOffset` | src/cal.c:457-480 | a new block is not in the list yet |
| `CalMemoryAlone.GivesUpOnlyIfFull` | src/cal.c:124-140 | in any run, a thread gives up its allocation only if the pool has no room for it now, and otherwise ends with a block of its own |
| `CalMemoryAlone.RetryAlone` | src/cal.c:124-140 | from any failed swap, after any number of spurious failures, the thread alone gets its block iff there is room |
| `CalMemoryAlone.CreateAlone` | src/cal.c:457-593 | undisturbed, a segment is registered iff pool and list have room; a block that finds the list full is not given back |
| `CalNumbers.NumbersFollowList` | src/cal.c:457-593 | segments created one at a time, by any threads, get the numbers 0, 1, 2, ... in list order |
| `CalNumbers.ConcurrentNumbers` | src/cal.c:457-593 | two creations at the same time can leave the numbers 1, 0, or give 0 twice |
| `CalNumbers.CreateAlone` | src/cal.c:457-593 | undisturbed, a creation gets the count as its number, iff that is below 255 |
| `QueueEntry.EntryLengthFits` | src/queue64v.c:374-400 | rounding up loses at most three bytes and never exceeds the largest entry |
| `ReservationQueue.RunFifo` | src/queue.h:120-160 | the abstract queue: what was received is the committed prefix of the reservations, and every acquire is accounted for |
| `VarQueueConsumer.RunInv` | src/queue64v.c:374-666 | the invariant of log, memory, cursors and threads: kept by every run |
| `VarQueueDelivery.RunRefines` | src/queue64v.c:374-666 | each run is a run of the abstract queue |
| `VarQueueDelivery.RefinesQueue` | src/queue64v.c:374-666 | so is every run from the empty buffer |
| `VarQueueDelivery.DeliversInOrder` | src/queue64v.c:374-666 | for every interleaving: the consumer gets exactly the committed payloads, once each, in the order of the successful compare-and-swaps; acquires = delivered + queued + undecided + lost and unreported + lost and reported |
| `VarQueueDelivery.MemoryInOrder` | src/queue64v.c:289-429 | for every interleaving: unreleased entries never overlap, slack included, bytes outside them are zero, headers are aligned inside the buffer, the fill level is bounded |
| `VarQueueProducers.ReserveWindow` | src/queue64v.c:405-429 | the overrun test keeps the window even on a stale tail |
| `VarQueueMemory.HeaderIsAligned` | src/queue64v.c:289-304 | the atomic header never lies in the slack |
| `VarQueueMemory.LiveApart` | src/queue64v.c:289-304 | entries inside one window of the cursor do not overlap in the ring |
| `VarQueueDelivery.ClaimedReadsEmpty` | src/queue64v.c:415-429 | a slot reserved but not marked reads as not committed |
| `VarQueueDelivery.PeekedIsStable` | src/queue64v.c:520-646 | a peeked buffer keeps its payload until it is released |
| `VarQueueDelivery.NeverOutOfBounds` | src/queue64v.c:374-666 | no access leaves the memory |
| `VarQueueConsumer.ScanMeaning` | src/queue64v.c:564-645 | the header bytes at the cursor tell exactly whether an entry is there and committed; no corrupt header is ever seen |
| `VarQueueAlone.AcquireAlone` | src/queue64v.c:374-471 | undisturbed, an acquire is granted iff its entry fits beside the unreleased ones |
| `VarQueueAlone.SendAlone` | src/queue64v.c:374-493 | an acquire for which there is room, and its push, put one committed entry at the end and change nothing before it |
| `VarQueueAlone.PeekAlone` | src/queue64v.c:520-646 | an undisturbed peek ends with exactly the result, cache and buffer that the sequential `Peek` states |
| `VarQueueAlone.ReleaseAlone` | src/queue64v.c:648-666 | an undisturbed release clears exactly the bytes of the oldest entry, header included, and advances the tail past it |
| `VarQueueAlone.ReceiveAlone` | src/queue64v.c:520-666 | in every reachable state whose oldest entry is committed, a peek and a release hand out exactly its payload and leave the rest of the queue |
| `VarQueueTransfer.UserHeaderWritten` | src/queue64v.c:592-600 | the consumer can write its header in front of the payload of every peeked buffer, and that changes nothing else |
| `VarQueueRetry.AttemptEnds` | src/queue64v.c:414-446 | every attempt to reserve: refused iff its entry does not fit between the cursors it has observed, granted iff not and the swap succeeds, and repeated otherwise |
| `VarQueueRetry.OverrunJustified` | src/queue64v.c:414-446 | no packet is lost without a reason: whatever step of whatever run makes a producer give up is an attempt on cursors that are not ahead of the real ones and leave no room |
| `VarQueueRetry.RetryAlone` | src/queue64v.c:414-446 | from any attempt in any reachable state, after any number of spurious failures: the producer alone is granted iff its entry fits beside the tail it holds, whether or not its head is the real one |
| `VarQueueRetry.RefusedWhileEmpty` | src/queue64v.c:414-446 | a run, for every size, in which a packet is lost while the queue is empty: the tail was read long before the head |
| `VarQueueRetry.InvalidRefused` | src/queue64v.c:379-386 | a packet length out of range is turned down and counts nowhere |
| `VarQueueRetry.LostAccounted` | src/queue64v.c:520-545 | losses are neither forgotten nor reported twice: a peek hands out all of them or none |
| `VarQueueTransfer.PayloadOnlyByOwner` | src/queue64v.c:473-494 | the payload of an entry changes only by the stores of its producer, byte by byte, and never once it is committed |
| `VarQueueTransfer.SendDataAlone` | src/queue64v.c:374-494 | an undisturbed acquire, copy and push append one committed entry that begins with these bytes |
| `VarQueueTransfer.TransferAlone` | src/queue64v.c:374-494 | through an empty queue, in every reachable state: the bytes sent are the bytes received |
| `VarQueueAlone.PeekAheadMisses` | src/queue64v.c:663-665 | for every buffer size, a run after which a peek ahead misses a committed entry |
| `VarQueuePeek.ScanReaches` | src/queue64v.c:564-645 | a scan reaches every committed entry that only committed ones precede |
| `VarQueuePeek.ScanStops` | src/queue64v.c:564-645 | and stops in front of a missing or uncommitted one |
| `VarQueueStale.ScanCycles` | src/queue64v.c:564-645 | a scan on cursors behind the real ones walks the unreleased entries in cyclic order |
| `VarQueuePeek.PeekAgreesWithScan` | src/queue64v.c:543-646 | a peek through the cache returns the i-th unreleased entry iff entries 0..i are committed, as a scan from the tail does, unless an entry was released since the last peek |
| `VarQueueStale.PeekAfterRelease` | src/queue64v.c:663-665 | the first peek after a release, for every index and state: it returns the i-th unreleased entry if entries 0..i are committed and nothing otherwise, if and only if the index is 0, or the entry is available and the tail lies at the first byte, or it is not available and a scan from the first byte, around the ring, finds none |
| `VarQueueStale.StalePeekFinds` | src/queue64v.c:543-646 | what that peek finds at all: the entries around the ring from the one at the first byte, up to the first that is not committed, to the gap, or in a full ring until the cursor reaches the head |
| `VarQueueStale.PeekAroundFullRing` | src/queue64v.c:543-665 | with the tail at the first byte and the entry not available, the peek is right iff the ring is not full, holds an uncommitted entry, or the index is beyond the laps that the scan makes |
| `VarQueueDelivery.ReleasedPayload` | src/queue64v.c:648-666 | what is released still holds what its producer committed |
| `VarQueueBuffer.DataSizeFits` | src/queue64v.c:273-304 | buffer and slack fit the memory, and at most three bytes are wasted |
| `VarQueueBuffer.Queue.constructor` | src/queue64v.c:273-334 | an empty queue with all bytes zero |
| `VarQueueBuffer.Queue.Acquire` | src/queue64v.c:374-471 | granted iff it fits: reserved header stored at the old head, payload room behind it; otherwise counted as lost and nothing else changed; invalid lengths change nothing |
| `VarQueueBuffer.Queue.Push` | src/queue64v.c:473-493 | stores the committed header and changes no other byte |
| `VarQueueBuffer.Queue.Peek` | src/queue64v.c:520-646 | result and new cache of the peek loop; the lost count is handed over and reset |
| `VarQueueBuffer.Queue.Release` | src/queue64v.c:648-666 | clears exactly the bytes of the entry, advances the tail, resets the cache |
| `FixQueueConsumer.RunInv` | src/queue64f.c:407-668 | the invariant of log, slots, cursors and threads: kept by every run |
| `FixQueueDelivery.RunRefines` | src/queue64f.c:407-668 | each run is a run of the abstract queue |
| `FixQueueDelivery.RefinesQueue` | src/queue64f.c:407-668 | so is every run from the empty buffer |
| `FixQueueDelivery.DeliversInOrder` | src/queue64f.c:407-668 | for every interleaving with arbitrarily stale tails: exactly the committed payloads, once each, in the order of the successful compare-and-swaps; every acquire accounted for |
| `FixQueueDelivery.SlotsInOrder` | src/queue64f.c:441-475 | no unreleased slot is reused, the fill level never exceeds the buffer, no corrupt header is ever seen |
| `FixQueue.OverrunIsFull` | src/queue64f.c:441-454 | the test written with the entry length is exactly "all slots are in use" for the cursors it sees |
| `FixQueueProducers.ReserveWindow` | src/queue64f.c:441-475 | a reservation on a stale tail stays inside the ring |
| `FixQueue.SlotOfEntry` | src/queue64f.c:441-475 | the slot of the j-th entry is j modulo the slot count |
| `FixQueueConsumer.PeekMeaning` | src/queue64f.c:565-650 | a peek at any index returns that entry iff it was reserved before the head was read and is committed |
| `FixQueueDelivery.PeekedIsStable` | src/queue64f.c:565-650 | a peeked slot keeps its payload until it is released |
| `FixQueueDelivery.NeverOutOfBounds` | src/queue64f.c:407-668 | no access leaves the slots |
| `FixQueueAlone.AcquireAlone` | src/queue64f.c:407-502 | undisturbed, an acquire is granted iff a slot is free, and counted as lost otherwise |
| `FixQueueAlone.SendAlone` | src/queue64f.c:407-527 | with room, acquire and push put one committed entry at the end and change nothing before it |
| `FixQueueAlone.PeekAlone` | src/queue64f.c:565-650 | undisturbed, a peek finds the entry with its index iff it is there and committed |
| `FixQueueAlone.ReceiveAlone` | src/queue64f.c:565-668 | in every reachable state whose oldest entry is committed, a peek and a release hand out exactly its payload |
| `FixQueueTransfer.UserHeaderWritten` | src/queue64f.c:635-638 | the consumer can write its header in front of the payload of every peeked buffer, and that changes nothing else |
| `FixQueueRetry.AttemptEnds` | src/queue64f.c:447-470 | every attempt to reserve: refused iff all slots are in use for the cursors it has observed, granted iff not and the swap succeeds, and repeated otherwise |
| `FixQueueRetry.OverrunJustified` | src/queue64f.c:447-470 | no packet is lost without a reason: whatever step of whatever run makes a producer give up is an attempt on cursors that are not ahead of the real ones and leave no room |
| `FixQueueRetry.RetryAlone` | src/queue64f.c:447-470 | from any attempt in any reachable state, after any number of spurious failures: an acquire that its observed cursors do not refuse is granted iff a slot is free, even if its head is far behind |
| `FixQueueRetry.RefusedWhileEmpty` | src/queue64f.c:447-470 | a run, for every size, in which a packet is lost while the queue is empty: the tail was read long before the head |
| `FixQueueRetry.InvalidRefused` | src/queue64f.c:412-419 | a packet length out of range is turned down and counts nowhere |
| `FixQueueRetry.LostAccounted` | src/queue64f.c:565-580 | losses are neither forgotten nor reported twice: a peek hands out all of them or none |
| `FixQueueTransfer.PayloadOnlyByOwner` | src/queue64f.c:504-527 | the payload of an entry changes only by the stores of its producer, byte by byte, and never once it is committed |
| `FixQueueTransfer.SendDataAlone` | src/queue64f.c:407-527 | an undisturbed acquire, copy and push append one committed entry that begins with these bytes |
| `FixQueueTransfer.TransferAlone` | src/queue64f.c:407-527 | through an empty queue, in every reachable state: the bytes sent are the bytes received |
| `FixQueueBuffer.Queue.constructor` | src/queue64f.c:307-366 | an empty queue with all slots clear |
| `FixQueueBuffer.Queue.Clear` | src/queue64f.c:368-381 | the same state again, whatever was in the queue |
| `FixQueueBuffer.Queue.Acquire` | src/queue64f.c:407-502 | granted iff a slot is free; otherwise counted as lost and nothing else changed |
| `FixQueueBuffer.Queue.Push` | src/queue64f.c:504-527 | stores the committed header of that slot only |
| `FixQueueBuffer.Queue.Peek` | src/queue64f.c:565-650 | nothing at or behind the head, otherwise what the header says; the lost count is handed over and reset |
| `FixQueueBuffer.PeekAgreesWithMachine` | src/queue64f.c:565-650 | the last step of a peek of the machine does what the object makes of the header |
| `FixQueueBuffer.Queue.Release` | src/queue64f.c:652-668 | clears the header of that slot only and advances the tail |
| `SegmentPacking.GrantPacked` | src/queue32.c:207-280 | a granted message extends the packed prefix of its segment |
| `SegmentPacking.WalkVisitsMessages` | src/queue32.c:372-403 | the walk visits exactly the packed messages, in packing order |
| `SegmentPacking.SegmentEncoded` | src/queue32.c:207-304 | the bytes of a segment are its messages with their headers, one after the other |
| `SegmentPacking.StampAllPacked` | src/queue32.c:372-403 | the counter loop stamps each message once, with consecutive counters |
| `SegmentPacking.DatagramEncoded` | src/queue32.c:333-403 | so a datagram is the encoding of its messages with consecutive counters |
| `SegmentQueueConsumer.RunInv` | src/queue32.c:106-417 | the invariant of ring, bytes, counters and threads: kept by every run |
| `SegmentQueueInvariant.NewSegmentOk` | src/queue32.c:106-126 | opening a segment keeps all unreleased ones |
| `SegmentQueueInvariant.ReleaseOk` | src/queue32.c:406-417 | releasing one makes the next the oldest, with the message numbers continuing |
| `SegmentQueueDelivery.DatagramsInOrder` | src/queue32.c:207-417 | for every interleaving: the datagrams, one after the other, encode exactly the first messages granted, in acquire order; each of them was committed, has the payload its producer pushed and the counter in the order drawn; each datagram is at most `XCPTL_MAX_SEGMENT_SIZE` |
| `SegmentQueuePayloads.RunRecorded` | src/queue32.c:283-403 | in every run, a committed or delivered message has the payload that was pushed under its number |
| `SegmentQueueDelivery.AcquiresCounted` | src/queue32m.c:281-392 | conservation for every run: acquires = granted + undecided + lost and unreported + lost and reported, without remainder in `queue32m.c`; in `queue32.c` the counts that a reset dropped and those that a store brought back are the remainder |
| `SegmentQueueDelivery.PopHandsOut` | src/queue32.c:333-372 | a datagram is handed out iff the oldest segment has messages, all committed, and another segment is or can be opened |
| `SegmentQueueProducers.PushAssertions` | src/queue32.c:283-304 | the assertions of a push never fail |
| `SegmentQueueConsumer.StampPosition` | src/queue32.c:372-403 | the assertions of the counter loop never fail |
| `SegmentQueueMiscounts.LostCountOverwritten` | src/queue32.c:260-346 | a run: a loss stored between the read and the reset is neither reported nor counted |
| `SegmentQueueMiscounts.LostCountRevived` | src/queue32.c:260-346 | a run: counts read and reset between the load and the store of a loss are reported, and stay in the counter to be reported again |
| `SegmentQueueLosses.CountsKeptIff` | src/queue32.c:260-346 | for every run: what is dropped is what stores between a read and its reset have added, what is brought back is what resets between a load and its store have taken off; none is dropped iff no store falls into such a gap, none is brought back iff no reset falls between the load and the store of a section that loaded more than 0; and the totals agree iff both remainders are equal |
| `SegmentQueueLosses.ResetDropsGap` | src/queue32.c:333-346 | each single reset drops exactly what the stores since its read have added |
| `SegmentQueueLosses.StoreBringsBack` | src/queue32.c:260-262 | each single store brings back exactly what it had loaded, if a reset came in between, and nothing otherwise |
| `SegmentQueueLosses.RunLossOk` | src/queue32.c:241-262 | in every run one section holds the mutex, and the counter it loaded is unchanged or was reset |
| `SegmentQueueMiscounts.NoRoomReachable` | src/queue32.c:207-346 | a run that leads to a state in which a loss is overwritten |
| `SegmentQueueMiscounts.CountedReachable` | src/queue32.c:207-346 | and one that leads to a state in which a count is brought back |
| `SegmentRing.DlcFits` | src/queue32.c:216-238 | a message holds its packet, wastes at most three bytes, and never exceeds the largest one |
| `SegmentQueueAlone.NeedsSegmentIff` | src/queue32.c:244-248 | another segment is looked for iff the message does not fit behind the last one |
| `SegmentQueueAlone.SectionMeaning` | src/queue32.c:241-265 | the acquire section in every reachable state of both variants: granted iff there is room, behind the last message or at the start of the next segment, and lost otherwise |
| `SegmentQueueAlone.AcquireAlone` | src/queue32m.c:260-312 | an undisturbed acquire, header included, is granted in that place or counted as lost |
| `SegmentQueueTransfer.FillFits` | src/queue32.c:267-280 | a granted producer can write every byte of its packet |
| `SegmentQueueTransfer.PushMeaning` | src/queue32.c:283-304 | a push commits and records its message and changes no other |
| `SegmentQueueTransfer.FlushMeaning` | src/queue32.c:299-304 | a flush closes the current segment iff it holds a message, and opens the next one if it is not in use |
| `SegmentQueueTransfer.SendDataAlone` | src/queue32.c:207-304 | an undisturbed acquire, copy and push add one committed message that begins with these bytes |
| `SegmentQueueTransfer.PopMeaning` | src/queue32m.c:364-398 | the pop section starts the walk iff the oldest segment holds messages, all committed, and there is another one; and what it does to the lost count |
| `SegmentQueueTransfer.PopAlone` | src/queue32m.c:364-440 | an undisturbed pop sends exactly the messages of the oldest segment, with consecutive counters |
| `SegmentQueueTransfer.TransferAlone` | src/queue32m.c:240-440 | through an empty ring, in every reachable state: the datagram is length, counter and the bytes that were written |
| `SegmentQueueBuffer.Queue.constructor` | src/queue32.c:148-183 | a ring with its first segment open |
| `SegmentQueueBuffer.Queue.NewSegment` | src/queue32.c:106-126 | the ring of the machine's `NewSegment` |
| `SegmentQueueBuffer.Queue.Acquire` | src/queue32.c:207-280 | the place behind the last message iff it fits there, otherwise the start of the next segment, or a counted loss; the buffer that is handed out holds the packet, and its reserved header is stored; invalid sizes change nothing |
| `SegmentQueueBuffer.Queue.TakeRoom` | src/queue32.c:246-258 | header, size and uncommitted count of one message in the current segment, and nothing else |
| `SegmentQueueProducers.SectionIsAcquire` | src/queue32.c:241-265 | the section of the machine and that of the object agree, up to the store of a lost count |
| `SegmentQueueBuffer.Queue.Push` | src/queue32.c:283-304 | commits that message; flush opens a new segment |
| `SegmentQueueBuffer.Queue.StampCounters` | src/queue32.c:372-403 | the loop writes the counters into the oldest segment and nowhere else |
| `SegmentQueueBuffer.Queue.Pop` | src/queue32m.c:364-427 | the oldest segment with counters, if it is ready; the lost count is handed over and reset |
| `SegmentQueueBuffer.Queue.Release` | src/queue32.c:406-417 | the oldest segment leaves the ring |
| `MedianFilter.Filter.constructor` | src/util.c:106-116 | an empty window, with the size brought into range |
| `MedianFilter.Filter.Calc` | src/util.c:137-173 | after any history, the result is the median of the last `size` inputs |
| `MedianFilter.Filter.StoreSample` | src/util.c:137-155 | replaces the oldest sample and leaves the index array sorted without it |
| `MedianFilter.Filter.PlaceSample` | src/util.c:155-166 | the index array is again a permutation of the window slots sorted by value |
| `MedianFilter.Filter.RemoveOldest` | src/util.c:140-153 | the shift loop removes exactly one slot and keeps the order of the others |
| `MedianFilter.Filter.InsertNewest` | src/util.c:155-164 | the insertion loop puts the slot behind all values not greater |
| `MedianFilter.Filter.ReadMedian` | src/util.c:166-173 | the middle value, or the truncated mean of two |
| `Median.SortedUnique` | src/util.c:137-173 | a window has one sorted order |
| `Median.MedianUnique` | src/util.c:137-173 | and one median |
| `Median.MedianOfMajority` | src/util.c:137-173 | outlier rejection: if strictly more than half of a window lies in a range, so does its median, odd or even |
| `Median.HalfIsNotEnough` | src/util.c:137-173 | with exactly half of the window it need not, for every even window size and any two values that differ by 2 or more |
| `ClockSync.DriftReproducesInterval` | src/util.c:637-653 | the estimated drift predicts the measured interval up to dt2 / 10^9 + 1 ns, on the safe side |
| `ClockSync.DriftOverflow` | src/util.c:637-653 | the estimate does not overflow iff the intervals differ by at most 9223372036 ns |
| `ClockSync.IntegralClamped` | src/util.c:684-708 | after every PI update the integral is in its clamp and matches the accumulator |
| `ClockIntegral.Accumulates` | src/util.c:684-715 | no error is lost: while the sums stay in the clamp, the accumulator is its start plus the sum of all errors, the integral a 64th of it, and the drift adds a quarter of the last error |
| `ClockIntegral.SmallErrorsMove` | src/util.c:684-715 | there is no dead zone: 64 errors of one nanosecond move the integral by one, either way |
| `ClockIntegral.Saturates` | src/util.c:684-708 | errors of one sign drive the accumulator to their sum or to the end of its clamp, at both ends |
| `ClockIntegral.LeavesSaturation` | src/util.c:684-708 | anti-windup: at either end the integral is 500000 ppb, and the first error of the other sign leaves it |
| `ClockIntegral.ErrorSign` | src/util.c:663-673 | the error is positive iff the target clock is ahead of the prediction, and then the drift does not fall below the integral |
| `ClockSync.SeedClampedIff` | src/util.c:649-661 | the bootstrap seed lies in the clamp iff the intervals differ by less than 500001 ppb of the second one |
| `ClockSync.SeedIsNotClamped` | src/util.c:649-661 | a bootstrap whose seed does not: clocks that differ by 0.1 percent |
| `ClockSync.RunSafe` | src/util.c:663-715 | with intervals up to 10 s and bounded seed and errors, no intermediate of any PI run overflows |
| `ClockSync.SeedBounded` | src/util.c:649-661 | the exact condition on the intervals under which the seed is one that `RunSafe` allows |
| `ClockSync.BootstrappedRunSafe` | src/util.c:637-715 | so no run overflows behind a bootstrap whose intervals differ by at most half of the second one |
| `ClockStability.ErrorsStayBounded` | src/util.c:663-715 | with a self-reproducing drift bound, bounded jitter keeps every error of the run bounded, with or without a filter that passes on no more than the worst error so far |
| `ClockStability.SelfBoundExists` | src/util.c:663-715 | a drift bound that reproduces itself in one cycle exists iff intervals are below 4 s |
| `ClockStability.OneCycleGrows` | src/util.c:663-715 | from 4 s on, one cycle of identical clocks enlarges a drift of 1.6 percent or more |
| `ClockStability.DriftRunsAway` | src/util.c:663-715 | so `n` such cycles add at least `n` times 500000 ppb |
| `ClockStability.ErrorsExceed` | src/util.c:663-715 | and the errors of the run exceed every bound |
| `ClockStability.SeedRunsAway` | src/util.c:649-715 | from 4 s on, one pair of identical clocks after a bootstrap of 1.7 percent starts the runaway |
| `ClockStability.StableIff` | src/util.c:613-715 | for every jitter and every drift at the start there is a bound on the errors of all runs, of any length, iff intervals are below 4 s |
| `ClockStability.BootstrappedStableIff` | src/util.c:613-715 | for whole runs from the first pairs on: for every jitter there is a bound on the errors of all runs iff intervals are below 4 s |
| `ClockStability.UnstableAtTenSeconds` | src/util.c:663-715 | at 10 s a drift error of 10 ppb or more at least doubles in one cycle of identical clocks, if the accumulator is at most 16 times as large, which stays so |
| `ClockStability.DriftDoubles` | src/util.c:663-715 | so after `n` cycles it has grown at least by 2 to the power of `n` |
| `ClockSynchronizer.NoOverflow` | src/util.c:663-715 | in that range the 64 bit computation is exact |
| `ClockSynchronizer.NoDriftOverflow` | src/util.c:637-653 | so is the estimate |
| `ClockSynchronizer.UpdateIsExact` | src/util.c:637-722 | an accepted pair in exact arithmetic: the second pair seeds drift, integral and accumulator in Pi mode, iff the accumulator fits 64 bits, and the drift alone in default mode; later pairs are one update with the offset error, or a new estimate |
| `ClockSynchronizer.Synchronizer.constructor` | src/util.c:563-574 | not synchronized, all zero |
| `ClockSynchronizer.Synchronizer.Update` | src/util.c:620-729 | anchor, rejection of pairs that are not monotonic, bootstrap, and the two modes, in exact arithmetic where it does not overflow; the value used is the median of the raw values in the window if the filter is on |
| `ClockSynchronizer.Synchronizer.Accept` | src/util.c:637-722 | a monotonic pair: bootstrap, or filter and mode, as one change of the servo |
| `ClockSynchronizer.Synchronizer.Bootstrap` | src/util.c:637-661 | estimate and seed of the servo |
| `ClockSynchronizer.Synchronizer.Track` | src/util.c:663-722 | servo or estimate, behind the filter |
| `ClockSynchronizer.Synchronizer.Filtered` | src/util.c:675-681 | the median of the window, or the raw value |
| `ClockSynchronizer.Synchronizer.Steer` | src/util.c:684-722 | how the filtered value changes the servo |
| `ClockSynchronizer.Synchronizer.Interpolate` | src/util.c:589-611 | outputs increase strictly until the last 64 bit value |
| `ClockSynchronizer.Synchronizer.EstimateReproduces` | src/util.c:589-611 | on the object, in 64 bit arithmetic: the drift of an accepted pair predicts the same interval once more up to dt2 / 10^9 + 1 ns |
| `Checksum.SumWords` | src/socket_raw.c:203-209 | the summing loop computes the sum of the 16 bit words and its 32 bit arithmetic does not overflow |
| `Checksum.AddOddByte` | src/socket_raw.c:207-209 | an odd trailing byte is the high byte of a last word |
| `Checksum.FoldCarries` | src/socket_raw.c:210-216 | the folding loop terminates with the folded sum |
| `Checksum.ComputeChecksum` | src/socket_raw.c:203-216 | checksum of any range of a buffer, odd length included |
| `Checksum.VerifiesIff` | src/socket_raw.c:203-216 | data verifies to 0 iff its word sum is a positive multiple of 65535 (section 4.1 of RFC 1071) |
| `Checksum.WordReplaced` | src/socket_raw.c:203-216 | replacing one word changes the sum by the difference |
| `Checksum.InsertedVerifies` | src/socket_raw.c:218-221 | data with its checksum inserted verifies, whatever the data |
| `Checksum.UdpInsertedVerifies` | src/socket_raw.c:225-237 | also with zero sent as 65535 |
| `Checksum.CorruptionDetected` | src/socket_raw.c:203-221 | a replaced word goes unnoticed iff it is equal modulo 65535 and something is left to sum |
| `RawWire.OddByteIsPadded` | src/socket_raw.c:203-216 | an odd trailing byte counts as if a zero followed it |
| `RawWire.PseudoSumIsHeaderSum` | src/socket_raw.c:225-237 | the start value of the UDP checksum is the sum of the pseudo header, protocol and length included (RFC 768) |
| `RawFrame.IpHeaderVerifies` | src/socket_raw.c:725-755 | every IPv4 header that is built verifies |
| `RawFrame.UdpChecksumVerifies` | src/socket_raw.c:225-237 | a computed UDP checksum verifies against the pseudo header and is never zero (RFC 768) |
| `RawFrame.FrameRoundTrip` | src/socket_raw.c:413-526 | a built frame is accepted iff it is addressed to the endpoint and fits its buffer, and then yields exactly payload, source address and port; the return value is positive iff it is accepted and the payload is not empty |
| `RawFrame.AnswerReachesSender` | src/socket_raw.c:413-526 | an answer to the reported source reaches the first sender, and both know each other |
| `RawFrame.AcceptedIsAddressed` | src/socket_raw.c:413-526 | for arbitrary bytes: what is accepted lies inside frame and datagram, fits the buffer, was addressed to the endpoint and had an intact header |
| `RawFrame.ArpAnswered` | src/socket_raw.c:282-319 | exactly the requests for the own address are answered, to the requester |
| `RawFrame.EchoAnswered` | src/socket_raw.c:355-402 | a ping is answered with its own data, and both checksums of the answer verify |
| `RawFrame.AnswersAreNotAnswered` | src/socket_raw.c:282-402 | no endpoint answers an answer |
| `RawWire.RememberedIff` | src/socket_raw.c:413-526 | what received bytes change: an accepted unicast datagram teaches the peer, an answered ping takes an identifier, and nothing else changes anything |
| `RawWire.FrameOnTheWire` | src/socket_raw.c:725-755 | a datagram byte by byte: addresses, types, lengths, ports and payload at their offsets, and a header that verifies |
| `RawWire.ChecksumOnTheWire` | src/socket_raw.c:225-237 | its checksum field verifies with the pseudo header and is not zero, or is zero if it is not computed |
| `RawWire.AcceptedIff` | src/socket_raw.c:413-526 | arbitrary received bytes are a datagram iff they are an intact, unfragmented packet for this endpoint and port with lengths that fit; and then exactly which bytes are handed over |
| `RawWire.PingAnsweredIff` | src/socket_raw.c:355-402 | of all packets exactly the echo requests that fit the reply buffer are answered, with an echo reply byte by byte (RFC 792) |
| `RawWire.ArpAnsweredIff` | src/socket_raw.c:282-319 | of all bytes received as ARP exactly the requests for the own address are answered, byte by byte (RFC 826) |
| `RawSocket.Socket.constructor` | src/socket_raw.c:552-560 | the static socket is closed and knows no peer |
| `RawSocket.Socket.Open` | src/socket_raw.c:552-601 | opens iff no socket is open, TCP is not asked for, and the driver reports a MAC address that is neither multicast nor all zero; each failure leaves what the code leaves |
| `RawSocket.Socket.Bind` | src/socket_raw.c:606-629 | accepts exactly the concrete unicast addresses |
| `RawSocket.Socket.WriteIpHeader` | src/socket_raw.c:725-744 | Ethernet and IPv4 header in front, rest untouched |
| `RawSocket.Socket.WriteUdpHeader` | src/socket_raw.c:745-755 | UDP header over a payload in place |
| `RawSocket.Socket.BuildFrameHeader` | src/socket_raw.c:725-755 | header and payload together are the frame that `FrameRoundTrip` speaks of |
| `RawSocket.Socket.SendTo` | src/socket_raw.c:758-828 | sends iff open, size in range and peer known; each failure has its error |
| `RawSocket.Socket.HandleFrame` | src/socket_raw.c:413-526 | outcome and learned peer as `Handle` and `After` say |
| `BinFormat.HeaderReads` | src/persistence.c:134-151 | the header record reads back |
| `BinFormat.EventReads` | src/persistence.c:154-173 | every event record reads back |
| `BinFormat.SegReads` | src/persistence.c:176-212 | every segment descriptor reads back |
| `BinRoundTrip.LoadRecovers` | src/persistence.c:383-533 | loading what was written recovers all events, segments, default pages, counters and file positions iff the memory segment numbers are in the order of the list; another software version is refused |
| `BinRoundTrip.RecoversConsistent` | src/persistence.c:383-533 | so a registry created by one thread is recovered exactly |
| `BinRoundTrip.OutOfOrderRefused` | src/cal.c:402-427 | a list with the numbers 1, 0 is written to a file that does not load |
| `BinFile.CreateEventConsistent` | src/xcplite.c:871-913 | creating an event keeps the registry one that can be recovered |
| `BinFile.CreateSegConsistent` | src/cal.c:486-562 | so does creating a segment |
| `BinFile.CreateEventIff` | src/xcplite.c:871-913 | when an event is created: the name fits its field and the list has room |
| `BinFile.CreateSegIff` | src/cal.c:486-562 | when a segment is created: pool, numbers and list have room; and what its creation advances |
| `BinFile.PoolSizeIs` | src/cal.c:505-509 | a segment takes its header and its pages, each rounded up to 8 bytes, from the pool |
| `BinRoundTrip.RecreatesSeg` | src/cal.c:402-427 | a segment created while loading gets its old index and number |
| `BinForeign.EpkIff` | src/persistence.c:405-411 | a software version is accepted iff it agrees in the 31 bytes that are compared |
| `BinForeign.HeaderBytes` | src/persistence.c:46-59 | the header byte by byte |
| `BinForeign.EventBytes` | src/persistence.c:61-72 | an event record byte by byte |
| `BinForeign.SegmentBytes` | src/persistence.c:74-85 | a segment record and its page byte by byte |
| `BinForeign.LoadedIsOurs` | src/persistence.c:383-460 | any file that loads has this signature and version, and as many events and segments as its header says |
| `BinForeign.LoadedIsInOrder` | src/cal.c:402-427 | and the id of every event and the index of every segment is its place in the list |
| `BinForeign.TruncatedRefused` | src/persistence.c:383-460 | a written file that is cut off anywhere does not load |
| `BinFreeze.RecordedPosition` | src/persistence.c:176-212 | in a file below 4 GiB the recorded position is the true one |
| `BinFreeze.FreezeIsRewrite` | src/persistence.c:331-373 | patching a page in place gives the same bytes as writing the file again with only that page replaced |
| `BinFreeze.LoadAfterFreeze` | src/persistence.c:331-533 | after a freeze, loading recovers the frozen page and leaves all else as it was, iff the numbers are in the order of the list |
| `BinStore.Store.constructor` | src/persistence.c:383-390 | loading starts from empty lists |
| `BinStore.Store.WriteSeg` | src/persistence.c:176-212 | appends descriptor and page, and records the position |
| `BinStore.Store.WriteEvents` | src/persistence.c:250-322 | the loop appends all event records |
| `BinStore.Store.WriteNext` | src/persistence.c:250-322 | one pass of that loop |
| `BinStore.Store.WriteSegs` | src/persistence.c:250-322 | the loop appends all segments and records all positions |
| `BinStore.Store.Write` | src/persistence.c:250-322 | the file is exactly the encoding of the lists |
| `BinStore.Store.Freeze` | src/persistence.c:331-373 | overwrites one page at the recorded position, and nothing else |
| `BinStore.Store.ReadEvents` | src/persistence.c:383-533 | the loop creates the events, or fails |
| `BinStore.Store.ReadOneSeg` | src/persistence.c:383-533 | one pass: the next segment, or a failure |
| `BinStore.Store.ReadSegs` | src/persistence.c:383-533 | the loop creates the segments, or fails |
| `BinStore.Store.ReadLists` | src/persistence.c:417-460 | refuses lists that are not empty, and loads both otherwise |
| `BinStore.Store.LoadFile` | src/persistence.c:383-533 | succeeds iff both lists are empty and header, version and both lists of the file are accepted, and then leaves the loaded lists |

## Left out

- Weak memory orders and the `QUEUE64F_TAIL_*` options: runs are sequentially consistent interleavings.
- A2L generation, the instrumentation macros, `src/shm.c` and shared memory mode, with the application list of the persistence file.
- `XcpCalUpdateEpkSeg`, which writes a published page in place, and `XcpCalSegCopyCalPage`.
- Name lookup of segments and events, and uniqueness of names under concurrent creation.
- `queueClear` and `queueDeinit` while producers are active; level queries, timing statistics and `flush_offset` hints.
- Absolute addressing mode, where the default page is not copied.
- Linear regression and other floating point filters, random numbers, clocks and sleeps.
- The receive loop with its deadline, the network driver, gratuitous ARP and `socketSendToReserved`; `SendTo` ends where the frame is handed to the driver.
- File system failures, renaming and deleting of the persistence file; a file is the bytes in it, and strings in it are padded with zeros.
- Cursor wrap-around at 2^64, and overflow of the 32 bit lost counters.
- Option variants with unaligned sizes.
- RefCountSegment.CalSeg.Lock: the classes are the view of one thread at a time, so the retry of a lock whose validation fails, and everything else that needs two threads, is in the state machines.
- BinStore.Store.LoadFile: what the lists hold after a load that failed is not stated.
- SegmentQueueDelivery.AcquiresCounted: for `queue32.c` the counts dropped and brought back appear as terms of their own; `SegmentQueueLosses.CountsKeptIff` says when they are 0.
- ClockSync.RunSafe: assumes bounded errors; `ClockStability.StableIff` says when the servo provides them itself.
- SegmentQueueBuffer.Queue.Pop: the value of the transport counter is an abstract 16 bit counter, drawn once per message.
- CalRefCountSystem.ReadersSeeBoundaries: the attempts on other segments come in from outside, and a page selection reaches the readers in one step at the end of its command; the same holds for the hand-over.
