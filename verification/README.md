# Verification of the block-device engine

This project models the parts of the user-space block driver that hold its correctness: the
RAID4/5 write engine with its stripe locks and phased parity updates, the chunk cache and the two
cache handlers above it, RAID0 striping (also over RAID5, that is RAID50), the single-producer
single-consumer ring, and the online/offline machine. Everything is stated for all inputs, all
orders in which backend I/Os complete, and all backend failures.

## How the model is built

Code that updates objects in place is modelled by classes with the same fields and one method per
entry point and completer (`Acceptor.Target`, `BitsetLocker.Locker`, `FlatLru.Lru`,
`CacheReads.ReadSide`, `RwiHandler.Rwi`, `RwtHandler.Rwt`, `Raid0.Backend`, `RaidBackend.Backend`,
`Fsm.Machine`). In-place byte loops work on arrays (`Parity`). Protocols are state machines whose
events are client requests and single backend completions.

| file | content |
|---|---|
| Bytes, Arithmetic, Options, Waiting | shared vocabulary: exclusive or, overlaying ranges, quotient and remainder, optional values, swap-and-pop |
| Parity | the wrap-around folding loops, and the laws of parity |
| StripeWriter | one stripe: the phases of a chunk write and the invariant indexed by phase |
| Engine, EngineInvariant, EngineRequests | the whole target: splitting, locks, pending chunks, requests, reads, errors; every event keeps the invariant |
| EngineTheorems, EngineProgress, FlatArray, FlatReads, Overtaking | results over runs: parity, quiet states, errors, progress, the order of service, the flat byte array under concurrent writes, what a client's read may count on, a run in which a write is overtaken |
| Layout, RaidBackend, Disks | the address map, the splitting loops, and why a disk I/O is a step on a stripe |
| BitsetLocker, AcceptorSteps, Acceptor | the engine in its imperative form; each method moves its ghost `model` by exactly one step of `Engine` |
| Fsm | the online/offline machine, by itself and as the engine drives it |
| FlatLru, LruRuns | the sorted vector with ages, against a textbook LRU list; what runs without invalidation leave in the cache |
| CacheReads, LoneReads, RwiHandler, RwiRuns, RwtHandler, RwtRuns | read side of the caches, invalidating and write-through handlers, whole runs of both, and what a client of either may count on |
| Raid0, Interleaving, Raid50 | striping; several RAID4/5 targets side by side; striping over them, any number of client writes and reads at a time |
| Ring | the ring buffer, with both sides taking turns one memory access at a time |

## The environment

* A `submit` on the layer below returns 0 and reports failure only through the completion's error.
  RAID4/5 targets are built over default targets only (ublk/master.cpp:268-285, 323-340), whose
  read and write calls always return 0 (ublk/def/target.cpp:72-97). For the caches and RAID0 it is
  a condition on the layer below. Completions come later than the call that submitted the I/O.
  The one part of the other case that is kept is the machine's edge: a return value other than 0
  takes it offline (`Fsm`).
* Requests lie inside the device, whose capacity is a whole number of stripes, chunks or strips.
  There are at least two data strips, that is three disks.
* A write under way may leave any bytes at all in the range it covers, at any time until it
  completes well (events `Tear`); one that failed may have left anything there. A read sees the
  disk at the moment its part completes, or, in the caches, byte by byte at any moment before.
  Below the invalidating handler nothing is assumed of a write that completed well either: an
  overlapping one may have been served later.
* A request's own bookkeeping is done when its chunk is over and before the chunk's lock is passed
  on; in the code the request is released just after. Nothing reads the one between the other.
* Buffers are values, error codes are reduced to whether there was an error.

## Findings

* Writes that wait for one stripe or chunk are not served in order of arrival: the first match is
  taken, the last entry swapped into its place. Of four client writes of one stripe, or of one cached
  chunk, submitted in order to a fresh target, the fourth is served third, while the third waits
  (`Overtaking.OvertakingRun`, `RwtHandler.OvertakingRun`). Taking an entry out keeps the order at
  every stripe exactly if no entry behind it waits for the stripe of the very last one
  (`Waiting.OrderKeptIff`, for every list). The results speak of some service order.
* `flat_lru` loses a cached pair when a slot is reused although there is room for it: three pairs
  stored in an empty cache, one invalidated and stored again (`FlatLru.LosingRun`). An update is the
  textbook's, in the list and in the pair handed back, exactly if the key is cached, or the cache is
  full of valid entries, or no entry has reached the last age and the slot to be used holds no stale
  pair (`FlatLru.TextbookGuard`, `FlatLru.Lru.Update`), which is always so without invalidation.
* `RWTHandler` is not coherent for arbitrary interleavings (`RwtHandler.IncoherentRun`). What goes
  wrong is exactly the overlap of a client's miss that may still fill the cache with a write of its
  chunk that is below: from a coherent state without one every event leads to a coherent state
  (`RwtRuns.Do`), and from every state with one the layer below alone can make the cache incoherent
  (`RwtHandler.Rwt.Spoil`). Clients can rule it out: in every run the cache is coherent if they
  read only chunks that are cached or of which no write runs or waits, and write only whole chunks
  or chunks of which no miss is under way that may still fill the cache (`RwtRuns.Run`). One that
  reads a chunk that is not cached while a write of it is below, or writes a part of a cached chunk
  while such a miss is under way, brings the overlap about (`RwtRuns.ReadSpoils`,
  `RwtRuns.WriteSpoils`).

## Model

| member | source | states |
|---|---|---|
| `Parity.ParityTo` | ublk/raidsp/parity.cpp:12-42 | The head, whole and tail loops turn each parity byte j into its old value xor all data bytes i with (start + i) modulo the strip size equal to j, whatever start and length; the loop ends |
| `Parity.ParityRenew` | ublk/raidsp/parity.cpp:44-48 | The parity becomes the column-wise exclusive or of the whole data |
| `Parity.XorTo` | ublk/raidsp/parity.cpp:30-31 | Exactly the addressed range is xored with the source range, all other bytes stay |
| `Parity.FoldBlock` | ublk/raidsp/parity.cpp:21-41 | One block without wrap-around extends the folded prefix of the data by exactly that block |
| `Parity.FoldedConcat` | ublk/raidsp/parity.cpp:35-38 | Folding two pieces one after the other, the second shifted by the first's length, is folding them at once: every data byte is used exactly once |
| `Parity.ReadModifyWriteIsRecompute` | ublk/raidsp/acceptor.cpp:214-222 | Folding new xor old of any range, however many strips it spans, into a coherent parity gives the parity renewed from the updated stripe |
| `Parity.CoherentIffStripsCancel` | ublk/raidsp/acceptor.cpp:281-285 | A parity is the data's parity if and only if all strips, parity included, cancel out in every column |
| `Parity.AnyStripRecoverable` | ublk/raidsp/acceptor.cpp:88-126 | With a coherent parity every byte of any one data strip is the exclusive or of the other strips and the parity |
| `StripeWriter.BeginKeepsInv` | ublk/raidsp/acceptor.cpp:174-346 | Starting any of the three kinds of update on an idle stripe keeps the stripe's invariant |
| `StripeWriter.StartReadsAsNeeded` | ublk/raidsp/acceptor.cpp:167-349 | Starting a write reads exactly the strips it changes of a coherent stripe, all data strips of an incoherent one, and nothing if it writes the whole stripe; the stripe itself stays |
| `StripeWriter.CompleteReadOldKeepsInv` | ublk/raidsp/acceptor.cpp:198-264 | Reading the bytes to be replaced, strip by strip, in any order and with errors, ends with exactly those bytes or gives the write up, and keeps the invariant |
| `StripeWriter.CompleteParityReadKeepsInv` | ublk/raidsp/acceptor.cpp:206-247 | The patched parity that goes out is the parity of the stripe as the write will leave it |
| `StripeWriter.CompleteReadStripeKeepsInv` | ublk/raidsp/acceptor.cpp:266-331 | The recomputed parity that goes out is the parity of the stripe as the write will leave it |
| `StripeWriter.CompleteWriteKeepsInv` | ublk/raidsp/acceptor.cpp:47-116 | Whatever order data and parity I/Os complete in, and whichever fail, the coherency bit ends up set only over a parity that holds |
| `StripeWriter.CompleteKeepsInv` | ublk/raidsp/acceptor.cpp:47-349 | Every completion in every phase keeps the invariant of the stripe: parity equation by phase, flat content, coherency bit after success |
| `StripeWriter.BitFollowsFailures` | ublk/raidsp/acceptor.cpp:47-116 | Reads never change the coherency bit; a write that is over leaves it set if and only if none of its writing I/Os failed; it is cleared earlier only after one did |
| `StripeWriter.TornKeepsInv` | ublk/raidsp/acceptor.cpp:118-126 | Anything a disk does to the range of a write under way keeps the invariant |
| `StripeWriter.CompleteFrame` | ublk/raidsp/acceptor.cpp:64-83 | A chunk write fails exactly if one of its I/Os failed in any phase; its lock and its history are left alone otherwise |
| `StripeWriter.SomethingOutstanding` | ublk/raidsp/acceptor.cpp:334-337 | A chunk write that is under way always waits for some backend I/O |
| `EngineRequests.SplitIsWellSplit` | ublk/raidsp/acceptor.cpp:359-399 | A request's chunks fit their stripes and go to strictly increasing stripes inside the array |
| `FlatArray.SplitCovers` | ublk/raidsp/acceptor.cpp:362-399 | Every byte of a request is in some chunk, with its value, at its place in its stripe |
| `FlatArray.SplitCoversOnly` | ublk/raidsp/acceptor.cpp:362-399 | A chunk covers no address outside its request |
| `EngineRequests.AcceptAllKeepsInvariant` | ublk/raidsp/acceptor.cpp:389-396 | Locking or queueing all chunks of a request one after the other keeps the target's invariant |
| `EngineInvariant.PassOnKeepsInvariant` | ublk/raidsp/acceptor.cpp:373-385 | Handing the lock to the first waiting chunk, or releasing it, keeps the invariant: one write per locked stripe, chunks wait only for locked stripes, none is lost |
| `EngineTheorems.StepKeepsInvariant` | ublk/raidsp/acceptor.cpp:351-402 | Every event keeps the target's invariant: a request, any backend completion, well or failed, and any tearing |
| `EngineTheorems.RunKeepsInvariant` | ublk/raidsp/acceptor.cpp:38-402 | The invariant holds in every state of every run |
| `EngineTheorems.ParityEquation` | ublk/raidsp/acceptor.cpp:47-126 | In every state of every run a stripe that is not locked and whose coherency bit is set has all its strips, parity included, cancelling out in every column |
| `EngineTheorems.LostStripRecoverable` | ublk/raidsp/acceptor.cpp:47-126 | In such a state any one lost strip can be rebuilt from the others |
| `EngineTheorems.ActivityHasIo` | ublk/raidsp/acceptor.cpp:355-396 | Whenever a chunk waits or a request is open some backend I/O is outstanding: no deadlock on the stripe locks |
| `EngineTheorems.QuietIsIdle` | ublk/raidsp/acceptor.cpp:355-396 | Without backend I/O no lock is held, nothing waits and every request is over |
| `EngineTheorems.QuietServedOnce` | ublk/raidsp/acceptor.cpp:373-385 | Then every accepted chunk was served exactly as often as it was accepted |
| `EngineTheorems.OrderOfService` | ublk/raidsp/acceptor.cpp:374-380 | When a lock is passed on, the chunks left for every stripe keep their order if and only if none of those behind the taken one waits for the stripe of the last one |
| `EngineTheorems.ThirdOvertakesSecond` | ublk/raidsp/acceptor.cpp:374-380 | Of three chunks waiting for one stripe the third is taken second: what the first match and the swap make of such a list |
| `Overtaking.OvertakingRun` | ublk/raidsp/acceptor.cpp:351-402 | A run of a fresh target that starts with four client writes of one stripe: when the first two are served the fourth has the stripe and the third still waits |
| `EngineProgress.WritesGetDone` | ublk/write_query.hpp:35-67 | Without new writes the backend I/Os of writes that can still complete are bounded by the work left, and as long as a request is open there is work and an I/O outstanding |
| `EngineTheorems.OnlineQuietIsSound` | ublk/raidsp/target.cpp:62-78 | A target online with no I/O outstanding: every stripe ever written has its coherency bit set and a parity that holds, and the data is the fold of its chunk writes |
| `EngineTheorems.ErrorsAreExact` | ublk/write_query.hpp:59-67 | A request that is over failed if and only if some backend I/O of its failed; it is over once; the target is online exactly as long as none failed |
| `EngineTheorems.FailuresAreFailedIos` | ublk/raidsp/target.cpp:62-78 | What counts as a failed I/O of a request in that statement is exactly a backend completion with an error for it |
| `EngineTheorems.OfflineIsAbsorbing` | ublk/raidsp/fsm.hpp:62-67 | Offline is for good, and an offline target refuses every request and changes nothing |
| `FlatReads.ReadReturnsFlatArray` | ublk/raidsp/acceptor.cpp:38-45 | A client read that does not fail gets, in any run, however much of it is overlapped, the flat array in every byte that no chunk write outstanding at its submission or accepted since covers, wherever the last write of the byte succeeded |
| `FlatReads.ReadReturnsLastWrite` | ublk/raidsp/acceptor.cpp:38-45 | What a client may count on, in every run: in each byte that no unfinished write overlaps, a read that does not fail gets what one write says that was not over when any other write of the byte was submitted, or what the disks held at first, as long as no I/O failed for a write of the byte |
| `FlatArray.WritesOverlayFlatArray` | ublk/raidsp/acceptor.cpp:351-402 | In every run of a fresh target, under any number of client writes at a time: a byte some finished write covers is what a write says that was not over yet when that one was submitted; a byte changes only by writes that are not over yet |
| `FlatArray.LastWrite` | ublk/raidsp/acceptor.cpp:351-402 | Names, in every state of every run, the one write a byte of the flat array is from: no write of the byte that is over by now was submitted after it was over; or there is none, no write of the byte is over, and it is what the disks held at first |
| `FlatArray.OverIsServed` | ublk/raidsp/acceptor.cpp:373-385 | A chunk whose request is over was served as often as it was accepted, however busy the target is |
| `FlatArray.SinceIsOpen` | ublk/raidsp/acceptor.cpp:373-396 | What a stripe served since an earlier state is of requests that were not over then, and each is an accepted chunk of that stripe |
| `FlatArray.UnfailedIsKnown` | ublk/raidsp/acceptor.cpp:64-83 | As long as no backend I/O failed for a write of a byte, the disks' byte is defined |
| `FlatArray.QuietServesExactly` | ublk/raidsp/acceptor.cpp:373-396 | Between two quiet states a stripe served exactly the chunks that were accepted for it: none lost, none made up |
| `Layout.LocateIsInjective` | ublk/raidsp/backend.cpp:16-30 | No two bytes of the array, data or parity, share a place on the disks |
| `Layout.LocateIsOnto` | ublk/raidsp/backend.cpp:16-30 | Every place on the disks holds a byte of the array |
| `Layout.StripesAreApart` | ublk/raidsp/backend.cpp:79-97 | Data never lands on its stripe's parity disk, and every byte of a stripe, data or parity, lies in the stripe's own range of its disk |
| `Layout.StripesDoNotMeet` | ublk/raidsp/backend.cpp:79-97 | So the ranges of distinct stripes are disjoint on every disk, and in the order of the stripes |
| `Layout.Raid4IsInOrder` | ublk/raid4/target.cpp:15-19 | RAID4 keeps data strip k on disk k and the parity on the disk behind them |
| `Layout.Raid5MovesDown` | ublk/raid5/target.cpp:15-19 | The parity starts on the last disk and moves down one disk a stripe, around |
| `Layout.StripsGoAcross` | ublk/raidsp/backend.cpp:57-102 | The flat array starts on the first data disk's first byte; the next byte of a strip is that disk's next byte; the next strip is on the next disk around the parity at the same row, or after the last one on the first data disk of the next stripe, one row further on |
| `Layout.ParityCountIs` | ublk/raid5/target.cpp:15-19 | How many of the first m stripes keep their parity on disk d, in closed form |
| `Layout.RotationIsFair` | ublk/raid5/target.cpp:15-19 | Over any n consecutive stripes every disk holds the parity exactly once |
| `Layout.ReadsAreSpread` | ublk/raidsp/backend.cpp:65-99 | A full read of m stripes takes (n-1)*(m/n) + m%n strips from disk d, less one for the disks d >= n - m%n |
| `RaidBackend.Backend.DataRead` | ublk/raidsp/backend.cpp:57-102 | The requests for any number of stripes tile the read: non-empty, contiguous, each inside one strip, every byte at its place by the address map |
| `RaidBackend.Backend.StripeWrite` | ublk/raidsp/backend.cpp:117-167 | The same for the data of a stripe write; the parity request is one whole strip, each byte to where the address map has that byte of the stripe's parity |
| `RaidBackend.Backend.ParityRead` | ublk/raidsp/backend.cpp:104-115 | Asks for one whole strip, each of whose bytes comes from where the address map has that byte of the stripe's parity |
| `RaidBackend.StripIosTiled` | ublk/raidsp/backend.cpp:140-154 | The loop over the strips of one stripe covers its range without gap or overlap and ends each piece only at a strip's or the request's end |
| `RaidBackend.ReadIosTiled` | ublk/raidsp/backend.cpp:65-99 | So does the loop over stripes, and every piece is located by the address map |
| `RaidBackend.Backend.StripLoop` | ublk/raidsp/backend.cpp:71-98 | The loop over the handlers in view, as many as the rounded-up count says, makes exactly the pieces of the range, one for each handler, and nothing is left at its end |
| `RaidBackend.HandlersView` | ublk/raidsp/backend.cpp:14-30 | Of all disks but the parity's the view takes the data disks of the strips asked for, in order |
| `RaidBackend.StripCount` | ublk/raidsp/backend.cpp:71-82 | The handlers from the first strip to the rounded-up last are as many as the range has pieces, and the view's precondition always holds |
| `RaidBackend.ParityIo` | ublk/raidsp/backend.cpp:156-159 | Each byte of the parity request is at the place of that parity byte |
| `Disks.StripIosArePieces` | ublk/raidsp/backend.cpp:140-153 | The i-th request of a stripe range transfers exactly the bytes of its i-th strip |
| `Disks.WriteIsPut` | ublk/raidsp/backend.cpp:142-147 | A completed data request changes its stripe by exactly that strip's part of the range, and no other stripe's data or parity |
| `Disks.ReadIsGet` | ublk/raidsp/backend.cpp:84-96 | A completed read of a strip gets exactly that strip's part of the range |
| `Disks.ParityWriteIsLocal` | ublk/raidsp/backend.cpp:156-164 | A completed parity write changes that stripe's parity and nothing else |
| `Disks.TiledSeparates` | ublk/raidsp/backend.cpp:65-99 | The pieces of a read are its strips, each whole, and every byte is in one |
| `BitsetLocker.Locker.Extend` | utils/bitset_locker.hpp:27-30 | New bits are free, old ones keep their state, the set never shrinks |
| `BitsetLocker.Locker.TryLock` | utils/bitset_locker.hpp:37-40 | Takes the lock exactly if it was free; nobody else's bit changes |
| `BitsetLocker.Locker.Unlock` | utils/bitset_locker.hpp:42-46 | Frees exactly that bit |
| `Acceptor.Target.constructor` | ublk/raidsp/acceptor.cpp:22-31 | A fresh target is an initial state of the machine and has its invariant |
| `Acceptor.Target.Process` | ublk/raidsp/acceptor.cpp:167-349 | Starts the kind of update the machine starts: coherent, incoherent or whole stripe |
| `Acceptor.Target.ChunkOver` | ublk/raidsp/acceptor.cpp:369-386 | The request hears of its chunk and the lock is passed on, exactly as in the machine |
| `Acceptor.Target.OldArrived` | ublk/raidsp/acceptor.cpp:198-264 | The completer of the old data read is the machine's step |
| `Acceptor.Target.ParityArrived` | ublk/raidsp/acceptor.cpp:206-247 | The completer of the old parity read is the machine's step |
| `Acceptor.Target.StripeArrived` | ublk/raidsp/acceptor.cpp:266-328 | The completer of the whole-stripe read is the machine's step |
| `Acceptor.Target.Judge` | ublk/raidsp/acceptor.cpp:53-62 | The coherency bit is what the completers of coherent and incoherent writes make of it |
| `Acceptor.Target.CompleteChunkIo` | ublk/raidsp/acceptor.cpp:47-349 | A completion of any I/O of a chunk write, acting on disks, bits, lists and maps, is exactly the machine's step, and keeps the machine's invariant |
| `Acceptor.Target.SubmitWrite` | ublk/raidsp/acceptor.cpp:351-402 | A client write is exactly the machine's step, keeps the invariant, returns 0 if and only if the target is online, and EIO otherwise |
| `Acceptor.Target.SubmitRead` | ublk/raidsp/acceptor.cpp:38-45 | A client read is exactly the machine's step, keeps the invariant, returns 0 if and only if the target is online, and EIO otherwise |
| `Acceptor.Target.CompleteReadIo` | ublk/raidsp/target.cpp:44-60 | A completed read request fills in what the machine fills in; the client hears of failure exactly when its last request is over and some failed |
| `Acceptor.Target.IsStripeParityCoherent` | ublk/raidsp/acceptor.cpp:33-36 | A stripe reported coherent by an online target, and not locked, has on its disks a parity that is the parity of the data on its disks; an offline target says no |
| `Acceptor.NewRaid4` | ublk/raid4/target.cpp:15-19 | The RAID4 layout on disks of equal size makes a target that starts in a state with the invariant |
| `Acceptor.NewRaid5` | ublk/raid5/target.cpp:15-19 | So does the RAID5 layout |
| `AcceptorSteps.StepInParts` | ublk/raidsp/acceptor.cpp:53-116 | The machine's step is: note the failure, change disks and coherency bit, then go on or end |
| `AcceptorSteps.SplitIsCut` | ublk/raidsp/acceptor.cpp:359-399 | The loop over the request cuts off exactly the machine's chunks |
| `AcceptorSteps.RoundedUp` | ublk/raidsp/acceptor.cpp:355-357 | The lock and coherency bits made room for cover every chunk's stripe and no stripe beyond the array |
| `Fsm.Machine.Process` | ublk/raidsp/fsm.hpp:37-69 | Each event's transition; an online machine answers a request with exactly what the acceptor returned, an offline one with an error, and a coherency question with yes only when online and known |
| `Fsm.Feed` | ublk/raidsp/fsm.hpp:37-69 | Over any sequence of events the machine is online exactly if none was fatal; a request is answered with what the acceptor returned as long as no event before was fatal, and with a code that is not 0 after one was |
| `Fsm.DueIs` | ublk/raidsp/fsm.hpp:37-69 | The answer due to each event: what the acceptor returned or, after a fatal event, an error; a request is answered with 0 exactly if the machine is online after it |
| `FlatLru.Lru.Touch` | ublk/cache/flat_lru.hpp:207-225 | Entries younger than the touched one age by one, compared with its age before, and it becomes the youngest |
| `FlatLru.Lru.EvictIndexFind` | ublk/cache/flat_lru.hpp:153-165 | Finds an invalid entry, or else the oldest of all |
| `FlatLru.Lru.Find` | ublk/cache/flat_lru.hpp:75-81 | A miss, or the buffer last stored under the key, which then is the most recently used |
| `FlatLru.Lru.Overwrite` | ublk/cache/flat_lru.hpp:83-85 | Changing a cached buffer through the mutable view changes that pair only and makes it the most recent |
| `FlatLru.Lru.Update` | ublk/cache/flat_lru.hpp:230-286 | On any history the new pair comes first, the pair it replaces goes and is handed back, at most one other pair is lost and it is the oldest, keys stay sorted and ages distinct; list and evicted pair are the textbook's if and only if the guard holds, and always without invalidation before |
| `FlatLru.Lru.Invalidate` | ublk/cache/flat_lru.hpp:94-97 | Exactly that key is dropped |
| `FlatLru.Lru.InvalidateRange` | ublk/cache/flat_lru.hpp:99-102 | Exactly the keys in the range are dropped |
| `FlatLru.Lru.MoveSlot` | ublk/cache/flat_lru.hpp:243-251 | Both rotations move the victim's slot to where the vector stays sorted |
| `FlatLru.TouchedRecency` | ublk/cache/flat_lru.hpp:207-225 | In the list by age, touching moves an entry to the front, and an entry that would reach the age of an invalid one drops off the end |
| `FlatLru.StoringIsTextbook` | ublk/cache/flat_lru.hpp:237-260 | The list after storing a new key is what the textbook says if and only if the cache is full of valid entries or no entry has the last age |
| `FlatLru.UpdateIsTextbookIff` | ublk/cache/flat_lru.hpp:230-286 | For every way an update gets its slot, list and pair handed back are the textbook's if and only if the key is cached, the cache is full of valid entries, or no entry has the last age and the slot holds no stale pair |
| `FlatLru.HandedBack` | ublk/cache/flat_lru.hpp:262-271 | The pair handed back for a new key is the textbook's if and only if the cache is full of valid entries or the slot used holds no stale pair |
| `FlatLru.AtMostTheOldestGoes` | ublk/cache/flat_lru.hpp:207-225 | What storing a new key leaves of the list is all of it, or all but its last pair, the oldest |
| `FlatLru.LosingRun` | ublk/cache/flat_lru.hpp:109-116 | A run from an empty cache of three slots that ends with two pairs where the textbook keeps three |
| `FlatLru.InvalidationLosesAPair` | ublk/cache/flat_lru.hpp:109-116 | A concrete cache where storing loses a pair although there is room |
| `FlatLru.PlacedRecency` | ublk/cache/flat_lru.hpp:230-272 | The list by recency after any update, for each of the four ways to get a slot |
| `FlatLru.OldestIsLast` | ublk/cache/flat_lru.hpp:240-249 | The victim of a full cache of valid entries has the last age |
| `FlatLru.AgeIsRank` | ublk/cache/flat_lru.hpp:207-225 | Without invalidation the age of an entry is its rank in the list of most recently used pairs |
| `FlatLru.DenseStoring` | ublk/cache/flat_lru.hpp:230-286 | Without invalidation storing is always the textbook's |
| `LruRuns.CachedIfRecent` | ublk/cache/flat_lru.hpp:75-92 | After any finds and updates the textbook's list has a key if and only if it was used and fewer other keys than there are slots were used since; those stand in front of it |
| `LruRuns.CachedIsLastStored` | ublk/cache/flat_lru.hpp:83-92 | And its buffer is what was last stored under it |
| `LruRuns.NothingVanishes` | ublk/cache/flat_lru.hpp:262-286 | What storing a pair takes out of the textbook's list is handed back, and nothing else |
| `LruRuns.Run` | ublk/cache/flat_lru.hpp:75-92 | Both of the cache itself, over any finds and updates from an empty one |
| `FlatLru.ExactIsHas` | ublk/cache/flat_lru.hpp:167-184 | The binary search finds a key exactly if a valid entry has it, and then its buffer |
| `CacheReads.ReadSide.SubmitRead` | ublk/cache/rwi_handler.cpp:31-84 | Every byte of a client read is copied from the cached chunk it is in, or comes with a fetch of that chunk to its place in the buffer; fetches carry the current count of writes, are only of chunks that were not cached, and no chunk is fetched twice; the chunks are used in order |
| `CacheReads.ReadSide.FetchDone` | ublk/cache/rwi_handler.cpp:60-72 | The client gets its part of the chunk, and has heard of an error if and only if it had before or the fetch failed; the cache gains the chunk exactly if it went well and no write was over since, in front, at the cost of at most the oldest pair |
| `RwiHandler.Rwi.SubmitRead` | ublk/cache/rwi_handler.cpp:31-84 | A byte out of the cache is the byte below unless a write that is not over covers it |
| `RwiHandler.Rwi.WriteDone` | ublk/cache/rwi_handler.cpp:95-105 | Completion, well or not, takes the touched chunks out, voids earlier fetches and keeps the cache coherent, whatever the layer below holds by then; the error reaches the client |
| `RwiHandler.Rwi.FetchDone` | ublk/cache/rwi_handler.cpp:60-72 | Filling the cache keeps it coherent whatever writes came and went while the fetch ran; the client hears of an error exactly if the fetch failed |
| `RwiHandler.Rwi.Tear` | ublk/cache/rwi_handler.cpp:107-109 | Whatever a write under way does below, the cache stays coherent |
| `RwiHandler.WriteOver` | ublk/cache/rwi_handler.cpp:98-99 | Invalidating the range and counting the write restores coherence without that write |
| `RwiHandler.TouchedChunks` | ublk/cache/rwi_handler.cpp:90-93 | The invalidated range holds the chunk of every byte of the write |
| `RwiHandler.QuietCacheIsBelow` | ublk/cache/rwi_handler.cpp:31-112 | Whenever the handler has no write outstanding, every cached byte is the byte below |
| `RwiRuns.Do` | ublk/cache/rwi_handler.cpp:31-112 | Every event keeps the cache coherent; what clients have so far of bytes that no write overlapped since they were asked for is what is below; a client hears of an error exactly if a fetch, or a write, of its failed |
| `RwiRuns.Run` | ublk/cache/rwi_handler.cpp:31-112 | In every run of a fresh handler: the cache is coherent; a read that is over, and none of whose fetches failed, has the device's byte at each address that no unfinished write overlapped from submission to completion, hits and misses alike; a read has heard of an error if and only if a fetch of its failed |
| `LoneReads.LoneSubmitted` | ublk/cache/rwi_handler.cpp:31-84 | Bytes of a new read that are on their way, or are what is below, join the undisturbed ones, and the new fetches leave the others alone |
| `LoneReads.LoneDelivered` | ublk/cache/rwi_handler.cpp:60-72 | A completed fetch brings the client the bytes below, whether or not it may still fill the cache, and whatever writes overlap other bytes of it |
| `LoneReads.LoneChanged` | ublk/cache/rwi_handler.cpp:107-109 | Changes below of other addresses, at any time, leave what a read has and awaits of its undisturbed bytes right |
| `LoneReads.AloneGetsBelow` | ublk/cache/rwi_handler.cpp:31-84 | From the invariant to the history: a read that is over and none of whose fetches failed has what is below in each byte that no write covered when it was submitted and no later write does |
| `LoneReads.ToldMore` | ublk/cache/rwi_handler.cpp:60-64 | Event by event, a read has heard of an error if and only if a fetch of its failed before |
| `LoneReads.WholeRead` | ublk/cache/rwi_handler.cpp:31-84 | So a read that no write overlapped anywhere has the whole range |
| `RwtHandler.Rwt.Process` | ublk/cache/rwt_handler.cpp:24-88 | All three branches keep a valid cached chunk equal to the chunk below overlaid with the write now in flight on it; a whole chunk and a change in place are cached at once, first in the list, and only the former voids fetches under way; a part of a chunk that is not cached starts to read the chunk, with nothing below, the cache and the count as they were; a write goes below only with its chunk cached |
| `RwtHandler.Rwt.ReadDone` | ublk/cache/rwt_handler.cpp:53-75 | After the read of a chunk to modify, the cache holds it with the write's bytes, and only then the write goes below; if the read failed the chunk is not cached and the write is over |
| `RwtHandler.Rwt.ChunkOver` | ublk/cache/rwt_handler.cpp:105-127 | Lock passed on to the first waiting write, which goes below only with the chunk cached, or released; no other chunk's write changes, and of other chunks' pairs at most the oldest goes; coherence kept, misses stay apart from writes; after an error the chunk is not cached when the completer returns, whoever got the lock; the request hears of the error |
| `RwtHandler.BelowIsOverlaid` | ublk/cache/rwt_handler.cpp:24-88 | The cached chunk of a write that is below is, as long as the cache is coherent, the chunk below overlaid with the write, byte for byte |
| `RwtHandler.Rwt.AcceptSub` | ublk/cache/rwt_handler.cpp:134-141 | A chunk write whose chunk is locked waits, behind the others; otherwise it starts, and if it goes below its chunk is cached at that moment |
| `RwtHandler.Rwt.StoreDone` | ublk/cache/rwt_handler.cpp:105-127 | A write that is over below, well or not, keeps coherence, and misses apart from writes, if they were |
| `RwtHandler.Rwt.SubmitWrite` | ublk/cache/rwt_handler.cpp:90-144 | The request is cut into one write per chunk, up to the chunk's end or the request's, without gap or overlap; each is accepted once, coherence is kept, and misses stay apart from writes if the client may write: of each chunk it writes the whole, or no miss is under way that may fill the cache |
| `RwtHandler.Rwt.SubmitRead` | ublk/cache/rwi_handler.cpp:31-84 | A byte out of the cache is the byte below overlaid with the write in flight on its chunk; misses stay apart from writes if each chunk the read touches is cached or no write of it runs or waits |
| `RwtHandler.Rwt.FetchDone` | ublk/cache/rwi_handler.cpp:60-72 | Filling the cache keeps coherence as long as no write of the chunk is below; the client hears of an error exactly if the fetch failed |
| `RwtHandler.Rwt.Spoil` | ublk/cache/rwt_handler.cpp:42-47 | From every state where a fetch that may fill the cache overlaps a write of its chunk below, the layer below can bring about an incoherent cache |
| `RwtHandler.IncoherentRun` | ublk/cache/rwt_handler.cpp:42-47 | A run from a fresh handler to an incoherent cache |
| `RwtHandler.LockedIsBusy` | ublk/cache/rwt_handler.cpp:134-138 | A chunk's lock bit is set if and only if a write of it runs or waits |
| `RwtHandler.SeparateIsApart` | ublk/cache/rwt_handler.cpp:42-47 | If no miss that may still fill the cache is of a chunk of which a write runs or waits, no such miss overlaps a write below |
| `RwtHandler.OrderOfService` | ublk/cache/rwt_handler.cpp:107-116 | When a lock is passed on, the writes left for every chunk keep their order if and only if none of those behind the taken one waits for the chunk of the last one |
| `RwtHandler.ThirdOvertakesSecond` | ublk/cache/rwt_handler.cpp:107-116 | Of three writes waiting for one chunk the third is taken second: what the first match and the swap make of such a list |
| `RwtHandler.OvertakingRun` | ublk/cache/rwt_handler.cpp:90-144 | A run of a fresh handler: four client writes of one chunk, in order; when two have ended the fourth has the lock and the third still waits |
| `RwtRuns.Do` | ublk/cache/rwt_handler.cpp:24-144 | Every event, of clients that hold back or of the layer below, keeps the cache coherent and misses apart from writes; of any clients, it keeps the cache coherent from every state where no miss that may fill the cache overlaps a write below; clients hear of an error exactly by an event that fails a fetch or a chunk write of theirs; undisturbed bytes of reads keep being what is below |
| `RwtRuns.Run` | ublk/cache/rwt_handler.cpp:24-144 | So in every run of a fresh handler, whatever the layer below does, the cache is coherent, reads of cached chunks under a write included; a read that is over, and none of whose fetches failed, has the device's byte at each address that no unfinished write overlapped; a read has heard of an error if and only if a fetch of its failed |
| `RwtRuns.ReadSpoils` | ublk/cache/rwi_handler.cpp:60-72 | From every state: a client's miss of a chunk a write of which is below lets the layer below make the cache incoherent |
| `RwtRuns.WriteSpoils` | ublk/cache/rwt_handler.cpp:42-47 | From every state: so does a write that changes a cached chunk in place while a miss of it may still fill the cache |
| `RwtHandler.ChangeKeeps` | ublk/cache/rwt_handler.cpp:81-85 | Changes below, confined to the write in flight, keep coherence while client fetches stay apart |
| `RwtHandler.GoesBelow` | ublk/cache/rwt_handler.cpp:31-48 | When the cache gains a chunk as its write goes below, all other cached chunks stay as expected |
| `RwtHandler.QuietIsIdle` | ublk/cache/rwt_handler.cpp:134-138 | With nothing under way below no chunk lock is held and nothing waits |
| `RwtHandler.QuietServedOnce` | ublk/cache/rwt_handler.cpp:107-119 | Then every accepted chunk write was served as often as it was accepted |
| `RwtHandler.OverIsServed` | ublk/cache/rwt_handler.cpp:104-141 | None of a client write's chunk writes runs or waits if and only if each was served as often as it was accepted |
| `RwtHandler.OverWithLast` | ublk/write_query.hpp:35-42 | When a chunk write is served only its own client write can be over with that, and is exactly if it was the last of its chunk writes |
| `Raid0.ShiftAndMask` | ublk/raid0/backend.cpp:51-52 | For every k, shifting right by k divides by two to the k and masking takes the remainder |
| `Raid0.PlaceIsInjective` | ublk/raid0/backend.cpp:56-62 | No two addresses share a byte of a member |
| `Raid0.PlaceIsOnto` | ublk/raid0/backend.cpp:56-62 | Every byte of every member has an address |
| `Raid0.StripsGoRound` | ublk/raid0/backend.cpp:51-62 | Strips go to the members in turn: address 0 is the first member's first byte, the next byte of a strip the member's next byte, the next strip on the next member at the same row, or after the last member on the first, one row further on |
| `Raid0.Backend.Split` | ublk/raid0/backend.cpp:45-77 | The shift and mask loop submits exactly the pieces that the address map gives, each inside one strip of one member |
| `Raid0.Backend.Write` | ublk/raid0/backend.cpp:45-77 | Over members that are flat byte arrays, a write leaves the flat array overlaid with its bytes |
| `Raid0.Backend.Read` | ublk/raid0/backend.cpp:45-77 | A read gets the flat array's bytes |
| `Raid0.PieceIsInside` | ublk/raid0/backend.cpp:54-74 | A piece holds bytes of the request only, each at its place |
| `Raid0.PieceFor` | ublk/raid0/backend.cpp:54-74 | Every byte of the request is in some piece |
| `Raid0.PiecesTile` | ublk/raid0/backend.cpp:54-74 | The pieces follow each other without gap, and each goes up to the end of its strip or of the request: one for each strip |
| `Interleaving.MemberRun` | ublk/master.cpp:547-563 | In any interleaving of the members' events each member's own events are a run of it |
| `Raid50.StripedLastWrite` | ublk/master.cpp:547-563 | In every run of RAID5 members under any number of striped client writes at a time, also of ones a member refuses half-way: each byte of the array of flat arrays is what one client write says, of those that sent the byte, that was not over when any other client write that sent it, over by now, was submitted; or none is over and it is what the disks held at first |
| `Raid50.StripedReadReturnsLastWrite` | ublk/master.cpp:547-563 | In each byte that no unfinished client write overlaps, a striped client read gets what such a write says, or what the disks held at first, as long as no I/O failed for the byte |
| `Raid50.PieceSays` | ublk/raid0/backend.cpp:54-74 | A member write of a byte is a piece of a client write that holds the byte, and says what that says |
| `Raid50.WriteEvents` | ublk/raid0/backend.cpp:45-77 | The requests of a striped write to its members are its pieces, in order, each with its part of the buffer |
| `Raid50.ReadEvents` | ublk/raid0/backend.cpp:45-77 | The requests of a striped read to its members are its pieces, in order |
| `Raid50.AllSent` | ublk/raid0/backend.cpp:54-77 | A striped write no member refuses a piece of sends every byte it holds |
| `Raid50.IdleMemberHoldsFlat` | ublk/master.cpp:547-563 | An idle online member's flat array is what its disks hold |
| `Ring.RingIsAQueue` | ublk/cfq/pusher.hpp:34-45 | In every interleaving, with old views of the other side, what was popped is a prefix of what was pushed, at most one item less than there are slots is live, and no write hits a live slot |
| `Ring.ItemsGoRound` | ublk/cfq/pusher.hpp:34-45 | What the program on the other side counts on: in every interleaving the tail is the starting slot plus the pushes, the head the starting slot plus the pops, and live item number i is in the starting slot plus i, all modulo the slot count |
| `Ring.StepKeeps` | ublk/cfq/popper.hpp:35-50 | Every single memory access of either side keeps the ring's invariant |
| `Ring.LookKeeps` | ublk/cfq/pusher.hpp:35-37 | The producer finds room exactly if it sees fewer than capacity items live |
| `Ring.WriteIsNotLive` | ublk/cfq/pusher.hpp:39 | The slot about to be written is not live |
| `Ring.Queue.Push` | ublk/cfq/pusher.hpp:34-45 | Appends the item exactly if there is room as far as the producer sees, writing it to the slot at the tail and moving the tail up by one, around |
| `Ring.Queue.Pop` | ublk/cfq/popper.hpp:35-50 | Takes the oldest item exactly if there is one as far as the consumer sees, from the slot at the head, which moves up by one, around |
| `Ring.Queue.constructor` | ublk/cfq/base.hpp:20-33 | A ring of at least two slots starts empty at any slot |
| `Waiting.WithoutMultiset` | ublk/raidsp/acceptor.cpp:379-380 | Swapping with the last and popping takes out exactly one entry |
| `Waiting.OrderKeptIff` | ublk/raidsp/acceptor.cpp:379-380 | For every list and entry taken: of any two entries for one place the earlier still stands first, if and only if no entry strictly between the taken one and the last is for the last one's place |
| `Waiting.QueueKept` | ublk/raidsp/acceptor.cpp:379-380 | Then the queue of every place is what it was, without that entry |

## Left out

- Kernel driver, netlink, user-space I/O mapping, event loop and io_uring (ublk/master.cpp, ublk/slave.cpp, ublk/handler.cpp, sys/): plumbing; a disk is a byte array with nondeterministic completion and error.
- RAID1, null and in-memory targets, command adaptors, shell and benchmarks: short forwarding code.
- Memory pools and allocators (mm/): buffers are values, so a buffer that is reused while still in flight would not show.
- Word-wide and vectorised copying and xor (utils/algo.hpp, utils/math.hpp): modelled byte by byte, so alignment conditions disappear and are not needed.
- Runs where `submit` below an acceptor or a cache returns a value other than 0: see the environment above.
- 64-bit wrap-around: addresses, ages and the count of completed writes are unbounded numbers; a request inside the device cannot overflow them, the count of writes would need 2^64 writes.
- Strip sizes need not be powers of two in the RAID4/5 model, which is more general than the constructor allows.
- Memory ordering of the ring below sequential consistency, beyond old views of the other side's position; positions start below the slot count, which the constructor's check does not quite ensure (ublk/cfq/base.hpp:29-32).
- Acceptor.Target.SubmitWrite: completions are separate calls, so a backend that completes inside `submit` is not covered.
- RwtHandler.Rwt.StoreDone: coherence is stated for states without an overlap of misses and writes below, because it fails from all others. What clients hold back for that is a little more than they must: a miss of a chunk that is not cached together with a write of it that waits, or that still has to read it, whichever came first, does harm only if that read fails and another write of the chunk is then served.
