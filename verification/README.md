# Zigo-DB: a verified model

Zigo-DB is an append log with a Zig engine and a Go front. Writers append messages to one of two memory regions
without a lock; a drain flips which region is active, waits for the old one's writers to leave, counts it and empties
it. The Go side exports a region to a chunk file and an index file, loads them back, and computes hashes, sync answers
and search results from either.

The model proves what the system is for:

* **When an accepted write survives.** Any number of writers and drains run, with the region lookup and the ticket as
  separate steps, so that stale writers are part of every run, and every load and store of the drain's tail (last zero
  load, cursor read, total entries, reset) is a step of its own. In all runs that end outside the tails no accepted
  message is missing if and only if there are no writers, no drains or no slots, and what was accepted is exactly what
  was drained and what the regions hold if and only if there are no writers or no drains. For one drain whose tail
  stale writers get into, the exact condition is proved too: its totals come out right and everything it counted is
  written exactly when no roll-back was pending at its cursor read, nothing was reserved from there to its reset, and
  nothing was unwritten when it stored the total; then no accepted message is lost or counted twice.
* **What holds while nobody gets in.** In runs in which no ticket is taken on a region between its drain's zero load and
  reset and no two such windows overlap, the code refines the protocol whose tail is one step. Conservation, exclusive
  slots, complete drains, counter ranges and what readers see are proved of that protocol and carried back to these
  runs.
* **What holds whatever happens.** In every run the ticket count of a region is the tickets out less those that were
  out when it was last cleared, and its cursor is what was accepted since its reset and is to be rolled back less what
  was to be rolled back at the reset, modulo 2^32. From this follow, over all runs: exactly which fetch-adds are
  refused, exactly when both counters are back at zero, and that a lone drain's spin is bounded and can always end.
* **Exact conditions for the promises, over all runs of the code**: the counters never wrap if and only if there are no
  writers or no drains; two threads never hold one slot if and only if there is at most one writer, no drain or no
  slot; readers always get what was accepted for their index if and only if there are no writers, no slots, or no
  drains and at most one writer or slot; the spin is bounded if and only if there are no writers or at most one drain.
* **The ticket lock** is a lock, is fair, and is both exactly up to as many threads as the counter has values.
* **The chunk and index formats** round-trip, the index is tied to positions in the chunk, cut files are accepted in
  exactly one family of cases, and the two chunk decoders differ on exactly one family of files.
* **The Go object** keeps the abstract append log over every sequence of calls; hashes and sync answers do not depend
  on whether they come from memory or from a reloaded file; search, paging and room search agree.
* **Smaller algorithms** (search-segment allocator, civil dates, the 33-hash) meet their exact specifications.

Modules, from the engine outwards: `Base` (machine integers), `Entry` (log entries and their stores);
`LockerWriter` (the protocol as a step relation), `LockerInvariant` (its invariant), `LockerTheorems` (safety),
`LockerDrift` (both counters in every run), `LockerProgress` (the spin), `LockerWindow` (refinement), `LockerCode` (the
guarantees at the grain of the code);
`Engine` (the same operations on objects, one call at a time), `LockerSolo` (object and protocol agree); `LockerLoss`
(the losing run and when the totals are right), `LockerMessages` (when the messages survive a drain), `LockerFate`
(which databases never lose one), `LockerWrap` (counters that wrap and when they return to zero), `LockerSharing` (which
databases never share a slot or mislead a reader);
`TicketLock`, `SearchPool`, `CivilDate`; `LittleEndian`, `Chunk`, `ChunkTheorems`, `Index`, `Layout` (files and memory
images); `StateHash`, `Sync`, `HashData`, `TextSearch`, `MessageLog` (what is computed from entries); `Bridge` (the Go
object with its methods) and `BridgeRuns` (whole runs of it).

Capacities (`max_slots`, segments per pool, threads, the ticket counter's range) are parameters. Counters of 32 bits
wrap explicitly; the theorems that exclude wrapping say so.

Findings, each a lemma below:

* A stale writer that enters between the drain's cursor read and its reset loses its message although its write
  returned success (`StaleWriterIsLost`).
* A stale writer that reserves before the cursor read and writes after the total is stored is counted and lost all the
  same: the drain hands over what the slot held before (`CountedAndLost`).
* A full region of any size makes a message up: a fetch-add not yet rolled back is counted and drained as one entry
  more than the region has (`PhantomIsDrained`).
* A stale writer that overflows before the reset and rolls back after it leaves, with everybody at rest, the cursor at
  2^32 - 1 and the ticket count at -1 (`StaleRollBackWraps`). From then on that region refuses writes that come one by
  one, and a drain of it alone adds 2^32 - 1 to the total (`JammedRegionRefuses`); but of two writes that overlap both
  are handed slot 0 (`JammedRegionSharesSlot`).
* A reservation that outlives the reset shares its slot with the next one (`StaleSlotIsShared`), and a commit that
  outlives it lets readers through to the old message in a slot that belongs to a new one
  (`StaleCommitShowsOldMessage`).
* Two drains that load the bit together flip it once and wait for the same region (`TwoDrainsFlipOnce`); two that load
  the total together add only one of their counts (`TwoDrainsCountOnce`).
* With a second drain the spin of the first is not bounded by the writers that were there when the bit was flipped
  (`SecondDrainerBreaksBound`).
* A reader can be let through to a slot that is still blank, since commits count and do not order
  (`OverlappingWritersExposeBlankSlot`).
* A reservation can fail while search segments are free, at most one in each word; with all segments in use, releasing
  one and asking again fails (`FailsExactlyWhenBarred`, `FailureMeansNearlyFull`, `ReleasedSegmentIsBarred`).
* `MmapChunk` refuses what `LoadChunk` accepts when the last record has no payload (`DecodersDifferExactlyWhen`), and
  both accept a file cut inside its last payload, filling it with zeros (`CutChunkLoadsExactlyWhen`).
* `ReadLastFromRoom` never returns for a room without messages in a log that has some, because its unsigned counter
  wraps; its last error return cannot be reached (`ScanStopsExactlyWhen`).
* The write path stamps no uuid, time or hash into entries, so the state hash of a live region is always zero, and
  `HandleSync` tells peers nothing unless they ask for what came after a negative time
  (`WrittenEntriesAreInvisibleToPeers`).
* A load that fails after its count was read has already replaced the loaded entries, and leaves the loaded flag as it
  was (`Bridge.ZigoDB.ParseChunk`).

Where code and comments disagree the model follows the code: `MessageEntrySize` (bridge.go:42) says 1072 bytes, the
packed fields take 1068; the comment on index records (bridge.go:636) lists five fields, six are written.

## Model

| member | source | states |
|---|---|---|
| LockerTheorems.NothingLost | db/zigo_db.zig:95-122 | with the drain's tail as one step, after every run of writers and drains: accepted messages = drained messages + those in each region, and successful reservations = total entries + slots claimed in A and B |
| LockerTheorems.SlotsAreExclusive | db/zigo_db.zig:300-307 | with the drain's tail as one step, between resets: the successful writers hold exactly slots 0..n-1 once each, n at most the capacity, so that threads with slots on one side have different ones; the cursor exceeds n by the pending roll-backs, and only when the region is full |
| LockerTheorems.DrainFindsEverything | db/zigo_db.zig:107-119 | with the drain's tail as one step, whenever a region has no active writers: cursor = commits = claims, all of them filled, and its entries are as a multiset the messages accepted since the last reset, cut to the limit |
| LockerTheorems.CountersStayInRange | db/types.zig:73-75 | with the drain's tail as one step and fewer than 2^31 slots and threads, no counter wraps: active writers at most the threads, cursor at most slots plus threads |
| LockerTheorems.ReadersSee | db/zigo_db.zig:331-361 | with the drain's tail as one step: commits never exceed claims; an index a reader is let through to is written exactly when no thread still has that slot in hand, and then its entry in memory reads as the message its claim accepted; unwritten ones number at most the threads between reserve and copy |
| LockerTheorems.SerialReadersAreSafe | db/zigo_db.zig:352-361 | with the drain's tail as one step: if writers do not overlap, every index a reader is let through to is the complete entry of the write that claimed it |
| LockerTheorems.OneWriterAtATimeMeans | db/zigo_db.zig:294-323 | writers do not overlap in a run if and only if they do not in any of its states |
| LockerTheorems.OneTicketMeans | db/zigo_db.zig:294-323 | and in a state if and only if no two threads on one side are past their tickets |
| LockerTheorems.OverlappingWritersExposeBlankSlot | db/zigo_db.zig:316-317 | with two or more writers and slots, a run in which index 0 is readable while still blank: the unconditional prefix claim is false |
| LockerTheorems.ReadersAreSafeExactlyWhen | db/zigo_db.zig:352-361 | with the drain's tail as one step, every index let through, in every run, reads from memory as its accepted message if and only if there is at most one writer or at most one slot; the same for being written at all |
| LockerInvariant.StepKeeps | db/zigo_db.zig:292-324 | every step of every writer and every drain, with the drain's tail as one step, keeps the protocol invariant |
| LockerInvariant.InitialFits | db/types.zig:129-139 | a new database satisfies the protocol invariant |
| LockerDrift.CountersAre | db/types.zig:104-108 | in every run at either grain, at every moment: ticket count = tickets out less those out when it was last cleared; cursor = accepted since its reset + to be rolled back less what was to be rolled back at the reset, modulo 2^32; each owed number at most the threads |
| LockerDrift.RefusedExactlyWhen | db/zigo_db.zig:299-306 | in every run, a fetch-add is refused if and only if acceptances since the reset plus pending roll-backs are fewer than the roll-backs owed, or at least those plus the slots |
| LockerProgress.StepBringsCloser | db/zigo_db.zig:292-324 | with no look-up of the old side possible, the summed steps left of the threads on it fall with each of their steps and never grow |
| LockerProgress.SpinEnds | db/zigo_db.zig:105-113 | after any run at either grain, stale writers included: once the only drain has flipped the bit, however the writers run, steps taken on the old side plus tickets still counted never exceed six for each thread that was there, while a ticket is counted some thread there can step, and once all those steps are taken the drain sees zero |
| LockerProgress.SpinCanEnd | db/zigo_db.zig:105-113 | from every such state a run of writers within that bound brings everybody off the old side and lets the drain go on, with the ticket count at minus what an earlier reset left owed |
| LockerProgress.SecondDrainerBreaksBound | db/zigo_db.zig:99-107 | with two drains and a writer, a run in which the second drain has flipped the bit back and the writer takes a ticket on the side the first one waits for: the bound is exceeded |
| LockerProgress.SpinIsBoundedExactlyWhen | db/zigo_db.zig:99-113 | the bound holds for every spinning drain in every run of the code, stale writers included, if and only if there are no writers or at most one drain |
| LockerProgress.TwoDrainsFlipOnce | db/zigo_db.zig:96-102 | two drains that both load the bit before either stores it wait for the same region, and the bit has flipped once |
| LockerProgress.TwoDrainsCountOnce | db/zigo_db.zig:116-117 | two drains that both load the total before either stores it add only what the later one found, though both hand over their entries |
| LockerWindow.StepRefines | db/zigo_db.zig:95-122 | each single load or store of the drain's tail, inside the window condition, is matched by an atomic-tail step or by nothing |
| LockerWindow.CodeRefinesAtomicDrains | db/zigo_db.zig:95-122 | every run of the fine-grained code in which no ticket is taken on the old region and no other tail overlaps between zero load and reset has a matching run with atomic drains |
| LockerWindow.CodeLosesNothing | db/zigo_db.zig:95-122 | so whenever no drain is in its tail in such a run, nothing was lost or counted twice |
| LockerWindow.WindowsAre | db/zigo_db.zig:107-119 | a run respects the windows if and only if each of its steps does in the state it is taken in |
| LockerWindow.WindowIs | db/zigo_db.zig:107-119 | a step does if and only if it passes no zero load while another drain is past its own and not at rest again, and takes no ticket on the side of a drain that is |
| LockerCode.CodeDrainFindsEverything | db/zigo_db.zig:115-119 | in such runs, while a drain is in its tail nobody is in its region, which up to the reset holds everything accepted there, slot by slot, written, committed and counted by its cursor |
| LockerCode.CodeSideIsReached | db/zigo_db.zig:95-122 | in such runs every region whose drain is not in its tail is as in the matching run with atomic drains, writers and sizes included |
| LockerCode.CodeSlotsAreExclusive | db/zigo_db.zig:300-307 | in such runs no two threads ever hold the same slot, and outside the region's own tail the slots handed out are 0..n-1, with the cursor ahead by the pending roll-backs |
| LockerCode.CodeCountersStayInRange | db/types.zig:73-75 | in such runs no counter of either region wraps, inside tails and outside |
| LockerCode.CodeReadersSee | db/zigo_db.zig:331-361 | in such runs, up to the reset of a region's drain, its readers get what `ReadersSee` says |
| LockerCode.CodeReadersAreSafeExactlyWhen | db/zigo_db.zig:352-361 | over all such runs, outside the reset of a region's drain, its readers always read the accepted message if and only if there is at most one writer or at most one slot |
| LockerLoss.StaleWriterIsLost | db/zigo_db.zig:107-119 | with a writer, a drain and a slot, a run of the code: the write was accepted and has returned, every thread rests, and the message is in no drain and no region, counted nowhere, with both commit counters zero |
| LockerLoss.TotalsAreRightExactlyWhen | db/zigo_db.zig:115-119 | after a run that respects the windows, over one drain's tail with stale writers let in, the totals are right after the reset if and only if no roll-back was pending at the cursor read and nothing was reserved there between read and reset |
| LockerMessages.MessagesSurviveExactlyWhen | db/zigo_db.zig:115-119 | after a run that respects the windows, over one drain's tail with stale writers let in: totals right and everything counted written if and only if no roll-back was pending at the cursor read, nothing reserved from there to the reset and nothing unwritten at the store of the total, and then accepted messages = drained + those in each region; and in every case the messages agree if and only if the drain found what was accepted by the reset |
| LockerMessages.StaleRunMiscounts | db/zigo_db.zig:115-119 | the losing run is such a tail, its totals come out wrong and its message is missing |
| LockerMessages.CountedAndLost | db/zigo_db.zig:115-119 | a run with nothing rolled back and nothing reserved in between whose totals come out right, and whose drain finds at the store of the total the old content of the blank slot and loses the accepted message |
| LockerFate.NoneGoesMissingExactlyWhen | db/zigo_db.zig:95-122 | in every run of the code that ends outside all tails no accepted message is missing from drains and regions, if and only if there are no writers, no drains or no slots |
| LockerFate.MessagesAreConservedExactlyWhen | db/zigo_db.zig:95-122 | in all of them accepted messages = drained + those in each region, if and only if there are no writers or no drains |
| LockerFate.PhantomIsDrained | db/zigo_db.zig:303-304 | for a region of any size, a run that accepts as many messages as there are slots and whose one drain counts and hands over one more than its region has entries |
| LockerWrap.StaleRollBackWraps | db/zigo_db.zig:303-307 | for a region of any size, a run of the code after which every thread rests with that region's cursor at 2^32 - 1 and its ticket count at -1, one roll-back and one ticket owed |
| LockerWrap.JammedRegionRefuses | db/zigo_db.zig:303-307 | once active again such a region refuses a write that nobody overlaps and stays as it is, and a drain that nobody overlaps adds 2^32 - 1 to the total entries |
| LockerWrap.JammedRegionSharesSlot | db/zigo_db.zig:299-306 | with two idle writers, a run from the jammed region in which the first write wraps the cursor and rolls back, and then both hold slot 0 |
| LockerWrap.JammedRefusesExactlyWhen | db/zigo_db.zig:299-306 | until its next reset the jammed region refuses a fetch-add if and only if acceptances and pending roll-backs there number zero or more than the slots |
| LockerWrap.CountersReturnExactlyWhen | db/types.zig:104-108 | in every run, once no thread has a ticket on the side: the ticket count is minus the tickets out when it was last cleared, the cursor is what was accepted since its reset less the roll-backs pending then, modulo 2^32, so both are zero if and only if no ticket was out and as many slots were reserved as roll-backs were pending |
| LockerWrap.CountersStayInRangeExactlyWhen | db/types.zig:73-75 | cursors and ticket counts stay in range in every run of the code if and only if there are no writers or no drains |
| LockerSharing.StaleSlotIsShared | db/zigo_db.zig:299-306 | with two writers, a drain and a slot, a run of the code in which a slot reserved before the reset is handed out again after it |
| LockerSharing.SlotsAreExclusiveExactlyWhen | db/zigo_db.zig:299-306 | in every run of the code no two threads hold one slot, if and only if there is at most one writer, no drain or no slot |
| LockerSharing.StaleCommitShowsOldMessage | db/zigo_db.zig:331-361 | with one writer, one drain and one slot, a run of the code after which readers of the active region are let through to index 0 and read the old message although the slot was accepted for a new one |
| LockerSharing.ReadersGetAcceptedExactlyWhen | db/zigo_db.zig:331-361 | in every run of the code every index let through, on either side and at any moment, reads as the message accepted for it, if and only if there are no writers, no slots, or no drains and at most one writer or slot; the same for the active region with every drain at rest |
| LockerSolo.WriteAlone | db/zigo_db.zig:292-324 | the protocol steps of one undisturbed write change the region exactly as the engine object's write does |
| LockerSolo.RefusedAlone | db/zigo_db.zig:303-307 | and those of a write refused by a full region change nothing |
| LockerSolo.DrainAlone | db/zigo_db.zig:95-122 | the fine-grained steps of one undisturbed drain amount to the atomic drain |
| Entry.KeptIsPrefixOfLimit | db/zigo_db.zig:313-314 | a payload under 4 GiB is kept as its first 992 bytes, or whole when it is no longer, in its room |
| Entry.KeptOfHuge | db/zigo_db.zig:313-314 | of a longer payload the length modulo 2^32 counts, cut to 992 in turn |
| Entry.FilledEntryReads | db/zigo_db.zig:310-314 | header store and payload copy make an entry read back as the kept message, whatever it held before |
| Entry.FilledEntryKeepsRest | db/zigo_db.zig:310-314 | a write sets the time to zero and leaves uuid, both hashes, checksum and the bytes behind the payload as they were |
| Entry.BlankIsZero | db/types.zig:86-88 | a region starts over entries whose fields and 1024 bytes are all zero |
| Base.CountersWrap | db/zigo_db.zig:297-307 | the atomic steps on the counters add or take one modulo 2^32, the signed one within its 32 bits |
| Engine.Region.constructor | db/types.zig:80-94 | a region starts empty over blank entries |
| Engine.Region.Reset | db/types.zig:104-108 | all three counters become zero |
| Engine.ZigoDB.constructor | db/types.zig:129-139 | two empty regions, totals zero |
| Engine.ZigoDB.WriteRaw | db/zigo_db.zig:292-324 | appends the cut message and returns 0, or returns -1 and changes nothing when the region is full |
| Engine.ZigoDB.SwitchAndDrain | db/zigo_db.zig:95-122 | the old log is counted into the total and the result, its entries stay readable, the log becomes empty on the other side |
| Engine.ZigoDB.EntriesAreTheLog | db/zigo_db.zig:331-361 | the reported count is the log's length, every index below it reads as that message, every other index as nothing |
| TicketLock.WriteLock.AcquireTicket | db/types.zig:184-186 | hands out the ticket, advances it by one modulo 2^32 and leaves the serving number |
| TicketLock.WriteLock.IsMyTurn | db/types.zig:188-190 | one round of the wait loop's test |
| TicketLock.WriteLock.Release | db/types.zig:194-196 | advances the serving number by one modulo 2^32 and leaves the ticket |
| TicketLock.MutualExclusion | db/types.zig:176-197 | in every run of at most w threads over counters modulo w, at most one thread is inside |
| TicketLock.FirstComeFirstServed | db/types.zig:184-192 | threads enter in the order in which they took tickets and nobody is skipped |
| TicketLock.NeverStuck | db/types.zig:188-196 | when anyone waits or is inside, the one whose turn it is can move |
| TicketLock.EveryWaiterIsReached | db/types.zig:188-196 | a waiter's distance, ticket minus serving modulo w, is its place in the queue, falls by one at each release and by nothing else, and its turn comes exactly after that many releases |
| TicketLock.TooManyThreads | db/types.zig:180-181 | with more threads than counter values a run puts two inside |
| TicketLock.ExcludesExactlyUpToWrap | db/types.zig:176-197 | mutual exclusion holds for n threads if and only if n is at most the number of counter values |
| SearchPool.SegmentPool.constructor | db/types.zig:274-282 | no bit set and no segment in use |
| SearchPool.SegmentPool.TryTake | db/zigo_db.zig:225-236 | one round of the scan: exchanges the word and takes the segment exactly when its old bit was clear; otherwise the word already was that bit alone and the pool is unchanged |
| SearchPool.SegmentPool.Reserve | db/zigo_db.zig:223-239 | takes the first segment that is neither in use nor barred by its bit and leaves all others alone, or fails and leaves the whole pool unchanged |
| SearchPool.SegmentPool.Release | db/zigo_db.zig:241-248 | clears the flag and exchanges the word for that one bit; out-of-range ids change nothing |
| SearchPool.EverySessionIsConsistent | db/zigo_db.zig:223-248 | after any sequence of sequential calls every word has at most one bit, live handles are pairwise distinct and are exactly the segments in use |
| SearchPool.ReserveTakesOne | db/zigo_db.zig:223-239 | a reserve takes the first segment that is free and not barred by its word, overwrites its front with the data and makes its bit the whole word, returns a handle that was not live, and changes nothing else; a failed one changes nothing |
| SearchPool.ReleaseTakesOne | db/zigo_db.zig:241-248 | a release clears the flag of its segment, keeps its bytes, makes its bit the whole word and changes nothing else; an identifier beyond the pool changes nothing |
| SearchPool.MasksAre | db/zigo_db.zig:226-231 | the masks are 1, 2, 4 and so on up to 2^63, one for each segment of a word |
| SearchPool.FailsExactlyWhenBarred | db/zigo_db.zig:223-239 | a reserve fails if and only if every segment is in use or is the one whose bit its word holds |
| SearchPool.FailureMeansNearlyFull | db/zigo_db.zig:223-239 | so after a failure each word has at most one free segment |
| SearchPool.ReleasedSegmentIsBarred | db/zigo_db.zig:241-248 | with every segment in use, releasing any one of them and reserving again fails |
| CivilDate.FromTimestamp | db/zigo_db.zig:179-209 | the loops end for every timestamp, in a valid date exactly when it is not negative, and then in the one valid date and time whose seconds since 1970-01-01 are the timestamp's |
| CivilDate.OrderIsPreserved | db/zigo_db.zig:205-211 | valid date tuples compare exactly as their seconds do |
| CivilDate.DaysAreCounted | db/zigo_db.zig:179-209 | day zero is the first of January 1970, and each next day of the calendar is a valid date with the next number |
| CivilDate.LongMonthsAlternate | db/zigo_db.zig:192-202 | months of 31 and 30 days alternate, from January and again from August |
| LittleEndian.DecodeEncoded | bridge.go:575-581 | decoding a fixed-width encoding gives back every number that fits the width |
| LittleEndian.EncodeDecoded | bridge.go:713-733 | encoding a decoded word gives the bytes back |
| LittleEndian.ByteWeight | bridge.go:575-581 | byte i of an encoding is the digit of weight 256^i, lowest first |
| LittleEndian.SignedByteWeight | bridge.go:577 | byte i of a signed 64-bit field is the digit of weight 256^i of the value itself, negative values included |
| LittleEndian.TwosComplement | bridge.go:721 | signed and unsigned reading of a 64-bit field agree modulo 2^64 and stay in their ranges |
| Layout.PointerReads | bridge.go:566-572 | the offsets 0, 4, 12, 20, 28, 36, 40 and 44 of the packed 1068-byte memory image read the eight fields, and the entry copied out of it has the same values field by field |
| Chunk.PreambleSlices | bridge.go:537-545 | magic, version and count stand at bytes 0, 4 and 8, the records from byte 12 |
| Chunk.HeaderSlices | bridge.go:575-581 | the seven fields of a record stand at 0, 4, 12, 20, 28, 36 and 40 in this order, little-endian |
| Chunk.HeaderBytes | bridge.go:575-581 | each byte of a record's seven fields is its base-256 digit of the field's value, of negative timestamps too |
| Chunk.ChunkFileStarts | bridge.go:537-545 | byte by byte, a chunk file starts with the letters ZIGO, version 1 and the count, all little-endian, and goes on with the records |
| Chunk.TakenRecordIs | bridge.go:713-742 | with either reader, the fields of a record that was read are the little-endian numbers at their offsets, the timestamp modulo 2^64, and its data the bytes from 44 on, zeros where the input ends |
| Chunk.ChunkRoundTrip | bridge.go:681-748 | decoding an exported chunk followed by any bytes gives exactly the entries; with `MmapChunk`'s reader too unless the file ends in an empty record |
| ChunkTheorems.AcceptedFileIsEncoding | bridge.go:688-747 | conversely a file that loads is an encoding of what was loaded, any version and any trailing bytes, lacking at most a part of the last payload |
| ChunkTheorems.CutChunkLoadsExactlyWhen | bridge.go:688-747 | a strict prefix of an exported chunk loads if and only if the missing bytes are fewer than the last payload's, and then with zeros in their place; the format error comes exactly for one to three bytes |
| ChunkTheorems.DecodersDifferExactlyWhen | bridge.go:840-902 | on every byte string the memory-mapped decoder accepts if and only if the file decoder does and the file does not end exactly behind an empty last record, and then the results are equal |
| Index.IndexRoundTrip | bridge.go:751-808 | decoding an exported index followed by any bytes gives the index entries with their running offsets |
| Index.IndexLoadsExactlyWhen | bridge.go:751-808 | an index file loads if and only if it has the magic and 40 bytes for each record it counts |
| Index.IndexSlices | bridge.go:637-642 | offset, uuid, timestamp, room, length and previous hash of an index record stand at 0, 8, 16, 24, 28 and 32 |
| Index.IndexBytes | bridge.go:637-642 | each byte of an index record is its base-256 digit of the field's value, of negative timestamps too |
| Index.IndexFileStarts | bridge.go:609-617 | byte by byte, an index file starts with the letters ZIDX, version 1 and the count, all little-endian |
| Index.LoadedIndexIs | bridge.go:775-805 | the fields of an index record that was read are the little-endian numbers at their offsets, the timestamp modulo 2^64 |
| Index.OffsetFits | bridge.go:645 | the running 64-bit offset never wraps |
| Index.IndexFindsRecord | bridge.go:619-646 | one record decoded at chunk byte 12 + offset + 4 i is entry i, followed by the rest of the file, and index entry i agrees with it on uuid, timestamp, room and length |
| StateHash.XorBits | bridge.go:1307-1308 | exclusive or, bit by bit |
| StateHash.HashCountsOnes | bridge.go:1290-1319 | bit i of the hash is one if and only if an odd number of uuids and timestamps have a one there |
| StateHash.HashOfOne | bridge.go:1304-1308 | for a single entry that is its uuid and its timestamp, negative ones in two's complement |
| StateHash.HashSplitsOverConcatenation | bridge.go:1290-1319 | the hash of a concatenation is the exclusive or of the hashes |
| StateHash.HashIgnoresOrder | bridge.go:1290-1319 | permuted entries have the same hash |
| StateHash.TwiceIsNever | bridge.go:1290-1319 | a duplicated entry cancels itself |
| Sync.AnswerMeans | bridge.go:1343-1403 | a response holds the newer entries in order; its timestamp is the newest of them or zero, and its hash the previous hash of the first entry with this timestamp, or zero |
| Sync.NewerHolds | bridge.go:1350-1352 | an entry is in the response if and only if it is present and newer than the request |
| Sync.NewerSnoc | bridge.go:1346-1358 | one more entry at the end adds itself at the end of the newer ones, if it is newer |
| Sync.AskingAgainBringsNothingExactlyWhen | bridge.go:1343-1403 | asking again with the response's timestamp brings nothing if and only if the response was not empty or no entry is later than zero |
| HashData.HashData | bridge.go:1494-1500 | the loop computes the fold over all bytes modulo 2^64, in closed form 5381 times 33^n plus the bytes as base-33 digits |
| HashData.FoldIsPolynomial | bridge.go:1494-1500 | closed form: start times 33^n plus the bytes as base-33 digits, modulo 2^64 |
| HashData.CollisionsAreContextFree | bridge.go:1494-1500 | replacing a stretch by one of equal length keeps the hash if and only if the stretches collide on their own, whatever stands around them |
| HashData.ChangedByteShows | bridge.go:1494-1500 | a changed byte always changes the hash |
| HashData.ChangedPairShowsExactlyWhen | bridge.go:1494-1500 | two changed adjacent bytes go unseen exactly when the first trades 33 of the second |
| HashData.SwappedPairShows | bridge.go:1494-1500 | swapping two adjacent unequal bytes always changes the hash |
| TextSearch.FirstIndexIs | bridge.go:1120-1123 | an index is found if and only if there is an occurrence, and it is the first |
| TextSearch.AgreesExactlyWhen | bridge.go:1034-1042 | lower-cased text holds the lower-cased query at a place if and only if the bytes there are the same or the two cases of one letter |
| TextSearch.StretchAgrees | bridge.go:1034-1042 | whatever stands before and behind that place |
| TextSearch.SameLetterMeans | bridge.go:1034-1042 | the letters with two cases are the 26 of the alphabet |
| TextSearch.SnippetHoldsFirstMatch | bridge.go:1119-1144 | with ASCII letter case, a snippet contains the whole first match as it stands in the text, and is at most as long as the query, twice the context and two times three dots |
| TextSearch.SnippetShowsContext | bridge.go:1125-1143 | with ASCII letter case, a snippet shows the context length on either side of the first match, or all there is, with dots exactly where text was left out |
| TextSearch.SnippetWithoutMatch | bridge.go:1120-1123 | text without a match, ASCII letter case aside, is its own snippet |
| TextSearch.MatchesExactlyWhen | bridge.go:1037-1042 | an entry matches if and only if its text is not empty and contains the query, ASCII letter case aside |
| TextSearch.HitsAreTheMatches | bridge.go:1024-1057 | an entry has a result if and only if it has data and some stretch of it is the query, ASCII letter case aside; results come in increasing order, each with its entry's room, time and snippet of 50 bytes of context |
| TextSearch.RoomSearchIsFilter | bridge.go:1087-1116 | the room search finds exactly the full search's results of that room, in increasing order |
| TextSearch.PageIs | bridge.go:1060-1084 | a page is that size of results from its place, fewer at the end and none behind it; sizes below one count as 10 and pages below one as the first |
| TextSearch.PagesConcatenate | bridge.go:1060-1084 | the first n pages are the first n page sizes of the results, 10 for sizes below one, without gap or overlap, and enough pages give all of them |
| MessageLog.LastInRoomIs | bridge.go:432-452 | the room's last message is a payload of that room that is not empty, with no such message behind it, and exists if and only if the room has one |
| MessageLog.ScanStopsExactlyWhen | bridge.go:433-454 | the downward scan of a non-empty log ever comes to a message of the room if and only if the log has one |
| MessageLog.CounterIs | bridge.go:433 | the counter of that scan is, after k rounds, the last index less k modulo 2^32 |
| Bridge.ReadPreamble | bridge.go:688-708 | magic by a plain read, version and count by all-or-nothing reads; short magic is filled with zeros and refused |
| Bridge.ReadHeader | bridge.go:713-733 | seven all-or-nothing reads get a record's fields if and only if 44 bytes remain |
| Bridge.ReadRecord | bridge.go:713-742 | one record, with the plain read's short-read and end-of-input behaviour for its payload |
| Bridge.ReadRecords | bridge.go:710-743 | the record loop computes the decoder function, partial entries of a failed load included |
| Bridge.ReadIndexRecords | bridge.go:775-805 | the index loop computes the index decoder function |
| Bridge.ReadPayload | bridge.go:412-422 | the payload behind an entry pointer, or nothing when its length is zero |
| Bridge.ChunkRecord | bridge.go:566-587 | what is written for one entry is its record of the format |
| Bridge.RecordForIndex | bridge.go:629-645 | what is written for one index entry, and the next offset modulo 2^64 |
| Bridge.HashEntry | bridge.go:1302-1308 | one round of the hash loop through an entry pointer |
| Bridge.CounterAfterIs | bridge.go:395 | n accepted writes move the 64-bit counter on by n, modulo 2^64 |
| Bridge.ZigoDB.constructor | bridge.go:332-336 | nothing loaded, counter zero, not shutting down |
| Bridge.ZigoDB.LiveIsLog | bridge.go:556-572 | what the Go side reads through entry pointers is exactly the engine's log |
| Bridge.ZigoDB.WriteToRoom | bridge.go:373-399 | appends the cut message, moves the counter on by one, from 2^64 - 1 to 0, and returns it; or refuses when shutting down, whatever the data, or full, and changes nothing |
| Bridge.ZigoDB.TriggerDrain | bridge.go:508-514 | empties the log into the total |
| Bridge.ZigoDB.ReadLast | bridge.go:400-423 | the last payload of the log, nothing when there is none |
| Bridge.ZigoDB.ReadLastFromRoom | bridge.go:426-455 | the payload of the last entry of the room that is not empty; an error for an empty log |
| Bridge.ZigoDB.ExportChunk | bridge.go:522-591 | the chunk file of the live entries, an error when there are none |
| Bridge.ZigoDB.ExportIndex | bridge.go:594-649 | the index file of the live entries, an error when there are none |
| Bridge.ZigoDB.ParseChunk | bridge.go:688-747 | result, loaded entries and flag are the decoder's on every byte string, success or failure |
| Bridge.ZigoDB.LoadChunk | bridge.go:681-748 | the decoder over an `os.File` |
| Bridge.ZigoDB.MmapChunk | bridge.go:840-905 | the decoder over a `bytes.Reader` |
| Bridge.ZigoDB.LoadIndex | bridge.go:751-808 | result and loaded index entries are the index decoder's on every byte string |
| Bridge.ZigoDB.ComputeStateHash | bridge.go:1290-1319 | the hash of the loaded entries if a chunk is loaded, of the live ones otherwise |
| Bridge.ZigoDB.HandleSync | bridge.go:1343-1403 | the answer over the loaded entries if a chunk is loaded, over the live ones otherwise: an entry is in it if and only if it is there and newer than the request |
| Bridge.ZigoDB.ApplySync | bridge.go:1406-1415 | a peer's entries are appended to room zero, in order and cut, until the region is full, and the counter moves on by as many; no error if and only if all fitted; shutting down, nothing is appended |
| Bridge.ZigoDB.Search | bridge.go:1024-1057 | the error for no chunk or an empty query, and otherwise, for ASCII query and entries, the matches |
| Bridge.ZigoDB.SearchPaged | bridge.go:1060-1084 | the same errors, and otherwise, for ASCII query and entries, the asked page of the matches, bad page numbers and sizes replaced |
| Bridge.ZigoDB.SearchInRoom | bridge.go:1087-1116 | the error for no chunk, and otherwise, for ASCII query and entries, the room's matches; an empty query is no error here |
| BridgeRuns.New | bridge.go:326-340 | a new object meets everything the runs below start from |
| BridgeRuns.Replay | bridge.go:373-399 | after any sequence of non-empty writes and drains the log is the messages since the last drain, as many as fit, and the total is the sum of what the drains found; accepted write number n has returned the starting counter plus n modulo 2^64, so that up to 2^64 of them are distinct |
| BridgeRuns.WrittenEntriesAreInvisibleToPeers | db/zigo_db.zig:310-314 | over entries of the write path the live hash is zero and sync answers are empty for every request from time zero on |
| BridgeRuns.Reload | bridge.go:681-748 | exporting and loading back, any bytes behind the export, leaves the live entries as they are and loads exactly them |
| BridgeRuns.ReloadAnswersAlike | bridge.go:1290-1403 | state hash and the answer to any sync request are the same before the export and after the reload |
| BridgeRuns.AnswersStayTheFiles | bridge.go:1290-1403 | once a file is loaded, hash and sync answers are those of its entries, whatever is written and drained afterwards |

## Left out

- Weak memory: every atomic operation is one sequentially consistent step; the orderings in the Zig source are not modelled.
- All protocol theorems assume fewer than 2^31 slots and fewer than 2^31 - 1 threads, since beyond them the 32-bit counters wrap.
- LockerTheorems.NothingLost: takes the drain's tail as one step, which the code does not; see `CodeLosesNothing`, `MessagesSurviveExactlyWhen`, `NoneGoesMissingExactlyWhen` and `MessagesAreConservedExactlyWhen` for the code's own steps.
- LockerTheorems.SlotsAreExclusive: takes the drain's tail as one step; see `CodeSlotsAreExclusive` and `SlotsAreExclusiveExactlyWhen`.
- LockerTheorems.DrainFindsEverything: takes the drain's tail as one step; see `CodeDrainFindsEverything`.
- LockerTheorems.CountersStayInRange: takes the drain's tail as one step; see `CodeCountersStayInRange`, `CountersAre` and `CountersStayInRangeExactlyWhen`.
- LockerTheorems.ReadersSee: takes the drain's tail as one step and speaks of threads a reader cannot see; see `CodeReadersSee` and `ReadersGetAcceptedExactlyWhen`.
- LockerTheorems.SerialReadersAreSafe: takes the drain's tail as one step; see `ReadersGetAcceptedExactlyWhen`.
- LockerTheorems.ReadersAreSafeExactlyWhen: takes the drain's tail as one step; see `ReadersGetAcceptedExactlyWhen`.
- LockerCode.CodeSlotsAreExclusive: is for runs that respect the windows; see `SlotsAreExclusiveExactlyWhen` for all others.
- LockerInvariant.StepKeeps: takes the drain's tail as one step; see `StepRefines`.
- TicketLock.WriteLock.IsMyTurn: is one round of `waitForTurn`; that the loop ends is a statement about other threads, see `EveryWaiterIsReached`.
- LockerProgress.SpinEnds: is for a single drain; the bound is false with two (`SpinIsBoundedExactlyWhen`).
- LockerCode.CodeReadersSee: and `CodeReadersAreSafeExactlyWhen` leave out the reset, from the store of the cursor to that of the commits, when the slots are given back and the commit counter is still up, and runs with a ticket taken inside a window; see `ReadersGetAcceptedExactlyWhen`.
- LockerMessages.MessagesSurviveExactlyWhen: follows one drain's tail after a run that respects the windows, with no other drain in its own; overlapping tails are covered by `NoneGoesMissingExactlyWhen` and `MessagesAreConservedExactlyWhen`.
- LockerMessages.CountedAndLost: and all that is said of drained messages takes what a drain hands over to be the entries at the store of its total; the source returns a pointer to the region (db/zigo_db.zig:121), so that a consumer sees what is there when it reads, after the reset.
- The update of the drain count (db/zigo_db.zig:118) is one step; that two drains can lose a count is not modelled.
- Bridge.ZigoDB.ReadLastFromRoom: requires a message of the room in a non-empty log, because the code does not return otherwise (`ScanStopsExactlyWhen`).
- Bridge.ZigoDB.WriteToRoom: requires data unless shutting down, because the code then takes the address of the first byte; the error for an uninitialised engine cannot arise on an object that exists.
- Bridge.ZigoDB.ApplySync: requires data, for the same reason, in the entries it tries: those that fit and the first that does not.
- Bridge.ZigoDB.SearchPaged: page arithmetic is on unbounded integers; overflow of the product is not modelled.
- TextSearch.PagesConcatenate: the same.
- Bridge.ZigoDB.Search: says nothing of the results when the query or an entry is not ASCII; Unicode case mapping, which can change lengths, is not modelled.
- Bridge.ZigoDB.SearchInRoom: the same.
- Bridge.ZigoDB.MmapChunk: only the parser; opening, sizing and mapping the file, which already fails for an empty one, are not modelled.
- Bridge.ZigoDB.ExportChunk: the file's bytes are the result; creating files and failing writes are not modelled, nor is an export that races with writers.
- Engine.ZigoDB.SwitchAndDrain: total entries are unbounded; wrap-around of the 64-bit total is not modelled.
- SearchPool.SegmentPool.Reserve: is for sequential calls with data that fits a segment; the exchange gives no exclusion between threads, and larger data would overrun the segment.
- CivilDate.FromTimestamp: gives the date numbers; the text of the file name and the uuid in hex are library formatting.
- Readers are snapshots of a reachable state: a reader that keeps a pointer over a later drain is not modelled.
- The reserve, fill and release path (db/zigo_db.zig:14-26, db/zigo_db.zig:68-80) bypasses tickets and commits and would break the protocol's invariant.
- Checksums and recovery: the write path never sets the checksum, and the one computed covers itself, so recovery has nothing to rest on.
- Temporal index, checkpoints, master index, event ids, status word, drain thresholds, `QueryChunk`, `GetRooms`, `VerifyChain`, the dump stubs and `search_query`: easy or constant.
- Goroutines, tickers, gossip, HMAC, JSON, shutdown of the engine and allocation limits.
