# A verified model of the avionics bus, its storage and its codecs

This project models, in Dafny, the parts of the flight-software simulation that have to be right in every
interleaving or on every bit pattern, and proves what they are for.

| file | what it models |
|---|---|
| `PoolProtocol.dfy` | the SQLite connection pools and the per-file write lock as a step relation: each critical section, queue operation and lock operation is one atomic step of some call, and calls interleave freely |
| `PoolRuns.dfy`, `PoolMarks.dfy`, `PoolProgress.dfy` | what holds over all runs of that protocol: accounting, the transaction marks, progress |
| `Pools.dfy`, `PoolCalls.dfy` | the pool object with its methods, and the proof that whole calls are runs of the step relation |
| `WriteRetry.dfy`, `RateLimit.dfy` | begin, execute, commit, roll back and retry; the fixed-window rate limiter |
| `Frames.dfy` | 20-bit frames: encoder, parity check, sliding-window scanner, frame repair |
| `BlockTransfer.dfy`, `TransferRuns.dfy` | the table of pending block transfers, and what holds over whole runs on many transfers |
| `PythonInts.dfy`, `SchemaFields.dfy` | Python's unbounded two's-complement integers, and the schema bit fields of data words |
| `Messages.dfy`, `MemoCache.dfy`, `CommandCache.dfy`, `DisplayCache.dfy` | bus messages and command words, a cache under a joined key, and the two caches of command words |
| `ControlValues.dfy`, `MetadataCodec.dfy` | control values on the wire; the metadata block and its packed points |
| `EventBus.dfy`, `LinkedLists.dfy` | the single-consumer event bus across start and stop; the linked list on the heap |
| `Normalizer.dfy`, `NormalizerLaws.dfy`, `NormalizerPasses.dfy`, `NormalizerAddresses.dfy` | the message normaliser, its fixed point, when one pass reaches it, and where its addresses come from |
| `Wrappers.dfy`, `Binary.dfy`, `Text.dfy`, `Collections.dfy` | options and results; binary text; splitting, joining, lower case and decimal numbers; removal from a list, least elements |

Objects the program updates in place are classes whose methods are proved against functions of the old state;
the lemmas then speak about those functions. Loops of the program are loops here.

Outside the model and given to it as parameters: the clock, the answers of SQLite, the connection or thread the
system makes, the address book, and the order in which concurrent steps happen. The clock is monotone and a
sleep lasts at least as long as asked.

Where the code differs from its documentation or from MIL-STD-1553B, the code is followed:

- Parity is odd over sync and payload, 19 bits, where section 4.3.3.5.1.6 of MIL-STD-1553B has it over the 16 payload bits;
  the bit is the opposite of the standard's for every word.
- A word count of 32 is printed with six digits by `to_binary`, and as 0 by the display side (section 4.3.3.5.1.5).
- The block flag is written at bit 10 and tested at bit 8, so block transfers cannot be read back.
- A bit range written as one number is refused, so a schema with `health_status` inside the list cannot be extracted.
- Numbering from zero or one is documented as supported either way, but is guessed from the first block to arrive: a
  transfer numbered from zero is in sequence order only if block 0 comes first or is alone; otherwise it is handed
  out rotated, block 0 last.
- `max_connections` bounds the pool only if initialisation is not configured to open more.
- One normalisation is a fixed point exactly when no missing address turns up after the fields have been mirrored
  into the metadata and, for a precipitation answer, the data was a list or its count was given as zero. Two always are.
- The bus cannot be stopped any more after two overlapping stops with a start between them.


## Model

| member | source | states |
|---|---|---|
| PoolProtocol.StepKeepsInv | B20SS/FMOFP/storage/DBM.py:150-281 | Every atomic step of every call, in any interleaving over any number of pools, keeps the whole invariant: the books of each pool, distinct connections, flags only on connections in use, and each write lock's depth equal to the number of its owner's holding calls |
| PoolRuns.PoolAccounting | B20SS/FMOFP/storage/DBM.py:150-281 | In every reachable state the counter is idle connections + checked-out ones + slots reserved for creation + dead ones being retired + those lost on the return error path, and it stays within the cap |
| PoolRuns.MaximumRespected | B20SS/FMOFP/storage/DBM.py:214-233 | The counter stays within max_connections in every reachable state if and only if initialisation is not configured to make more than that |
| PoolRuns.IdleNeverFlagged | B20SS/FMOFP/storage/DBM.py:177-281 | No idle connection is marked as in a transaction; idle connections differ from each other and from every connection a call holds |
| PoolRuns.TimeoutMeansFull | B20SS/FMOFP/storage/DBM.py:177-233 | A call times out only if the last capacity check it made saw the pool full; with a sensible configuration the counter then equalled max_connections |
| PoolRuns.OneWriterPerPath | B20SS/FMOFP/storage/DBM.py:48-380 | Over all pools on one path, calls holding a connection for writing all belong to the owner of that path's lock; calls queued on the lock hold no connection |
| PoolRuns.ConnectionGivenBack | B20SS/FMOFP/storage/DBM.py:177-281 | One step leaves a call its connection or gives it up in one of three ways: back into the queue, retired because it is dead, or counted as lost on the error path |
| PoolRuns.HeldUntilGivenUp | B20SS/FMOFP/storage/DBM.py:177-281 | Over any run, a call that once held a connection and no longer does has a step of its own at which the connection went back into the queue, was retired, or was counted as lost |
| PoolRuns.QuiescentPoolsAreWhole | B20SS/FMOFP/storage/DBM.py:235-380 | When all calls have ended, by result, error or timeout, no lock is held, nothing is flagged, and every connection not lost is idle again |
| PoolMarks.AcquiredMark | B20SS/FMOFP/storage/DBM.py:150-212 | The connection an acquisition hands out is marked as in a transaction exactly when it was asked for one; no other mark changes |
| PoolMarks.MarkedIffForTransaction | B20SS/FMOFP/storage/DBM.py:177-281 | At any moment of any run a connection being used or returned is marked exactly when its call asked for a transaction; only such a one is rolled back, and none is marked before that or behind it |
| PoolMarks.RolledBackBeforeReuse | B20SS/FMOFP/storage/DBM.py:235-281 | Over any run, a connection taken for a transaction gets to the validity check, and so back into the queue, only behind a step of its call at which SQLite answered its roll-back, done or with an operational error |
| PoolRuns.CounterMoves | B20SS/FMOFP/storage/DBM.py:214-281 | The counter goes up exactly when a slot is reserved below the maximum, and down exactly when a slot is given up after a failed creation or a dead connection is dropped above the minimum |
| PoolRuns.MinimumKept | B20SS/FMOFP/storage/DBM.py:214-281 | Over any run the counter lies below min_connections by no more than the number of slots given up because a connection could not be created |
| PoolRuns.OutcomeIsTheBlocks | B20SS/FMOFP/storage/DBM.py:356-380 | Over any run, a call leaves with an error of its block, or without one, only if its block ended that way, whatever happened while the connection was returned |
| PoolRuns.GrowsOnlyWhenEmpty | B20SS/FMOFP/storage/DBM.py:150-212 | Over any run, a call tries to make a connection without waiting only behind a step of its own that found no idle connection |
| PoolProgress.NoCallIsStuck | B20SS/FMOFP/storage/DBM.py:150-380 | From every state that satisfies the invariant, so from every reachable one, each call that no other thread's write lock keeps out can reach its end by its own steps alone: calls wait for each other on the write lock only |
| PoolProgress.WaiterIsServed | B20SS/FMOFP/storage/DBM.py:187-212 | A waiting call can take the oldest connection as soon as one is idle |
| PoolCalls.AcquireIsARun | B20SS/FMOFP/storage/DBM.py:150-233 | From any state of the protocol, a whole get_connection of one call while the others stand still is a run of Step with the specified pool and outcome; a connection opened differs from all live ones |
| PoolCalls.GiveBackIsARun | B20SS/FMOFP/storage/DBM.py:235-281 | From any state of the protocol, a whole return_connection is a run of Step with the specified pool, and exactly its error path loses the connection |
| Pools.ConnectionPool.Initialize | B20SS/FMOFP/storage/DBM.py:296-303 | The queue and the counter gain exactly the connections made before the first that cannot be made, which makes the call raise; all of them when none fails |
| Pools.ConnectionPool.GrowLocked | B20SS/FMOFP/storage/DBM.py:214-233 | Reserves a slot only below the maximum, gives it back when creation fails, and touches nothing else |
| Pools.ConnectionPool.GetConnection | B20SS/FMOFP/storage/DBM.py:150-212 | New pool and result equal the specification Acquire: oldest idle connection, else a new one, else the timeout or the creation error |
| Pools.ConnectionPool.ReturnConnection | B20SS/FMOFP/storage/DBM.py:235-281 | New pool equals the specification GiveBack over every answer to roll-back, validity check, close and replacement |
| Pools.ConnectionPool.CloseAll | B20SS/FMOFP/storage/DBM.py:305-309 | Empties the queue and takes its length off the counter; the flags stay as they are |
| Pools.AcquireThenGiveBack | B20SS/FMOFP/storage/DBM.py:150-281 | Acquiring and returning a live connection undoes itself up to its place in the queue or one connection newly opened |
| WriteRetry.RepeatWhileLocked | B20SS/FMOFP/storage/DBM.py:459-533 | The loop around a locked SQLite call ends within 102 tries with the first answer that is not a lock, or the lock error once the budget, counted from before the first try, is spent |
| WriteRetry.LateRefusalIsFinal | B20SS/FMOFP/storage/DBM.py:475-487 | A first refusal that SQLite took longer than the budget to give is the last |
| WriteRetry.OutlastIs | B20SS/FMOFP/storage/DBM.py:459-533 | A call refused for a lock is tried again as long as no more than ten seconds have passed: its outcome is the answer of the first try that is not refused or comes later than that |
| WriteRetry.LastTryCounts | B20SS/FMOFP/storage/DBM.py:459-533 | The bound of 102 tries is attained, and the answer of the last one counts |
| WriteRetry.WriteSession.Attempt | B20SS/FMOFP/storage/DBM.py:450-567 | One pass of the retry loop equals its specification, whichever step fails, and says how it ended |
| WriteRetry.WriteSession.ExecuteQuery | B20SS/FMOFP/storage/DBM.py:443-593 | The retry loop ends with the store, result and total sleep of its specification |
| WriteRetry.ExactlyOnceWrite | B20SS/FMOFP/storage/DBM.py:443-593 | A normal return with at least one attempt allowed means the statement was committed exactly once; a raised error, or no attempt at all, means never |
| WriteRetry.QueryEndsIff | B20SS/FMOFP/storage/DBM.py:443-593 | Exactly how a query ends, from the answers of its passes alone and from any store: it returns when a pass that is made succeeds or none is allowed; raises another exception when such a pass meets a pool timeout or one that is not an sqlite3 error, or the delay is negative; and raises a database error when every pass meets an sqlite3 error |
| WriteRetry.RetriedUntilDone | B20SS/FMOFP/storage/DBM.py:443-593 | With no transaction open: when every pass before is refused for a lock or another sqlite3 error and rolled back, a later pass within the budget that is answered Ok throughout makes the query return |
| WriteRetry.SleptExactly | B20SS/FMOFP/storage/DBM.py:569-593 | A query whose last pass is pass k has slept exactly delay * (2^k - 1) |
| WriteRetry.BackoffBound | B20SS/FMOFP/storage/DBM.py:569-593 | Total back-off over n attempts is at most delay * (2^(n-1) - 1), and exactly that when the last attempt's database error is raised |
| RateLimit.RateTracker.RateLimitQuery | B20SS/FMOFP/storage/DBM.py:331-353 | Admission time and new tracker of one call equal the specification, sleeping included |
| RateLimit.WithinLimit | B20SS/FMOFP/storage/DBM.py:331-353 | The tracker's counter never passes the per-window limit, and the last reset is never later than the last admission |
| RateLimit.AdmittedBetweenResets | B20SS/FMOFP/storage/DBM.py:331-353 | From one query up to the next that resets the window at most limit queries are admitted (one, when the limit is below one) |
| RateLimit.SleeperWaitsOut | B20SS/FMOFP/storage/DBM.py:331-353 | A query that finds the window full is let through no sooner than one second behind the end of that window |
| RateLimit.ResetsApart | B20SS/FMOFP/storage/DBM.py:331-353 | Any two resets of a run are at least one duration apart |
| RateLimit.BurstSpansDuration | B20SS/FMOFP/storage/DBM.py:331-353 | Any 2 * limit + 1 consecutive admissions span at least a duration |
| RateLimit.IntervalBound | B20SS/FMOFP/storage/DBM.py:331-353 | Any half-open interval of one duration, wherever it starts, admits at most 2 * limit queries |
| RateLimit.BoundIsTight | B20SS/FMOFP/storage/DBM.py:331-353 | For every limit of at least one and every duration, a run that admits 2 * limit queries within one duration |
| Frames.RepairUnreachable | B20SS/FMOFP/MIL_STD_1553B/Messaging.py:103-122 | For 16-bit words the encoder's parity repair never runs: the frame already has odd weight |
| Frames.ParityIsOpposite | B20SS/FMOFP/MIL_STD_1553B/Messaging.py:103-122 | For every 16-bit word the parity bit is the opposite of odd parity over the word alone, and the whole frame has odd weight |
| Frames.FramedWordIsValid | B20SS/FMOFP/MIL_STD_1553B/Messaging.py:107-122 | A framed word has 20 bits, good sync and parity, and carries the word at bits 3 to 18 |
| Frames.FlipsDetected | B20SS/FMOFP/MIL_STD_1553B/block_transfer_manager.py:258-277 | A corrupted frame fails the parity check exactly when an odd number of its bits was flipped |
| Frames.SplitOversizedFrames | B20SS/FMOFP/MIL_STD_1553B/block_transfer_manager.py:306-374 | The scan loop returns the specified split of any text that is not JSON |
| Frames.ScanIsOptimal | B20SS/FMOFP/MIL_STD_1553B/block_transfer_manager.py:326-346 | The scanner's frames are valid, in order and non-overlapping, and no non-overlapping choice of valid frames of that text is larger |
| Frames.SplitConcat | B20SS/FMOFP/MIL_STD_1553B/block_transfer_manager.py:306-346 | Splitting two or more concatenated valid frames returns exactly those frames |
| Frames.FrameRoundTrip | B20SS/FMOFP/MIL_STD_1553B/Messaging.py:107-122 | Framing two or more words, concatenating and splitting returns exactly the frames, and their payloads are the words |
| Frames.Validate1553bFrames | B20SS/FMOFP/MIL_STD_1553B/block_transfer_manager.py:201-256 | Each text frame is dropped, padded, cut or kept by its length and sync as specified |
| Frames.ValidateKeepsFrames | B20SS/FMOFP/MIL_STD_1553B/block_transfer_manager.py:201-256 | Validation leaves frames of the right length and sync unchanged |
| Frames.DamagedFrame | B20SS/FMOFP/MIL_STD_1553B/block_transfer_manager.py:201-256 | A good frame with one or two bits too many is cut back to itself, one or two lost bits come back as zeros, and with more than that it is dropped |
| BlockTransfer.BlockTransferManager.RegisterBlock | B20SS/FMOFP/MIL_STD_1553B/block_transfer_manager.py:33-190 | Table and answer after a block equal the specification, for fresh, repeated, out-of-range and finished transfers; the table stays well formed |
| BlockTransfer.BlockTransferManager.GetAssembledData | B20SS/FMOFP/MIL_STD_1553B/block_transfer_manager.py:376-480 | A complete transfer is handed out and removed; otherwise nothing is returned and nothing changes |
| BlockTransfer.BlockTransferManager.CleanupStaleTransfers | B20SS/FMOFP/MIL_STD_1553B/block_transfer_manager.py:482-506 | Exactly the records older than the limit go, and their number is returned |
| BlockTransfer.BlockTransferManager.ClearTransfer | B20SS/FMOFP/MIL_STD_1553B/block_transfer_manager.py:512-529 | Removes the record and says whether there was one |
| BlockTransfer.ReceiveKeepsRecord | B20SS/FMOFP/MIL_STD_1553B/block_transfer_manager.py:70-190 | received_count stays the number of filled slots and complete stays equivalent to all slots filled |
| BlockTransfer.RegisterKeepsTable | B20SS/FMOFP/MIL_STD_1553B/block_transfer_manager.py:33-190 | Every record of the table stays consistent when a block is registered |
| TransferRuns.RecordDependsOnOwnSteps | B20SS/FMOFP/MIL_STD_1553B/block_transfer_manager.py:33-190 | Non-interference: the record of one id after any run is what its own steps and the clean-ups alone produce |
| TransferRuns.ReachableRecordsConsistent | B20SS/FMOFP/MIL_STD_1553B/block_transfer_manager.py:70-102 | In every reachable state each record's count is its filled slots, and it is complete exactly when all are filled |
| TransferRuns.HandedOutAtMostOnce | B20SS/FMOFP/MIL_STD_1553B/block_transfer_manager.py:376-529 | Transfers opened = handed out + discarded + pending, over any run: a completed transfer is handed out at most once |
| TransferRuns.SlotIsCanonical | B20SS/FMOFP/MIL_STD_1553B/block_transfer_manager.py:104-180 | A slot holds its order-independent content if and only if block 1 carries no count, or did not come after that block, or that block has at most two words |
| TransferRuns.RecordAfterArrivals | B20SS/FMOFP/MIL_STD_1553B/block_transfer_manager.py:70-190 | After any arrivals of a transfer numbered from 0 or from 1, in any order, the record holds each block in the slot that the first arrival decides |
| TransferRuns.AssembledBySlot | B20SS/FMOFP/MIL_STD_1553B/block_transfer_manager.py:376-480 | What is handed out after any such arrivals: nothing before all blocks are there, then the slots in order |
| TransferRuns.AnsweredWhenAllArrived | B20SS/FMOFP/MIL_STD_1553B/block_transfer_manager.py:33-190 | Over any arrivals, resends included, the answer to the last registration is true if and only if all blocks of the transfer have then arrived |
| TransferRuns.AnsweredInterleaved | B20SS/FMOFP/MIL_STD_1553B/block_transfer_manager.py:33-190 | The same when steps of other transfers and clean-ups that do not find it stale come in between |
| TransferRuns.AnsweredIffFull | B20SS/FMOFP/MIL_STD_1553B/block_transfer_manager.py:33-190 | In any well-formed table a registration answers true exactly when its block is accepted, has a slot, and leaves no slot of its transfer empty |
| TransferRuns.OutOfRangeAnsweredFalse | B20SS/FMOFP/MIL_STD_1553B/block_transfer_manager.py:79-99 | A registration whose number lies behind the last slot is answered false and changes nothing |
| TransferRuns.MalformedAnsweredFalse | B20SS/FMOFP/MIL_STD_1553B/block_transfer_manager.py:48-63 | A registration without an id, with a negative number or with no blocks is answered false and changes nothing |
| TransferRuns.StaleSinceFirst | B20SS/FMOFP/MIL_STD_1553B/block_transfer_manager.py:69-506 | A clean-up throws a transfer away exactly when more than the age limit has passed since its first block arrived |
| TransferRuns.InSequenceIff | B20SS/FMOFP/MIL_STD_1553B/block_transfer_manager.py:70-84 | The slots are in sequence order if and only if the transfer is numbered from 1, or block 0 came first, or there is one block; otherwise block k of n takes slot (k + n - 1) mod n |
| TransferRuns.ZeroSecondSwaps | B20SS/FMOFP/MIL_STD_1553B/block_transfer_manager.py:33-480 | Block 1 before block 0 of a two-block transfer numbered from 0 is handed out swapped |
| TransferRuns.AssembledInSequence | B20SS/FMOFP/MIL_STD_1553B/block_transfer_manager.py:376-480 | In any order and with any resends, an order-safe transfer with its slots in sequence assembles to its first copies in sequence order, and to nothing before all have arrived |
| TransferRuns.ArrivalOrderIrrelevant | B20SS/FMOFP/MIL_STD_1553B/block_transfer_manager.py:33-190 | Two order-safe arrival histories, each with its slots in sequence, with the same first copies assemble to the same data |
| TransferRuns.HandedOutInOrderIff | B20SS/FMOFP/MIL_STD_1553B/block_transfer_manager.py:104-480 | Integer words are handed out as their blocks in sequence order with block 1 first if and only if no block of more than two words came before a block 1 that starts with a count |
| TransferRuns.InterleavedTransfer | B20SS/FMOFP/MIL_STD_1553B/block_transfer_manager.py:33-529 | The data handed out is that of the transfer's own arrivals alone, however they interleave with other transfers and with clean-ups that do not find it stale |
| TransferRuns.WordsPassThrough | B20SS/FMOFP/MIL_STD_1553B/block_transfer_manager.py:395-476 | Integer words come out as the plain concatenation |
| TransferRuns.FramesRecovered | B20SS/FMOFP/MIL_STD_1553B/block_transfer_manager.py:395-476 | A text item of concatenated frames comes out as those frames |
| TransferRuns.LateCountLosesWords | B20SS/FMOFP/MIL_STD_1553B/block_transfer_manager.py:104-480 | Block 2 of more than two words handed out without its first two when it arrives before a counting block 1, for any data |
| TransferRuns.BlockZeroTakesLastSlot | B20SS/FMOFP/MIL_STD_1553B/block_transfer_manager.py:79-99 | Block 0 of a transfer taken for one-based fills the last slot and shuts out block n |
| EventBus.Bus.Subscribe | B20SS/FMOFP/core/event_driven_communication.py:54-65 | The callback is added once for its topic and every other topic keeps its list |
| EventBus.Bus.Unsubscribe | B20SS/FMOFP/core/event_driven_communication.py:67-100 | The first registration of the callback goes, the topic stays even when its list is then empty, and the answer says whether it was there |
| EventBus.Bus.PublishEvent | B20SS/FMOFP/core/event_driven_communication.py:102-125 | An acceptable event joins the end of the queue, any other changes nothing |
| EventBus.Bus.StartBus | B20SS/FMOFP/core/event_driven_communication.py:141-163 | The class's start is the protocol's start step |
| EventBus.Bus.BeginStopBus | B20SS/FMOFP/core/event_driven_communication.py:165-185 | The class's stop begins as the protocol's begin-of-stop step, and does nothing on a bus not started |
| EventBus.Bus.EndStopBus | B20SS/FMOFP/core/event_driven_communication.py:165-205 | The class's stop ends as the protocol's end-of-stop step |
| EventBus.UnsubscribeUndoesSubscribe | B20SS/FMOFP/core/event_driven_communication.py:54-100 | Unsubscribing a callback just added leaves each callback as often as before, and in the same order if it was not subscribed already |
| EventBus.StepKeepsInv | B20SS/FMOFP/core/event_driven_communication.py:141-267 | Every start, stop, join timeout, publish and processing step keeps the invariant |
| EventBus.OneProcessor | B20SS/FMOFP/core/event_driven_communication.py:141-241 | At most one processor thread is ever alive, and it never takes from an empty queue |
| EventBus.DeliveredInOrder | B20SS/FMOFP/core/event_driven_communication.py:102-267 | Published = handled ++ at most one in hand ++ queued, in every reachable state and across restarts |
| EventBus.EveryEventAccountedFor | B20SS/FMOFP/core/event_driven_communication.py:102-267 | The non-empty events of the publishing actions so far, in order, are those handled, then at most one in hand, then those queued: every accepted event is handled, in hand or queued, over any run |
| EventBus.QueueDrains | B20SS/FMOFP/core/event_driven_communication.py:207-241 | While the flag is up, the processor thread left to itself handles everything queued, in order |
| EventBus.LoweredFlagEndsThread | B20SS/FMOFP/core/event_driven_communication.py:207-241 | Once the flag is down, the thread left to itself is dead after four steps and has handled at most one event more |
| EventBus.StartMakesProcessor | B20SS/FMOFP/core/event_driven_communication.py:141-163 | A start that takes effect makes one new live thread and marks the bus as started, unless the system refuses the thread; no other thread was alive |
| EventBus.WedgedBy | B20SS/FMOFP/core/event_driven_communication.py:141-205 | A bus that is not stuck gets stuck in one step exactly when a thread is refused or a stop ends after a start came between |
| EventBus.WedgedIff | B20SS/FMOFP/core/event_driven_communication.py:141-205 | Over a whole run, the bus is stuck exactly when some earlier start was refused its thread or some earlier stop ended with the flag up |
| EventBus.RunningIff | B20SS/FMOFP/core/event_driven_communication.py:141-205 | The flag is up exactly when the last action that moved it was a start |
| EventBus.WedgedHistoryIff | B20SS/FMOFP/core/event_driven_communication.py:141-205 | Told by the callers' history: the bus is stuck exactly when a start was refused its thread, or a stop begun before a start ended after it with no other stop begun in between |
| EventBus.WedgedForever | B20SS/FMOFP/core/event_driven_communication.py:141-205 | A stuck bus stays stuck and its thread never ends |
| EventBus.OrderlyNeverWedged | B20SS/FMOFP/core/event_driven_communication.py:141-205 | Callers that never overlap two stops never get a stuck bus, as long as the system refuses no thread |
| EventBus.OverlappingStopsWedge | B20SS/FMOFP/core/event_driven_communication.py:165-205 | A concrete run in which two overlapping stops leave the bus stuck |
| LinkedLists.LinkedList.Append | B20SS/FMOFP/storage/tempNodes.py:114-123 | The value is added at the end; the old nodes stay in place |
| LinkedLists.LinkedList.Prepend | B20SS/FMOFP/storage/tempNodes.py:125-129 | The value is added at the front; the old nodes stay in place |
| LinkedLists.LinkedList.DeleteWithValue | B20SS/FMOFP/storage/tempNodes.py:131-143 | Exactly the first node with the value is removed, or none; the list stays acyclic |
| LinkedLists.LinkedList.Find | B20SS/FMOFP/storage/tempNodes.py:145-152 | The first node with the value, or null exactly when none has it |
| LinkedLists.LinkedList.ReverseInPlace | B20SS/FMOFP/storage/tempNodes.py:154-163 | The same nodes in opposite order, no value touched |
| LinkedLists.ReverseRestores | B20SS/FMOFP/storage/tempNodes.py:154-163 | Reversing twice restores nodes, order and values |
| Collections.WithoutAt | B20SS/FMOFP/storage/tempNodes.py:131-143 | Where the specified removal cuts: before the first occurrence nothing moves, after it everything moves up by one |
| Collections.WithoutCounts | B20SS/FMOFP/storage/tempNodes.py:131-143 | Removal takes away one occurrence of the value and nothing else |
| SchemaFields.ExtractBits | B20SS/FMOFP/MIL_STD_1553B/message_schemas.py:1345-1365 | The mask loop returns the bits of the range, moved down |
| SchemaFields.SetBits | B20SS/FMOFP/MIL_STD_1553B/message_schemas.py:1368-1401 | The mask loops replace the range; a value that does not fit is refused |
| SchemaFields.BitsRead | B20SS/FMOFP/MIL_STD_1553B/message_schemas.py:1345-1365 | Bit i of what is read is bit low + i of the word, and nothing above the range |
| SchemaFields.BitsWritten | B20SS/FMOFP/MIL_STD_1553B/message_schemas.py:1368-1401 | Writing a fitting value changes the range's bits to it and no other bit |
| SchemaFields.ReadWritten | B20SS/FMOFP/MIL_STD_1553B/message_schemas.py:1345-1401 | Reading the range just written gives the value |
| SchemaFields.ReadOther | B20SS/FMOFP/MIL_STD_1553B/message_schemas.py:1345-1401 | Reading a disjoint range gives what was there before |
| SchemaFields.SingleBitRefused | B20SS/FMOFP/MIL_STD_1553B/message_schemas.py:1332-1334 | A single-bit range such as 0 is refused by the range parser |
| SchemaFields.RangeNamed | B20SS/FMOFP/MIL_STD_1553B/message_schemas.py:1319-1342 | The text of two numbers a and b with a dash names the bits a to b, counted from the lowest, when a <= b <= 15, and is refused otherwise; all names the whole word |
| SchemaFields.DigitIsBit | B20SS/FMOFP/MIL_STD_1553B/message_schemas.py:1404-1445 | Digit i from the end of a data word is bit i of its number |
| SchemaFields.NamedFieldBits | B20SS/FMOFP/MIL_STD_1553B/message_schemas.py:1404-1445 | Writing v into a resolved field a-b changes its word alone: bit i becomes bit i - a of v for a <= i <= b and stays as it was elsewhere |
| SchemaFields.NamedFieldRead | B20SS/FMOFP/MIL_STD_1553B/message_schemas.py:1448-1490 | Reading a resolved field a-b gives the number made of those bits |
| SchemaFields.AppliedBits | B20SS/FMOFP/MIL_STD_1553B/message_schemas.py:1404-1445 | Every bit of every word after any field map that is applied, for any layout, overlapping or not: that of the last value written over it, or the bit that was there |
| SchemaFields.WordsStayWide | B20SS/FMOFP/MIL_STD_1553B/message_schemas.py:1404-1445 | Applying a field map to 16-bit words gives 16-bit words |
| SchemaFields.ApplySchemaToDataWords | B20SS/FMOFP/MIL_STD_1553B/message_schemas.py:1404-1445 | The loop over the field map equals its specification, errors included |
| SchemaFields.ExtractFieldsFromDataWords | B20SS/FMOFP/MIL_STD_1553B/message_schemas.py:1448-1490 | The loop over the schema equals its specification, errors included |
| SchemaFields.ApplyThenGet | B20SS/FMOFP/MIL_STD_1553B/message_schemas.py:1404-1490 | After applying a fitting field map in any order, each resolved field reads as assigned or as before |
| SchemaFields.ExtractionSucceedsIff | B20SS/FMOFP/MIL_STD_1553B/message_schemas.py:1319-1490 | Extraction succeeds if and only if every field inside the list has a readable range |
| SchemaFields.SchemaRoundTrip | B20SS/FMOFP/MIL_STD_1553B/message_schemas.py:1404-1490 | For any layout of disjoint resolved fields, apply then extract returns every written value and leaves the others unchanged |
| SchemaFields.ApplySucceedsIff | B20SS/FMOFP/MIL_STD_1553B/message_schemas.py:1404-1445 | Apply succeeds if and only if every entry whose field resolves has a readable range and a fitting value |
| SchemaFields.OversizedRefused | B20SS/FMOFP/MIL_STD_1553B/message_schemas.py:1391-1445 | A value too large for its field, anywhere in the map, makes apply fail rather than truncate |
| SchemaFields.TwoEndedRoundTrip | B20SS/FMOFP/MIL_STD_1553B/message_schemas.py:1404-1490 | A layout counted from both ends whose fields are disjoint at either end makes the round trip on every list long enough to hold both ends |
| SchemaFields.TwoEndedDisjoint | B20SS/FMOFP/MIL_STD_1553B/message_schemas.py:1418-1428 | Fields from the front and from the end never meet once the list holds both ends, and can meet one word below |
| PythonInts.BitAnd | B20SS/FMOFP/MIL_STD_1553B/message_schemas.py:1345-1401 | The integer model of & is bitwise and on every bit of every integer, negative ones included |
| PythonInts.BitShr | B20SS/FMOFP/MIL_STD_1553B/message_schemas.py:1345-1401 | The integer model of >> moves bits down, for negative numbers too |
| PythonInts.FitsBits | B20SS/FMOFP/MIL_STD_1553B/message_schemas.py:1386-1394 | A number is below 2^k exactly when it has no one bit from k on |
| Messages.CommandWordRoundTrip | B20SS/FMOFP/local_messaging/display_command_map.py:67-104 | A word is built exactly when address, direction, subaddress and count are in range; formatCommand's slices then give them back, 32 travelling as 0 |
| Messages.SameCommandWord | B20SS/FMOFP/MIL_STD_1553B/mil_std_1553B.py:120-135 | The message's first 16 bits are the display side's command word |
| Messages.StandardRoundTrip | B20SS/FMOFP/MIL_STD_1553B/mil_std_1553B.py:120-202 | A standard message of at most 31 counted words reads back as itself |
| Messages.StandardRoundTripIff | B20SS/FMOFP/MIL_STD_1553B/mil_std_1553B.py:120-202 | A well-formed standard message reads back as itself if and only if its count is at most 31 and counts its data |
| Messages.ReadThenPrint | B20SS/FMOFP/MIL_STD_1553B/mil_std_1553B.py:142-202 | Every string accepted as standard is printed back bit for bit |
| Messages.BlockTransfersRefused | B20SS/FMOFP/MIL_STD_1553B/mil_std_1553B.py:129-178 | No block transfer reads back as itself, whatever its count and data: the flag is written at bit 10 and tested at bit 8; with at most 31 counted words it is refused outright |
| Messages.JoinedLength | B20SS/FMOFP/MIL_STD_1553B/mil_std_1553B.py:100-118 | A list of 16-bit words becomes 16 bits a word, each parsed back at its place |
| Messages.WordsRoundTrip | B20SS/FMOFP/MIL_STD_1553B/mil_std_1553B.py:41-202 | Any list of at most 31 words in either direction arrives with address, direction, subaddress, count and words intact |
| CommandCache.CommandWords.RegisterCommandWord | B20SS/FMOFP/local_messaging/command_word_map.py:255-324 | Cache and answer of one registration equal the specification, all error branches included |
| CommandCache.BuiltReads | B20SS/FMOFP/local_messaging/command_word_map.py:276-320 | A word carries the system's address in its first five bits, then the direction, the subaddress in the next five and the count in the last five |
| CommandCache.BuiltRefusedIff | B20SS/FMOFP/local_messaging/command_word_map.py:276-316 | Which requests are refused, and with which error |
| CommandCache.SameKeyIff | B20SS/FMOFP/local_messaging/command_word_map.py:269-274 | Two separable requests, at least one of them for a known message type, share the joined key if and only if they agree on every field, an absent data type printing as None |
| MemoCache.LookupIsFaithful | B20SS/FMOFP/local_messaging/command_word_map.py:269-324 | From a faithful cache a request of the domain gets what building it gives, and the cache stays faithful |
| CommandCache.KeyTellsWord | B20SS/FMOFP/local_messaging/command_word_map.py:269-324 | Of separable requests, the key of one that has a word tells what the address book builds |
| CommandCache.RegistryIsInvisible | B20SS/FMOFP/local_messaging/command_word_map.py:255-324 | Over any sequence of separable requests from an empty cache, each gets the uncached word or error |
| CommandCache.ServedIff | B20SS/FMOFP/local_messaging/command_word_map.py:255-324 | Exactly which histories are served rightly whatever the address book: those in which no two requests share a key, the earlier for a known message type, without sharing system, direction, subaddress and word count |
| CommandCache.UnderscoreCollides | B20SS/FMOFP/local_messaging/command_word_map.py:269-274 | An instance that fails: an underscore in a system name makes a request get another request's word |
| DisplayCache.DisplayCommands.GetCommandWord | B20SS/FMOFP/local_messaging/display_command_map.py:106-155 | Cache and answer of one lookup equal the specification, errors included |
| DisplayCache.BuiltReads | B20SS/FMOFP/local_messaging/display_command_map.py:106-155 | A display's word carries terminal 11, the direction, the display's subaddress and the command type's count, and is refused exactly when one of them is unknown or out of range |
| DisplayCache.SameKeyIff | B20SS/FMOFP/local_messaging/display_command_map.py:118-123 | A request with a known command type shares its key with no other separable request, whatever the display is called |
| DisplayCache.CommandsAreInvisible | B20SS/FMOFP/local_messaging/display_command_map.py:106-155 | Over any sequence of such requests each gets the word or error it would get without the cache |
| ControlValues.ControlValueAccuracy | B20SS/FMOFP/local_messaging/fcs_wire_format.py:94-111 | A value comes back within 1/1000 of its clamp |
| ControlValues.EncodeMonotone | B20SS/FMOFP/local_messaging/fcs_wire_format.py:94-105 | Encoding keeps order |
| ControlValues.EncodeOdd | B20SS/FMOFP/local_messaging/fcs_wire_format.py:94-105 | Opposite deflections encode symmetrically about 500 |
| ControlValues.EncodeAfterDecode | B20SS/FMOFP/local_messaging/fcs_wire_format.py:94-111 | Encoding after decoding is the identity exactly on 0..1000 |
| ControlValues.ControlInputRoundTrip | B20SS/FMOFP/local_messaging/fcs_wire_format.py:108-160 | A surface known in lower case, written in any case, and any value become two 16-bit words that read back as that surface and the clamped value to 1/1000; any other surface is refused |
| MetadataCodec.SelfDelimitingIff | B20SS/FMOFP/MIL_STD_1553B/metadata_codec.py:1271-1307 | The reader cuts the block off where the encoder ended it, in front of any payload, if and only if it has at most 16 words |
| MetadataCodec.NameBytesCarried | B20SS/FMOFP/MIL_STD_1553B/metadata_codec.py:585-647 | The words of a command name hold the bytes of its two chunks of six, each without a last odd one |
| MetadataCodec.UuidBytesCarried | B20SS/FMOFP/MIL_STD_1553B/metadata_codec.py:585-670 | The words of a long request id hold its first and last four characters |
| MetadataCodec.ShortIdBytesCarried | B20SS/FMOFP/MIL_STD_1553B/metadata_codec.py:653-670 | The words of a short request id hold its first eight bytes, without a last odd one |
| MetadataCodec.PlainBlocksDelimit | B20SS/FMOFP/MIL_STD_1553B/metadata_codec.py:343-395 | Without point payloads a block has at most 15 words, so it is always self-delimiting |
| MetadataCodec.PointsThatDelimit | B20SS/FMOFP/MIL_STD_1553B/metadata_codec.py:1271-1307 | With points: self-delimiting exactly while 2 * points fit in 16 minus the plain block |
| MetadataCodec.PointFields | B20SS/FMOFP/MIL_STD_1553B/metadata_codec.py:1182-1215 | The decoder's masks find in the two words exactly the truncated fields that were packed |
| MetadataCodec.PointRoundTrip | B20SS/FMOFP/MIL_STD_1553B/metadata_codec.py:730-746 | Decoding a packed point gives it low by less than 0.1, 2 and 1/63, its kind in lower case, rain when unknown |
| MetadataCodec.EncodePointList | B20SS/FMOFP/MIL_STD_1553B/metadata_codec.py:730-746 | The encoding loop appends the words of all points in order |
| MetadataCodec.DecodePointList | B20SS/FMOFP/MIL_STD_1553B/metadata_codec.py:1176-1225 | The decoding loop reads pairs from the start position, skipping unreadable ones |
| MetadataCodec.PointListRoundTrip | B20SS/FMOFP/MIL_STD_1553B/metadata_codec.py:1176-1225 | Any list of in-range points followed by one checksum word decodes to the same number of points, each rounded down |
| Normalizer.Draft.EnsureRoutingFields | B20SS/FMOFP/MIL_STD_1553B/message_structure_normalizer.py:176-197 | Missing addresses are filled from frames, status word or metadata in the source's order; nothing else changes |
| Normalizer.Draft.ApplySchemaNormalization | B20SS/FMOFP/MIL_STD_1553B/message_structure_normalizer.py:284-349 | Metadata, mirrored fields, defaults, counts and flags equal the specification |
| Normalizer.Draft.NormalizePrecipitationData | B20SS/FMOFP/MIL_STD_1553B/message_structure_normalizer.py:358-401 | The loop over the points equals the specified point list, counts and flag |
| Normalizer.Draft.VerifyCriticalFields | B20SS/FMOFP/MIL_STD_1553B/message_structure_normalizer.py:408-429 | A precipitation message wrongly marked as complete gets its command type back, and no other message changes |
| NormalizerLaws.NormalizeMessageStructure | B20SS/FMOFP/MIL_STD_1553B/message_structure_normalizer.py:31-74 | The whole pass equals the specification; its result is well typed and settled |
| NormalizerLaws.MirrorAdds | B20SS/FMOFP/MIL_STD_1553B/message_structure_normalizer.py:298-308 | Mirroring gives each dictionary exactly the listed fields it lacks and the other has, and overwrites nothing |
| NormalizerLaws.FixItemsIdle | B20SS/FMOFP/MIL_STD_1553B/message_structure_normalizer.py:368-395 | Putting a point list in order a second time changes nothing |
| NormalizerLaws.PointsAreTheirOwn | B20SS/FMOFP/MIL_STD_1553B/message_structure_normalizer.py:368-395 | The fixed list has one point for every usable item, with the item's own position, type, rate, intensity and display flag, in the order of the items, and no other |
| NormalizerAddresses.AddressFromFrame | B20SS/FMOFP/MIL_STD_1553B/message_structure_normalizer.py:176-231 | Of a message without an address, the normaliser finds the very address the bus controller was given for the frame in front, or for the status word when there are no frames |
| NormalizerAddresses.AddressOfParsedStatus | B20SS/FMOFP/MIL_STD_1553B/message_structure_normalizer.py:225-260 | A status word already taken apart tells its address, at top level or, failing any other, inside the metadata |
| NormalizerAddresses.AddressesFromMetadata | B20SS/FMOFP/MIL_STD_1553B/message_structure_normalizer.py:233-273 | Addresses written in the metadata are taken over, the subaddress under either of its two names |
| NormalizerAddresses.SourceCountsForRadar | B20SS/FMOFP/MIL_STD_1553B/message_structure_normalizer.py:233-260 | The source address in the metadata counts for the radar's messages only |
| NormalizerAddresses.RadarAddresses | B20SS/FMOFP/MIL_STD_1553B/message_structure_normalizer.py:233-282 | Weather radar data that names no address comes from terminal 9, subaddress 1 |
| NormalizerAddresses.VilRecognised | B20SS/FMOFP/MIL_STD_1553B/message_structure_normalizer.py:76-174 | A message without any type that shows a sign of liquid data, in its metadata, its command type or its points, is normalised as the radar's liquid answer |
| NormalizerLaws.PassSettles | B20SS/FMOFP/MIL_STD_1553B/message_structure_normalizer.py:31-74 | After one pass over any well-typed message its type is as before and only addresses and a count can still be missing |
| NormalizerLaws.SettledPass | B20SS/FMOFP/MIL_STD_1553B/message_structure_normalizer.py:31-74 | A further pass over such a message adds only those |
| NormalizerLaws.SecondPassIsFinal | B20SS/FMOFP/MIL_STD_1553B/message_structure_normalizer.py:31-74 | A third pass never changes the result of the second, which differs from the first at most in the two addresses and the data count |
| NormalizerLaws.NothingLost | B20SS/FMOFP/MIL_STD_1553B/message_structure_normalizer.py:31-74 | Every field and metadata field the caller wrote is kept with its value, except the few the normaliser itself writes |
| NormalizerPasses.OnePassIsFinalIff | B20SS/FMOFP/MIL_STD_1553B/message_structure_normalizer.py:31-74 | The second pass changes nothing if and only if no address missing from the message turns up once its fields are mirrored and, for a precipitation answer, the data was a list or its count was given as zero |
| NormalizerPasses.AddressedSettlesAtOnce | B20SS/FMOFP/MIL_STD_1553B/message_structure_normalizer.py:31-74 | A message with both addresses settles in one pass, unless it is a precipitation answer with neither list nor zero count |
| NormalizerPasses.MirroringNeedsAnotherPass | B20SS/FMOFP/MIL_STD_1553B/message_structure_normalizer.py:178-308 | With metadata and data both there, mirroring a data type into the metadata still makes the second pass add a subaddress |
| NormalizerLaws.OnePassIsNotEnough | B20SS/FMOFP/MIL_STD_1553B/message_structure_normalizer.py:284-367 | A bare precipitation answer changes again on the second pass |

## Left out

- Pools.ConnectionPool.CloseAll: modelled as one call while no other call is open; closing a pool that is still in use is not a step of the protocol, because the source makes no promise about it.
- Pools.ConnectionPool.Initialize: runs before the pool is shared, as the constructor of the database object has it; the order of queueing and counting inside it is not observable then, and a pool whose initialisation raised is never shared, so the protocol starts from complete ones.
- PoolProtocol.StepKeepsInv: a thread may have several calls open at once and their steps interleave, which allows more runs than nesting does; a connection is a number that may return once its holder is gone.
- PoolRuns.OneWriterPerPath: the lock table is keyed by the path as given; turning it into an absolute path is not modelled.
- WriteRetry.WriteSession.ExecuteQuery: managed write transactions only; select queries, unmanaged transactions, the test-environment branches and PRAGMA settings are not part of this model, and a commit that raises is taken not to have become durable.
- RateLimit.IntervalBound: serial calls on one tracker; concurrent callers share the tracker without a lock in the source.
- BlockTransfer.BlockTransferManager.RegisterBlock: items are integer words or text; dictionary and JSON items and the keyword search in metadata are not part of this model.
- TransferRuns.RecordAfterArrivals: all numbers of one transfer lie in 0..n-1 or all in 1..n; mixing both numberings in one transfer is described by single steps only.
- BlockTransfer.BlockTransferManager.GetAssembledData: dictionary and JSON items are not part of this model, as in registering them.
- Frames.Validate1553bFrames: items that are not text, which the source passes through, are not part of this model.
- Frames.SplitOversizedFrames: text in braces that parses as JSON is taken apart as a dictionary by the source; that branch is not part of this model.
- EventBus.StepKeepsInv: what callbacks do with an event, the routing of bus messages, the health check and the metrics are not part of this model.
- SchemaFields.ApplySchemaToDataWords: field values are natural numbers and data words plain binary digits; signs, spaces and underscores that Python's number parser accepts are not modelled.
- SchemaFields.ExtractFieldsFromDataWords: the mode name that is added beside a mode value is a finite lookup and is left out.
- Messages.ReadThenPrint: text is read with binary digits only; the signs, spaces and underscores that Python's number parser also accepts are not modelled.
- Messages.StandardRoundTrip: the message type and metadata a message carries beside its bits are not modelled; word counts are natural numbers.
- CommandCache.RegistryIsInvisible: the direction is a natural number; address lookups that fail otherwise than with a missing name are not modelled.
- ControlValues.ControlInputRoundTrip: lower-casing is that of ASCII letters; the rate, which the source does not transmit either, and the warning for a surface the receiver does not hold are left out; mode words are a finite lookup and left out. Numbers are exact reals.
- MetadataCodec.PlainBlocksDelimit: the checksum, the type words and the position word of a block are uninterpreted words; reading the other metadata fields back is left out, since the decoder uses other offsets than the encoder.
- MetadataCodec.PointListRoundTrip: precipitation points only, over exact reals, with the type lower-cased as ASCII; the points of the other radar products are packed the same way.
- NormalizerLaws.NormalizeMessageStructure: messages with text type fields, list or empty data and numeric point fields; on others the source logs the exception and hands the message back, possibly with metadata already changed. The copy shares its metadata dictionary with the caller's message, which the value model does not show. Lower-casing is that of ASCII letters and numbers are exact reals.
- The batch queue of the database module, whose deferred clearing can drop rows added meanwhile: there is no conservation law to state.
- Sockets, the hardware adapter, user interface, scheduling, XML parsing, logging, start-up and shutdown of the program.
- Predefined message classes, address tables and type constants: finite lookups.
