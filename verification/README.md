# ResilientDB: ordered execution, logging, storage and ledger

This project models the stateful core of ResilientDB and proves what it keeps over whole
runs.

- **Ordered execution.** One thread turns out-of-order commits into a gap-free stream
  (`Ordering`). Ten workers prepare in parallel and execute in stream order, synchronised
  by a ring of 1024 marks (`WorkerRing`, a state machine with one action per
  mutex-protected section). `GeoOrder` is the two-key sibling over sequences and regions,
  `DuplicateWindow` the time window in which repeated hashes are refused.
- **Write-ahead log.** Length framing with torn tails (`Framing`), the group-commit writer
  with its durability futures and file rotation (`GroupCommit`), filtered replay of Raft
  entries and truncations (`RaftReplay`), ranges printed into file names (`FileNames`),
  directories of such files and the choice of files by name (`LogFiles`), recovery from
  the chosen files for PBFT and for Raft (`PbftFiles`, `RaftFiles`), and the Raft log after
  a crash of the whole pipeline (`RaftCrash`).
- **Storage.** The composite-key codec and its sorted prefix scan (`CompositeKey`), the LRU
  cache (`LruCache`), database, pending batch and cache as one map (`LevelStore`), the
  versioned histories of the two backends (`Histories`), and those of `ResLevelDB` over its
  own database, batch and cache (`StoredHistories`).
- **Ledger.** Balances kept beside the unspent outputs they summarise (`Ledger`).

The threaded parts are step relations with an inductive invariant. The sequential parts are
classes and loops, each proved equal to a function of the old state; the theorems are about
those functions.

Several guarantees hold only under a condition. Each of these is stated as an exact
if-and-only-if, with an input or a run on the failing side:

- the 32-bit `last_seq_` assert (`AssertsExactly`, `LastSeqAssertFails`);
- progress of the geo executor (`ProgressExactly`, `RegionZeroStops`);
- how long a hash added twice stays known (`KnownExactly`, `ReAddForgetsEarly`);
- the 64 MiB frame limit (`LosslessExactly`, `CrashExactly`, `PackedBatchesLost`);
- appends after a restart behind a torn frame (`RestartExactly`, `TornAppendLost`);
- Raft truncations below the checkpoint (`ReplayExactly`, `LowTruncationExample`), files
  passed over (`RebuildsExactly`, `PassedOverExactly`, `TruncationFileSkipped`) and entries
  resolved before a crash (`ResolvedRebuilt`);
- PBFT files that start above the checkpoint (`SelectionExactly`, `LateRecordLost`) and log
  files with another extension than ".log" (`LoadExactly`, `UnseenLogLost`);
- empty primary keys (`RoundTripExactly`), reads that miss the pending batch (`ReadExactly`)
  and answers of the two backends (`VersionsAgree`, `TopZeroDiffers`, `ScanDiffers`);
- the assert in the ledger's `AddCoin` (`AssertsRunExactly`, `NegativeOutputSpent`);
- ledger totals and balances (`TotalExactly`, `BalanceExactly`, `BalancedRunExactly`,
  `InvRunExactly`, `AcceptsExactly`, `NoInputsExactly`), with the transactions that show why
  outputs must not be negative, inputs must be distinct and sums must fit int64.

Where code and documentation differ the model follows the code. The header of the
composite-key codec promises that an encoded prefix is a byte prefix of every key it should
match; with no attributes the code appends one more delimiter, and `EmptyPrefixQuery` states
what is returned instead. `MemoryDB::GetTopHistory` returns one entry when asked for none.

## Model

| member | source | states |
|---|---|---|
| WorkerRing.WindowBound | platform/consensus/execution/transaction_executor.cpp:213-230 | Ten workers, so at most ten sequences are popped and unfinished in any state of the invariant |
| WorkerRing.EnterExactly | platform/consensus/execution/transaction_executor.cpp:72-87 | A registered worker gets past WaitForExecute if and only if its predecessor has finished; stale marks neither admit nor block it |
| WorkerRing.RegisterKeepsInv | platform/consensus/execution/transaction_executor.cpp:62-70 | Registering finds the slot free (the assert holds) and keeps the invariant |
| WorkerRing.StampKeepsInv | platform/consensus/execution/transaction_executor.cpp:340-346 | Updating `last_seq_` keeps it equal to the wrapped sequence last entered |
| WorkerRing.FinishKeepsInv | platform/consensus/execution/transaction_executor.cpp:89-96 | Finishing moves the front of the window by one and leaves exactly the remaining window marked |
| WorkerRing.NextKeepsInv | platform/consensus/execution/transaction_executor.cpp:213-230 | Every action of every thread keeps the invariant |
| WorkerRing.ReachableInv | platform/consensus/execution/transaction_executor.cpp:62-96 | Every state of every interleaving satisfies the invariant |
| WorkerRing.OneBatchInside | platform/consensus/execution/transaction_executor.cpp:72-96 | At most one worker is between WaitForExecute and FinishExecute |
| WorkerRing.RunsInStreamOrder | platform/consensus/execution/transaction_executor.cpp:340-354 | In every reachable state the batches that ran are those of a stream prefix, none skipped or repeated; that is, exactly the requests of that prefix that are no no-ops, as pushed, in rising order |
| WorkerRing.LiveWindow | platform/consensus/execution/transaction_executor.h:120-125 | Registered, unfinished sequences are one contiguous window of at most ten, and no two share a ring slot |
| WorkerRing.AssertsExactly | platform/consensus/execution/transaction_executor.cpp:341-346 | The registration assert always holds; the `last_seq_` assert holds iff the request is a no-op or the first, the sequence is below 2^31, or the wrapped predecessor is zero |
| WorkerRing.LastSeqAssertFails | platform/consensus/execution/transaction_executor.cpp:341-346 | A run of two requests on either side of 2^31 in which the `last_seq_` assert fails |
| WorkerRing.NeverStuck | platform/consensus/execution/transaction_executor.cpp:72-87 | While work is left some worker can step; the lowest unfinished sequence is never blocked |
| WorkerRing.WorkShrinks | platform/consensus/execution/transaction_executor.cpp:213-230 | Each worker step lowers a measure, so schedules without pushes are finite |
| WorkerRing.WorkersDrain | platform/consensus/execution/transaction_executor.cpp:213-230 | Every schedule of the workers ends, and can only end with the whole stream executed in order; what ran is then every request that is no no-op, as pushed, in rising order |
| WorkerRing.BatchesExactly | platform/consensus/execution/transaction_executor.cpp:348-352 | The batches of a stretch of the stream are exactly its requests that are no no-ops, unchanged and in rising order |
| Ordering.FirstArrivalSpec | platform/consensus/execution/transaction_executor.cpp:161-163 | The payload of a sequence is that of its earliest arrival |
| Ordering.RunEndSpec | platform/consensus/execution/transaction_executor.cpp:165-175 | The end of the run is the only missing number with everything before it arrived |
| Ordering.RunEndBounds | platform/consensus/execution/transaction_executor.cpp:165-175 | Everything below the end of the run has arrived and the end has not |
| Ordering.SameCommitsSameStream | platform/consensus/execution/transaction_executor.cpp:177-205 | Replicas with the same commits, in any order and multiplicity, push the same stream |
| Ordering.ExpectedIsContiguous | platform/consensus/execution/transaction_executor.cpp:192-202 | The pushed stream carries consecutive sequence numbers, as the workers require |
| Ordering.AcceptKeeps | platform/consensus/execution/transaction_executor.cpp:179-190 | Taking a commit keeps candidates and pushed stream the first arrivals |
| Ordering.PushKeeps | platform/consensus/execution/transaction_executor.cpp:192-202 | Pushing the next candidate keeps them too |
| Ordering.PushedIsPrefix | platform/consensus/execution/transaction_executor.cpp:177-205 | What was pushed is a prefix of the maximal contiguous run of arrived sequences, and all of it when the next sequence is missing |
| Ordering.MoveKeepsInv | platform/consensus/execution/transaction_executor.cpp:161-230 | Every commit, push and worker step of the whole pipeline keeps the joint invariant |
| Ordering.JointReachable | platform/consensus/execution/transaction_executor.cpp:161-230 | It holds in every state of every interleaving of ordering thread and workers |
| Ordering.ForwardEnabled | platform/consensus/execution/transaction_executor.cpp:192-202 | The workers accept every push the ordering thread can make |
| Ordering.CommitsExecuteInOrder | platform/consensus/execution/transaction_executor.cpp:161-230 | In every reachable state of the pipeline what ran is the batches of a prefix of the arrived run with first-arrived payloads; when nothing can move, of all of it; read off the commits themselves: the first arrivals of those numbers that are no no-ops, in rising order |
| Ordering.OrderingThread.constructor | platform/consensus/execution/transaction_executor.cpp:137-140 | A fresh ordering thread starts at the installed sequence with nothing pushed |
| Ordering.OrderingThread.AddNewData | platform/consensus/execution/transaction_executor.cpp:161-163 | A commit becomes a candidate unless its sequence already has one |
| Ordering.OrderingThread.GetNextData | platform/consensus/execution/transaction_executor.cpp:165-175 | Returns and removes the candidate of the next sequence, if there is one |
| Ordering.OrderingThread.Accept | platform/consensus/execution/transaction_executor.cpp:179-190 | Stale commits are dropped, others become candidates unless their sequence has one; the history grows by the commit |
| Ordering.OrderingThread.Drain | platform/consensus/execution/transaction_executor.cpp:192-202 | Pushes until the next sequence is missing, only appending |
| Ordering.OrderingThread.OrderMessage | platform/consensus/execution/transaction_executor.cpp:177-205 | After every turn the pushed stream is exactly the maximal contiguous run of arrived sequences, each once |
| Ordering.OrderingThread.GetMaxPendingExecutedSeq | platform/consensus/execution/transaction_executor.cpp:133-135 | Names the last sequence of the arrived run |
| GeoOrder.ExecutesRoundOrder | platform/consensus/execution/geo_global_executor.cpp:82-125 | Whatever arrives, what executes is a prefix of (1,1),...,(1,R),(2,1),...; every delivered key is executed or pending |
| GeoOrder.BadKeyCaps | platform/consensus/execution/geo_global_executor.cpp:93-112 | A key off the grid or below the round reached caps execution at that key for good |
| GeoOrder.CleanStaysClear | platform/consensus/execution/geo_global_executor.cpp:82-125 | Deliveries on the grid that repeat no executed key never cause such a cap |
| GeoOrder.LongestPrefix | platform/consensus/execution/geo_global_executor.cpp:114-125 | With clean deliveries the executed keys are the longest delivered prefix |
| GeoOrder.SameDeliveriesSameOrder | platform/consensus/execution/geo_global_executor.cpp:82-125 | Replicas with the same clean deliveries in any order execute the same requests |
| GeoOrder.ExecutesLatest | platform/consensus/execution/geo_global_executor.cpp:82-112 | Whatever arrives, what waits and what a delivery makes execute is the latest delivery under its key so far |
| GeoOrder.ClearReaches | platform/consensus/execution/geo_global_executor.cpp:114-125 | From a clear state any round can still be reached |
| GeoOrder.ClearExactly | platform/consensus/execution/geo_global_executor.cpp:93-112 | No pending key is off the grid or stale iff every delivery was on the grid and not of a key executed before it |
| GeoOrder.ProgressExactly | platform/consensus/execution/geo_global_executor.cpp:93-112 | The executor can still get arbitrarily far iff every delivery so far was on the grid and not of a key executed before it |
| GeoOrder.RegionZeroStops | platform/consensus/execution/geo_global_executor.cpp:93-112 | One request of region zero stops the executor for good, whatever follows |
| GeoOrder.DrainKeepsInv | platform/consensus/execution/geo_global_executor.cpp:117-123 | Draining only appends, stops when nothing is due and moves keys without losing any |
| GeoOrder.GeoExecutor.constructor | platform/consensus/execution/geo_global_executor.cpp:26-36 | Starts at the first key of the round order |
| GeoOrder.GeoExecutor.GetNextMap | platform/consensus/execution/geo_global_executor.cpp:93-112 | Returns the first pending request iff its key is the next one, and then advances the key |
| GeoOrder.GeoExecutor.ExecuteDue | platform/consensus/execution/geo_global_executor.cpp:117-123 | Executes exactly what the round order allows |
| GeoOrder.GeoExecutor.OrderRound | platform/consensus/execution/geo_global_executor.cpp:114-125 | Its state is always that of the delivery history |
| DuplicateWindow.ReplayRises | platform/consensus/execution/duplicate_manager.cpp:65-70 | In every reachable state, unchecked additions included, the queue is sorted by time and every known hash is in it with a sequence |
| DuplicateWindow.ReplayKeepsInv | platform/consensus/execution/duplicate_manager.cpp:105-141 | Without unchecked additions the queue is also duplicate-free and its hashes are exactly the set |
| DuplicateWindow.AcceptedStays | platform/consensus/execution/duplicate_manager.cpp:126-140 | An accepted hash stays known until the clock is past its window |
| DuplicateWindow.AcceptancesApart | platform/consensus/execution/duplicate_manager.cpp:82-92 | Two acceptances of one hash are more than the window apart |
| DuplicateWindow.SeqOfExactly | platform/consensus/execution/duplicate_manager.cpp:50-70 | After any events the sequence number kept for a known hash is that of its latest addition |
| DuplicateWindow.SweepExactly | platform/consensus/execution/duplicate_manager.cpp:126-140 | A sweep forgets exactly the expired entries |
| DuplicateWindow.SweepKeepsSeqs | platform/consensus/execution/duplicate_manager.cpp:126-140 | A sweep keeps the sequence numbers of the entries that remain |
| DuplicateWindow.KnownExactly | platform/consensus/execution/duplicate_manager.cpp:126-140 | For every time-sorted queue: after a sweep a hash is known iff it was and none of its entries has run out |
| DuplicateWindow.ReAddForgetsEarly | platform/consensus/execution/duplicate_manager.cpp:65-70 | A hash added at t0 and again at t1 without a check is forgotten by the window of t0 |
| DuplicateWindow.DuplicateManager.CheckAndAddExecuted | platform/consensus/execution/duplicate_manager.cpp:82-92 | Reports a duplicate iff the hash is known, else records it |
| DuplicateWindow.DuplicateManager.AddExecuted | platform/consensus/execution/duplicate_manager.cpp:65-70 | Records without checking |
| DuplicateWindow.DuplicateManager.CheckIfExecuted | platform/consensus/execution/duplicate_manager.cpp:50-57 | The sequence of a known hash, else zero |
| DuplicateWindow.DuplicateManager.Sweep | platform/consensus/execution/duplicate_manager.cpp:126-140 | Pops expired entries from the front of the queue |
| Framing.Len8RoundTrip | platform/consensus/recovery/recovery_impl.h:221-225 | An 8-byte little-endian length is read back |
| Framing.NumberSplit | platform/consensus/recovery/recovery_impl.h:221-225 | A length is read least significant byte first |
| Framing.ParseEncode | platform/consensus/recovery/recovery_impl.h:221-244 | Parsing a buffer of appended records returns those records |
| Framing.ReadFrame | platform/consensus/recovery/recovery_impl.h:511-531 | A whole frame within the limit yields its records and reading goes on; a larger one ends the reading |
| Framing.ReadTornFrame | platform/consensus/recovery/recovery_impl.h:303-315 | A frame cut anywhere yields nothing |
| Framing.ReadsWholeFrames | platform/consensus/recovery/recovery_impl.h:511-531 | For every byte prefix of every file of flushed frames the reader returns exactly the records of the frames wholly inside it, up to the first over 64 MiB |
| Framing.LosslessExactly | platform/consensus/recovery/recovery_impl.h:512-516 | A log is read back in full iff no frame is over 64 MiB |
| Framing.ReadPastWhole | platform/consensus/recovery/recovery_impl.h:511-531 | Reading whole frames followed by anything is their records followed by the reading of the rest |
| Framing.RestartDropsStub | platform/consensus/recovery/recovery_impl.h:532-543 | A file without a whole frame is truncated at restart, so later appends are all read |
| Framing.TornTailStays | platform/consensus/recovery/recovery_impl.h:479-486 | After a whole frame a restart leaves a torn tail in place |
| Framing.TornTailHidesExactly | platform/consensus/recovery/recovery_impl.h:479-486 | Behind a torn body nothing appended is read iff the appends do not fill its hole or the torn frame was over 64 MiB |
| Framing.UnreadExactly | platform/consensus/recovery/recovery_impl.h:511-519 | A reading is empty iff the walk stops at the first header |
| Framing.RestartExactly | platform/consensus/recovery/recovery_impl.h:479-486 | After a crash with whole frames and a cut one, everything appended after the restart is read back iff there was no whole frame or nothing of the cut one was written |
| Framing.TornAppendLost | platform/consensus/recovery/recovery_impl.h:479-486 | Behind a whole frame any torn bytes, header or body, lose some later append |
| Framing.RestartErasesExactly | platform/consensus/recovery/recovery_impl.h:532-543 | A restart erases a file iff its first frame is over 64 MiB, later frames included |
| Framing.LogFile.constructor | platform/consensus/recovery/recovery_impl.h:276-286 | An empty file with an empty buffer |
| Framing.LogFile.AppendData | platform/consensus/recovery/recovery_impl.h:221-225 | The buffer encodes the pending records plus the new one |
| Framing.LogFile.Flush | platform/consensus/recovery/recovery_impl.h:276-286 | The file gains one frame with the pending records, or nothing if there are none |
| Framing.ParseData | platform/consensus/recovery/recovery_impl.h:229-244 | The position-advancing loop computes the record list, with substr's clipping of an over-long last record |
| Framing.ReadLogs | platform/consensus/recovery/recovery_impl.h:511-531 | The reading loop computes the reader function, with its four ways to stop |
| GroupCommit.NextKeepsInv | platform/consensus/recovery/raft_recovery.cpp:96-126 | Every enqueue, writer step, rotation and stop keeps the invariant |
| GroupCommit.ReachableInv | platform/consensus/recovery/raft_recovery.cpp:96-126 | Every state of every interleaving satisfies it |
| GroupCommit.HistoryConserved | platform/consensus/recovery/raft_recovery.cpp:238-301 | Files, batch in hand and queue together are the enqueue history, in order |
| GroupCommit.ResolvedIsOnDisk | platform/consensus/recovery/raft_recovery.cpp:112-125 | A future resolves only after its records and everything enqueued earlier are written and synced |
| GroupCommit.StopDrains | platform/consensus/recovery/raft_recovery.cpp:76-94 | When the writer has left its loop everything enqueued is written and every future resolved |
| GroupCommit.WriterNeverStuck | platform/consensus/recovery/raft_recovery.cpp:96-126 | With work left or a stop pending the writer has a step |
| GroupCommit.CrashExactly | platform/consensus/recovery/raft_recovery.cpp:112-125 | After a crash behind the synced part, the frames left whole contain every resolved batch and are a prefix of the history, and reading closed and open files gives exactly them iff none is over 64 MiB |
| GroupCommit.SettledExactly | platform/consensus/recovery/raft_recovery.cpp:96-126 | With the writer at rest exactly the resolved batches are read back iff no frame is over 64 MiB |
| GroupCommit.PackedBatchesLost | platform/consensus/recovery/raft_recovery.cpp:112-121 | Batches that are small on their own are packed into one frame; resolved, they are not read back if that frame is too large |
| GroupCommit.LargeBatches | platform/consensus/recovery/recovery_impl.h:512-516 | Such batches exist |
| RaftReplay.KeptStep | platform/consensus/recovery/raft_recovery.cpp:357-374 | A replayed record acts on the part above the checkpoint as it acted on the log |
| RaftReplay.LogExactly | platform/consensus/recovery/raft_recovery.cpp:238-301 | The log holds at an index exactly the entry written there that no later truncation cut |
| RaftReplay.PlaysOn | platform/consensus/ordering/raft/algorithm/raft.cpp:1575-1593 | Replay goes on past a truncation iff it cuts inside the log built so far (the asserts hold), and past every entry |
| RaftReplay.DroppedStep | platform/consensus/recovery/raft_recovery.cpp:367-370 | A skipped record leaves that part alone iff it is not a low truncation that cuts it |
| RaftReplay.StepFaithful | platform/consensus/recovery/raft_recovery.cpp:357-374 | Replay stays faithful over one more record iff that record is not such a truncation |
| RaftReplay.StepAgrees | platform/consensus/recovery/raft_recovery.cpp:357-374 | Whatever was replayed so far, a replay that equals the log above the checkpoint still does after one more record iff that record is not such a truncation |
| RaftReplay.ReplayExactly | platform/consensus/recovery/raft_recovery.cpp:281-374 | For every contiguous history, replay rebuilds the log above the checkpoint at every crash point iff no truncation below the checkpoint was written while the log reached past it |
| RaftReplay.ThroughExactly | platform/consensus/recovery/raft_recovery.cpp:357-374 | Behind any history and any replay in step with it, the records of a file keep it in step one after the other iff none is such a truncation |
| RaftReplay.DroppedThrough | platform/consensus/recovery/raft_recovery.cpp:367-370 | Records that replay drops leave the log above the checkpoint as it was if none is such a truncation |
| RaftReplay.LiveExactly | platform/consensus/recovery/raft_recovery.cpp:238-301 | After any records every index of the log is one they wrote and did not cut again, or holds what it held |
| RaftReplay.UnchangedExactly | platform/consensus/recovery/raft_recovery.cpp:238-301 | Records leave the log above the checkpoint as it was iff it is as long as before and every index they wrote holds what it held |
| RaftReplay.LowTruncationResurrects | platform/consensus/recovery/raft_recovery.cpp:367-370 | The failing family: entries cut by a low truncation come back in front of their replacement |
| RaftReplay.LowTruncationExample | platform/consensus/recovery/raft_recovery.cpp:367-370 | Two entries, cut back to nothing, checkpoint 1: the second entry is recovered |
| RaftFiles.TrackCovers | platform/consensus/recovery/raft_recovery.cpp:308-335 | Writing a record keeps the range covering every live index of the file above the checkpoint |
| RaftFiles.TrackExactly | platform/consensus/recovery/raft_recovery.cpp:308-335 | A record leaves no range iff it is a truncation that keeps nothing of it above the checkpoint; else both ends are told |
| RaftFiles.ScanExactly | platform/consensus/recovery/raft_recovery.cpp:61-68 | The restart scan finds the least and greatest number of any entry or truncation, or an empty range iff it sees none |
| RaftFiles.ScanCovers | platform/consensus/recovery/raft_recovery.cpp:61-68 | So does the restart scan |
| RaftFiles.TrackTells | platform/consensus/recovery/raft_recovery.cpp:316-330 | A file of truncations only, not scanned by a restart, keeps the range of an empty file |
| RaftFiles.ChosenExactly | platform/consensus/recovery/recovery_impl.h:321-373 | Record for record, the chosen files replay what the whole history would iff no file passed over holds a record that replay keeps |
| RaftFiles.FileExactly | platform/consensus/recovery/recovery_impl.h:321-373 | One more file, chosen or passed over, keeps the replay in step with the log iff it is harmless |
| RaftFiles.RebuildsExactly | platform/consensus/recovery/recovery_impl.h:321-373 | For every history with truncations the chosen files stay in step with the log above the checkpoint, after every record replayed and every file passed over, iff chosen files hold no low truncation that cuts and files passed over leave the log above the checkpoint as it was; then they rebuild it |
| RaftFiles.PassedOverExactly | platform/consensus/recovery/recovery_impl.h:359-363 | A closed file with a live entry above the checkpoint is passed over iff its name gives a minimum above the checkpoint |
| RaftFiles.PassedOverBelow | platform/consensus/recovery/recovery_impl.h:359-363 | A closed file passed over under a lower minimum is harmless iff it did not cut the log above the checkpoint |
| RaftFiles.TruncationsPassedOver | platform/consensus/recovery/raft_recovery.cpp:316-330 | A closed file of truncations only, not scanned by a restart, is always passed over, and is harmless iff it is empty or the log did not reach past the checkpoint |
| RaftFiles.WrittenAndCut | platform/consensus/recovery/raft_recovery.cpp:316-330 | A file passed over may hold records that replay keeps and be harmless: an entry written and cut again |
| RaftFiles.EntriesExactly | platform/consensus/recovery/recovery_impl.h:359-363 | Where nothing is ever cut, equality at the end alone is exact: the log above the checkpoint is rebuilt iff no file passed over holds an entry above it |
| RaftFiles.CutThird | platform/consensus/recovery/raft_recovery.cpp:316-330 | A history whose log holds nothing above the checkpoint and that has no low truncation, for the next row |
| RaftFiles.TruncationFileSkipped | platform/consensus/recovery/raft_recovery.cpp:316-330 | A run of writes and rotations in which a truncation-only file is passed over and the entry it cut is replayed |
| RaftFiles.RaftLog.constructor | platform/consensus/recovery/recovery_impl.h:154-157 | One open, empty file at checkpoint zero with no range |
| RaftFiles.RaftLog.WriteLog | platform/consensus/recovery/raft_recovery.cpp:303-338 | The record is appended and the range follows both payload cases |
| RaftFiles.RaftLog.Advance | platform/consensus/recovery/recovery_impl.h:107-117 | The checkpoint in memory runs ahead of the one in the names |
| RaftFiles.RaftLog.FinishFile | platform/consensus/recovery/recovery_impl.h:179-216 | The file is closed under its range and checkpoint, an empty one opened and the range reset |
| RaftFiles.RaftLog.SwitchFile | platform/consensus/recovery/raft_recovery.cpp:61-68 | After a restart the range is that of the scan, which takes truncations for entries, at the checkpoint in the name |
| RaftFiles.RaftLog.StartFresh | platform/consensus/recovery/recovery_impl.h:154-157 | A fresh file at checkpoint zero |
| RaftFiles.RaftLog.Init | platform/consensus/recovery/raft_recovery.cpp:47-74 | A start finds the open file again if names are visible, with `last_ckpt_` back at the checkpoint in its name, and starts over if not |
| RaftFiles.RaftLog.ReadLogs | platform/consensus/recovery/recovery_impl.h:427-449 | On any listing after any run of writes, rotations and starts: nothing if names are unseen; else the replay stays in step with the log iff every file is harmless, and then rebuilds it above the checkpoint; of the closed files with a live entry above it exactly those with a minimum above it are passed over; all kept records come back iff none was skipped; the records handed over are those of chosen files above the checkpoint and truncations at it |
| RaftCrash.AfterCrashRecords | platform/consensus/recovery/recovery_impl.h:511-531 | With no frame over 64 MiB the files left by a crash hold exactly the records of the frames left whole, file by file |
| RaftCrash.SurvivesExactly | platform/consensus/recovery/raft_recovery.cpp:238-301 | An entry of the log is still there and not written again iff no later truncation cut below it |
| RaftCrash.CrashRebuilds | platform/consensus/recovery/raft_recovery.cpp:96-126 | After a crash anywhere behind the last synced frame the files hold a prefix of what was enqueued with everything resolved in it, and the chosen ones stay in step with its log iff every file is harmless, rebuilding it above the checkpoint |
| RaftCrash.ResolvedRebuilt | platform/consensus/recovery/raft_recovery.cpp:112-125 | With harmless files, the entry that the resolved batches left at an index above the checkpoint is in the rebuilt log at its place, unwritten since, iff no truncation that reached the disk after them cut below it |
| FileNames.IntRoundTrip | platform/consensus/recovery/recovery_impl.h:169-171 | A printed number is read back by stoll, whatever follows its last digit |
| FileNames.SplitLast | platform/consensus/recovery/recovery_impl.h:345-357 | rfind separates the last field from the rest |
| FileNames.NameRoundTrip | platform/consensus/recovery/recovery_impl.h:162-175 | Time, range and checkpoint in a stem are read back, whatever the base name and with or without the extra dot |
| FileNames.NameExample | platform/consensus/recovery/recovery_impl.h:169-175 | The text of a name: decimal time, minimum, maximum and checkpoint behind the base |
| FileNames.LoadExactly | platform/consensus/recovery/recovery_impl.h:172-175 | A generated file name is read back iff the base path has no extension or ".log"; with any other it is passed over |
| FileNames.DotFileSkipped | platform/consensus/recovery/recovery_impl.h:342-357 | A leading dot starts no extension; a ".log" file without numbers throws |
| FileNames.TextLogSkipped | platform/consensus/recovery/recovery_impl.h:344-344 | For instance every log file under a base path that ends in ".txt" |
| LogFiles.Stems | platform/consensus/recovery/recovery_impl.h:162-175 | The names of GenerateFile are visible to recovery iff the base path has no extension or ".log", and unseen otherwise |
| LogFiles.PickedLoses | platform/consensus/recovery/recovery_impl.h:337-373 | Choosing files by name loses none of the records a test keeps iff no file passed over holds one |
| LogFiles.PickedSpec | platform/consensus/recovery/recovery_impl.h:337-373 | The chosen list is sorted and holds exactly the files that qualify |
| LogFiles.SortedUnique | platform/consensus/recovery/recovery_impl.h:366-372 | The sorted list depends only on the set of files, not on the directory order |
| LogFiles.ReplayIsFilter | platform/consensus/recovery/recovery_impl.h:445-448 | Replaying file by file is filtering the whole history |
| LogFiles.ReplayedExactly | platform/consensus/recovery/recovery_impl.h:321-373 | A record is handed over iff it passes the test and is in the open file or in one whose range holds the checkpoint |
| LogFiles.PerformCallback | platform/consensus/recovery/raft_recovery.cpp:357-374 | The loop hands over exactly the records that pass the test, in order |
| LogFiles.ReplayFiles | platform/consensus/recovery/recovery_impl.h:445-448 | The files are replayed in list order through the callback's test |
| LogFiles.GetRecoveryFiles | platform/consensus/recovery/recovery_impl.h:321-373 | On any directory without equal times: the latest checkpoint and exactly the chosen files in time order |
| LogFiles.MaxCkpt | platform/consensus/recovery/recovery_impl.h:323-334 | The first pass finds the latest checkpoint, from zero up |
| LogFiles.GetLastFile | platform/consensus/recovery/recovery_impl.h:122-158 | On any directory without equal times: the newest file without a range and with a time above zero, or none |
| LogFiles.VisibleListing | platform/consensus/recovery/recovery_impl.h:337-357 | Loading any listing, other files among it, yields each visible log once |
| LogFiles.UnseenListing | platform/consensus/recovery/recovery_impl.h:342-344 | Unseen files yield nothing |
| LogFiles.LoadNames | platform/consensus/recovery/recovery_impl.h:337-357 | The directory loop with its extension test |
| LogFiles.LayoutNames | platform/consensus/recovery/recovery_impl.h:321-373 | After any run the open file is the newest without a range and carries the latest checkpoint |
| LogFiles.GrowLast | platform/consensus/recovery/pbft_recovery.cpp:102-122 | Appending a record extends the written history and leaves the names as printed |
| LogFiles.RotateLast | platform/consensus/recovery/recovery_impl.h:179-216 | Closing a file under its range loses no record |
| LogFiles.ReadLogs | platform/consensus/recovery/recovery_impl.h:427-449 | With visible names the chosen files are replayed at the latest checkpoint, with unseen ones nothing is |
| PbftFiles.TrackTight | platform/consensus/recovery/pbft_recovery.cpp:113-117 | Writing a record keeps the range covering, with both ends attained by records |
| PbftFiles.ScanTight | platform/consensus/recovery/pbft_recovery.cpp:57-65 | So does the restart scan |
| PbftFiles.ScanExactly | platform/consensus/recovery/pbft_recovery.cpp:57-65 | The restart scan finds the least and greatest sequence, or an empty range iff it sees none |
| PbftFiles.NeededOfReplay | platform/consensus/recovery/pbft_recovery.cpp:149-164 | The callback's test passes every needed record, in order |
| PbftFiles.SelectionExactly | platform/consensus/recovery/recovery_impl.h:321-373 | Recovery replays exactly the non-NEWVIEW records above the latest checkpoint, in write order, iff no closed file holding one is named with a minimum above it |
| PbftFiles.HandedOver | platform/consensus/recovery/pbft_recovery.cpp:149-164 | The records handed over are exactly those of the chosen files that are above the checkpoint or NEWVIEW, so the others than NEWVIEW are needed as they are |
| PbftFiles.UnselectedBelow | platform/consensus/recovery/recovery_impl.h:359-363 | A file passed over with its minimum at or below the checkpoint holds nothing needed |
| PbftFiles.LostExactly | platform/consensus/recovery/recovery_impl.h:361-361 | In terms of what was written: a closed file is lost iff all its records are above the checkpoint and one is needed |
| PbftFiles.LateExactly | platform/consensus/recovery/recovery_impl.h:361-361 | No closed file is lost iff those whose records are all above the checkpoint hold nothing but NEWVIEW records |
| PbftFiles.LateRecordLost | platform/consensus/recovery/recovery_impl.h:361-361 | The run write, rotate at a lower checkpoint, recover: the needed record is not replayed |
| PbftFiles.UnseenLogLost | platform/consensus/recovery/recovery_impl.h:130-130 | The run write, restart, recover under unseen names: a fresh file at checkpoint zero and nothing replayed |
| PbftFiles.PbftRecovery.constructor | platform/consensus/recovery/recovery_impl.h:154-157 | One open, empty file at checkpoint zero with no range |
| PbftFiles.PbftRecovery.WriteLog | platform/consensus/recovery/pbft_recovery.cpp:102-122 | The record is appended to the open file and the range extended by it |
| PbftFiles.PbftRecovery.FinishFile | platform/consensus/recovery/recovery_impl.h:179-216 | The open file is closed under its range and the new checkpoint, an empty one opened and the range reset |
| PbftFiles.PbftRecovery.SwitchFile | platform/consensus/recovery/recovery_impl.h:454-465 | After a restart the range is that of a scan of the open file |
| PbftFiles.PbftRecovery.StartFresh | platform/consensus/recovery/recovery_impl.h:154-157 | A fresh file at checkpoint zero |
| PbftFiles.PbftRecovery.Init | platform/consensus/recovery/pbft_recovery.cpp:48-70 | A start finds the open file and its checkpoint again if names are visible, and starts over if not |
| PbftFiles.PbftRecovery.ReadLogs | platform/consensus/recovery/recovery_impl.h:427-449 | After any run of writes, rotations and starts, on any listing: nothing if names are unseen, else the needed records in write order iff no closed file holding one starts above the checkpoint, stated over names and over what was written; no other record of a chosen file than those above the checkpoint and NEWVIEW ones is handed over, and each of these is |
| CompositeKey.RoundTripExactly | chain/storage/composite_key_codec.cpp:83-122 | Decoding undoes encoding for delimiter-free fields iff the primary key is not empty |
| CompositeKey.EncodeInjective | chain/storage/composite_key_codec.cpp:27-53 | Encoding is injective on delimiter-free fields, empty primary keys included |
| CompositeKey.LayoutExample | chain/storage/composite_key_codec.cpp:40-80 | The bytes of a key and of a prefix, and which keys count as index entries |
| CompositeKey.ReencodeExactly | chain/storage/composite_key_codec.cpp:91-121 | A decodable string is the encoding of what it decodes to iff the byte after the namespace is the delimiter and the last byte is not |
| CompositeKey.PrefixExactly | chain/storage/composite_key_codec.cpp:55-81 | A key starts with the encoded prefix iff its index name matches and its attributes start with the effective attribute prefix |
| CompositeKey.ScanIsQuery | chain/storage/leveldb.cpp:483-500 | Over a store's sorted keys, user keys among them, the prefix filter is, in byte order, the query over the decoded index |
| CompositeKey.EmptyPrefixQuery | chain/storage/composite_key_codec.cpp:67-80 | With no attributes a query returns exactly the keys whose first attribute is empty |
| CompositeKey.PrefixBlock | chain/storage/memory_db.cpp:218-224 | In byte order the keys with a prefix are one block, so stopping early loses none |
| CompositeKey.LessExactly | chain/storage/memory_db.cpp:157-157 | Keys compare by their first different byte, a proper prefix first |
| CompositeKey.GetByPrefix | chain/storage/memory_db.cpp:214-227 | The seek-and-walk scan returns exactly the keys with the prefix, in order |
| CompositeKey.CheckFields | chain/storage/composite_key_codec.cpp:27-53 | Accepts exactly delimiter-free fields |
| CompositeKey.EncodeCompositeKey | chain/storage/composite_key_codec.cpp:27-53 | The appending loop computes the encoding |
| CompositeKey.EncodeCompositeKeyPrefix | chain/storage/composite_key_codec.cpp:55-81 | The loop with its delimiters in between and the one behind computes the prefix encoding |
| CompositeKey.JoinAttributes | chain/storage/composite_key_codec.cpp:73-76 | The loop that puts delimiters between attributes |
| CompositeKey.DecodeCompositeKey | chain/storage/composite_key_codec.cpp:83-122 | Computes the decoding, with each of its rejections |
| CompositeKey.SplitParts | chain/storage/composite_key_codec.cpp:97-108 | The find loop splits at every delimiter and drops an empty last part |
| CompositeKey.CompositeIndex.LowerBound | chain/storage/memory_db.cpp:218-218 | The first position not below the key |
| CompositeKey.CompositeIndex.CreateCompositeKey | chain/storage/memory_db.cpp:204-207 | Adds exactly the key and stays sorted |
| CompositeKey.CompositeIndex.DeleteCompositeKey | chain/storage/memory_db.cpp:209-212 | Removes exactly the key and stays sorted |
| CompositeKey.CompositeIndex.UpdateCompositeKey | chain/storage/memory_db.cpp:229-234 | Removes the old key and adds the new; equal keys leave it present |
| LruCache.PutKeepsInv | common/lru/lru_cache.cpp:55-69 | Put keeps the recency list duplicate-free, in step with the values and within capacity |
| LruCache.TouchKeepsInv | common/lru/lru_cache.cpp:41-52 | Moving a key to the front keeps the same |
| LruCache.TouchIncluded | common/lru/lru_cache.cpp:41-52 | Get keeps a smaller cache included in a larger |
| LruCache.PutIncluded | common/lru/lru_cache.cpp:55-69 | Put keeps a smaller cache included in a larger, whichever of them evicts |
| LruCache.LargerContainsSmaller | common/lru/lru_cache.cpp:41-96 | After any trace the list at capacity c is the list at d >= c restricted to its keys, with equal values |
| LruCache.LargerHitsMore | common/lru/lru_cache.cpp:41-52 | Hits never decrease with capacity, over any trace |
| LruCache.RecencyOrder | common/lru/lru_cache.cpp:41-69 | After any trace the key list is in order of last Get or Put, the latest first |
| LruCache.DropsLeastRecent | common/lru/lru_cache.cpp:55-69 | After any trace a Put of a new key drops a key iff the cache is full, and then the one used longest ago; nothing else is dropped |
| LruCache.HoldsLastPut | common/lru/lru_cache.cpp:55-69 | After any trace a cached value is the one last put under its key |
| LruCache.ShrinkKeepsNewest | common/lru/lru_cache.cpp:72-82 | Shrinking keeps exactly the most recent keys |
| LruCache.LRUCache.Get | common/lru/lru_cache.cpp:41-52 | Value or default, key moved to the front, one hit or one miss counted |
| LruCache.LRUCache.Hit | common/lru/lru_cache.cpp:47-51 | A known key moves to the front and is counted |
| LruCache.LRUCache.Splice | common/lru/lru_cache.cpp:47-48 | Splicing the node behind an iterator is a touch of its key |
| LruCache.LRUCache.Use | common/lru/lru_cache.cpp:47-48 | A stored key is found through its iterator and moved to the front |
| LruCache.LRUCache.Put | common/lru/lru_cache.cpp:55-69 | The list and both maps refine Put on the recency sequence |
| LruCache.LRUCache.EvictLast | common/lru/lru_cache.cpp:57-62 | The last key leaves the list and both maps |
| LruCache.LRUCache.PushNode | common/lru/lru_cache.cpp:63-68 | The new key is in front and in both maps |
| LruCache.LRUCache.SetCapacity | common/lru/lru_cache.cpp:72-82 | Evicts down to the new capacity |
| LruCache.LRUCache.Flush | common/lru/lru_cache.cpp:90-96 | Empties everything, counters included |
| LevelStore.StepRefines | chain/storage/leveldb.cpp:163-243 | Every operation keeps database, batch and cache in step with the last-write map |
| LevelStore.RunRefines | chain/storage/leveldb.cpp:163-243 | Over any run the database overlaid by the batch is the last-write map, the database alone its saved part, and every cached value agrees |
| LevelStore.ReadExactly | chain/storage/leveldb.cpp:183-201 | GetValue returns the last write iff the key has a non-empty cached value or the write has reached the database |
| LevelStore.IndexExactly | chain/storage/leveldb.cpp:463-481 | Over any run the database holds under composite keys exactly the entries created or renamed to and not deleted, renamed away or cleared since, with no value |
| LevelStore.DroppedExactly | chain/storage/leveldb.cpp:503-519 | After a restart or a failed Clear reads give the database without the batch, after a Clear nothing |
| LevelStore.DroppedForGood | chain/storage/leveldb.cpp:503-519 | No later Flush brings that batch back |
| LevelStore.WrittenExactly | chain/storage/leveldb.cpp:163-181 | After any run a put reaches the database with the SetValue that brings the batch to its limit, or a Flush, iff that write succeeds |
| LevelStore.FlushingSaves | chain/storage/leveldb.cpp:170-180 | When every SetValue flushes the saved part is the whole last-write map |
| LevelStore.ReadsLastWrite | chain/storage/leveldb.cpp:183-201 | When every SetValue flushes GetValue is the last-write map, across evictions, Flush, Clear and restarts |
| LevelStore.UnflushedWriteUnread | chain/storage/leveldb.cpp:183-201 | Without a cache an unflushed write is not read |
| LevelStore.ResLevelDB.constructor | chain/storage/leveldb.cpp:48-72 | An empty store |
| LevelStore.ResLevelDB.SetValue | chain/storage/leveldb.cpp:163-181 | Caches, batches and writes out a due batch; fails iff that write fails |
| LevelStore.ResLevelDB.WriteBatch | chain/storage/leveldb.cpp:233-243 | A batch applies its puts in order |
| LevelStore.ResLevelDB.GetValue | chain/storage/leveldb.cpp:183-201 | Cache first, then database; never the batch |
| LevelStore.ResLevelDB.FlushBatch | chain/storage/leveldb.cpp:233-243 | Writes the batch and clears it iff the write succeeds |
| LevelStore.ResLevelDB.ClearAll | chain/storage/leveldb.cpp:503-519 | Deletes all keys, drops batch and cache whatever the status |
| LevelStore.ResLevelDB.CreateCompositeKey | chain/storage/leveldb.cpp:463-466 | Puts the index entry past the batch |
| LevelStore.ResLevelDB.DeleteCompositeKey | chain/storage/leveldb.cpp:468-471 | Deletes the index entry past the batch |
| LevelStore.ResLevelDB.UpdateCompositeKey | chain/storage/leveldb.cpp:473-481 | Deletes the old entry and puts the new one in one write |
| Histories.SetVersionAgrees | chain/storage/memory_db.cpp:95-107 | Both backends accept the same versioned writes and keep versions 1..n |
| Histories.GetVersionAgrees | chain/storage/leveldb.cpp:273-298 | Both return the asked version if stored, else the newest |
| Histories.HistoryExactly | chain/storage/memory_db.cpp:164-183 | Both history queries return exactly the stored versions of the range, descending |
| Histories.DescendingIsRange | chain/storage/leveldb.cpp:384-405 | One entry for every version from the upper to the lower bound |
| Histories.NewestFirst | chain/storage/memory_db.cpp:185-202 | MemoryDB's top entries are the newest first, as many as asked for and stored but at least one |
| Histories.TopOrNone | chain/storage/leveldb.cpp:408-425 | ResLevelDB's top entries are the newest first, as many as asked for and stored |
| Histories.TopHistoryExactly | chain/storage/memory_db.cpp:185-202 | The backends' top entries agree iff more than none are asked for or none are stored |
| Histories.ScansExactly | chain/storage/leveldb.cpp:325-381 | Scans agree iff no stored key in range looks like an index entry |
| Histories.VersionsAgree | chain/storage/memory_db.cpp:95-202 | Over every run of version operations the backends hold the same histories, versions exactly 1..n, and answer a request alike iff it is none of the two exceptions above |
| Histories.TopZeroDiffers | chain/storage/memory_db.cpp:185-202 | After one write the backends differ on the top zero entries of the key |
| Histories.ScanDiffers | chain/storage/leveldb.cpp:325-381 | After one write under a key that starts like an index entry they differ on every scan that reaches it |
| Histories.VersionWriteExactly | chain/storage/memory_db.cpp:95-107 | After any run, in both backends, a versioned write is accepted iff it names the number of versions stored, and then adds its value as the next version and changes nothing else |
| Histories.VersionReadExactly | chain/storage/memory_db.cpp:109-129 | After any run both backends give the asked version if stored, else the newest |
| Histories.ScanReads | chain/storage/memory_db.cpp:143-162 | After any run a scan gives for each key in range what reading its newest version gives |
| Histories.TopExactly | chain/storage/memory_db.cpp:185-202 | After any run: how many of the newest entries each backend gives for every number asked for, negative ones included |
| Histories.SetSeqAgrees | chain/storage/leveldb.cpp:100-137 | Both accept the same sequenced writes and keep the same bounded, rising history |
| Histories.GetSeqAgrees | chain/storage/memory_db.cpp:60-77 | MemoryDB's early exit and ResLevelDB's full search give the same answer |
| Histories.AllSeqsAgree | chain/storage/leveldb.cpp:302-322 | Listing all sequenced histories gives the same lists |
| Histories.SeqsAgree | chain/storage/memory_db.cpp:60-93 | Over every run of sequence operations the backends agree on histories and answers |
| Histories.SeqWriteExactly | chain/storage/memory_db.cpp:79-93 | After any run, in both backends, a sequenced write is accepted iff it is not below the newest; the history is then the end of the old one with the new item behind it, as long as the limit allows, and the newest read returns that item |
| Histories.SeqReadExactly | chain/storage/memory_db.cpp:60-77 | After any run both backends give the newest item for zero, else the newest item with that sequence or nothing |
| Histories.DropOldest | chain/storage/memory_db.cpp:89-91 | Keeps exactly the newest entries within the limit |
| Histories.OutsideRange | chain/storage/leveldb.cpp:361-363 | Before the seek and after the stop no key is in range |
| Histories.MemoryDB.SetValueWithVersion | chain/storage/memory_db.cpp:95-107 | Appends the next version or refuses |
| Histories.MemoryDB.GetValueWithVersion | chain/storage/memory_db.cpp:109-129 | The backward do-while with its early exit |
| Histories.MemoryDB.GetHistory | chain/storage/memory_db.cpp:164-183 | The backward do-while over a version range |
| Histories.MemoryDB.GetTopHistory | chain/storage/memory_db.cpp:185-202 | Nothing for an unknown key, else the walk from the newest entry |
| Histories.MemoryDB.WalkBack | chain/storage/memory_db.cpp:192-200 | Pushes before it counts |
| Histories.MemoryDB.ScanKeys | chain/storage/memory_db.cpp:143-162 | The newest entry of every key in range |
| Histories.MemoryDB.SetValueWithSeq | chain/storage/memory_db.cpp:79-93 | Appends unless the sequence is below the last, then drops the oldest |
| Histories.MemoryDB.GetValueWithSeq | chain/storage/memory_db.cpp:60-77 | The backward do-while with its early exit |
| LevelStore.SettledRead | chain/storage/leveldb.cpp:183-201 | When every put is written out, GetValue is the database's value and keeps it so |
| LevelStore.SettledSet | chain/storage/leveldb.cpp:163-181 | SetValue then changes exactly one key of the database, or none if the write fails |
| StoredHistories.DecodedUpdate | chain/storage/leveldb.cpp:264-270 | Storing a serialised history changes exactly that history |
| StoredHistories.DecodedCkpt | chain/storage/leveldb.cpp:443-446 | Storing the checkpoint changes no history but its own key |
| StoredHistories.CounterLags | chain/storage/leveldb.cpp:429-441 | The counter is the greatest sequence seen; the stored checkpoint was that when the number of counted updates was last a multiple of a hundred |
| StoredHistories.CountsNewest | chain/storage/leveldb.cpp:114-137 | The counter takes the sequence of an accepted write, and the newest stored one on a refusal, unless it is further already |
| StoredHistories.FindVersion | chain/storage/leveldb.cpp:285-293 | The backward search with its early exit |
| StoredHistories.FindSeq | chain/storage/leveldb.cpp:150-156 | The backward search without an early exit |
| StoredHistories.RangeOf | chain/storage/leveldb.cpp:394-402 | The backward search over a version range |
| StoredHistories.TopOf | chain/storage/leveldb.cpp:418-422 | Counts before it pushes |
| StoredHistories.Walk | chain/storage/leveldb.cpp:361-378 | The iterator loop, skipping index entries, unparsable values and empty histories |
| StoredHistories.WalkAll | chain/storage/leveldb.cpp:302-322 | The iterator loop over all sequenced histories |
| StoredHistories.LevelHistories.constructor | chain/storage/leveldb.cpp:48-72 | An empty store with a counter at zero |
| StoredHistories.LevelHistories.Load | chain/storage/leveldb.cpp:247-252 | The stored history of a key through cache and database |
| StoredHistories.LevelHistories.Save | chain/storage/leveldb.cpp:269-270 | Replaces one history, or answers -1 and leaves the database alone |
| StoredHistories.LevelHistories.SetValueWithVersion | chain/storage/leveldb.cpp:245-271 | Appends the next version, refuses with -2, or answers -1 on a failing write |
| StoredHistories.LevelHistories.GetValueWithVersion | chain/storage/leveldb.cpp:273-298 | The asked version, else the newest |
| StoredHistories.LevelHistories.GetHistory | chain/storage/leveldb.cpp:384-405 | The stored versions of the range, descending |
| StoredHistories.LevelHistories.GetTopHistory | chain/storage/leveldb.cpp:408-425 | The newest entries, as many as asked for |
| StoredHistories.LevelHistories.GetAllItems | chain/storage/leveldb.cpp:325-350 | The newest entry of every key that is not an index entry |
| StoredHistories.LevelHistories.GetKeyRange | chain/storage/leveldb.cpp:353-381 | Seek, walk and early stop return exactly the keys in range that are not index entries |
| StoredHistories.LevelHistories.GetAllItemsWithSeq | chain/storage/leveldb.cpp:302-322 | All sequenced histories that are not empty |
| StoredHistories.LevelHistories.SetValueWithSeq | chain/storage/leveldb.cpp:100-137 | Appends unless the sequence is below the last, drops the oldest, counts towards the checkpoint, and answers each failure; the counter takes the sequence written, or the newest stored one on a refusal |
| StoredHistories.LevelHistories.GetValueWithSeq | chain/storage/leveldb.cpp:139-161 | The value of a sequence, or the newest for zero |
| StoredHistories.LevelHistories.UpdateLastCkpt | chain/storage/leveldb.cpp:429-441 | Counts an update and stores the checkpoint on every hundredth |
| StoredHistories.LevelHistories.GetLastCheckpoint | chain/storage/leveldb.cpp:448-461 | The counter if it has run, else the stored checkpoint |
| Ledger.MarkTakesOut | executor/utxo/manager/tx_mempool.cpp:90-105 | Marking takes an unspent output out of every sum that counts it and changes nothing else |
| Ledger.MarkAllTakesOut | executor/utxo/manager/transaction.cpp:160-167 | Marking all inputs takes out each distinct one once |
| Ledger.AcceptsExactly | executor/utxo/manager/transaction.cpp:82-153 | A transaction with inputs is accepted iff every input names an unspent output of the sender, all under one key, the signature is not empty and verifies with that key for the sum of the previous ids, and the wrapped difference of the sums is positive |
| Ledger.NonceAdds | executor/utxo/manager/transaction.cpp:99-113 | The signed number adds up the previous ids, input by input |
| Ledger.SpendTotalSplit | executor/utxo/manager/transaction.cpp:160-167 | The spent sum adds up input by input |
| Ledger.ValueSplit | executor/utxo/manager/transaction.cpp:143-147 | The paid sum adds up output by output |
| Ledger.SumsOfOne | executor/utxo/manager/transaction.cpp:135-167 | One input counts for its output's value, one output for its own |
| Ledger.RecordedUnderId | executor/utxo/manager/transaction.cpp:70-70 | An accepted transaction is found as submitted under the answered id, the next one; earlier ones change only in the spent flags of its inputs |
| Ledger.AcceptedEffects | executor/utxo/manager/transaction.cpp:54-71 | What an accepted transaction does to every balance and to the unspent outputs |
| Ledger.BalanceExactly | executor/utxo/manager/transaction.cpp:160-183 | An accepted transaction keeps balances exact iff outputs submitted as spent offset what repeated inputs count twice, address by address |
| Ledger.SpendWithinTotal | executor/utxo/manager/transaction.cpp:160-167 | Distinct inputs are worth at most the unspent total |
| Ledger.VerifyIsExact | executor/utxo/manager/transaction.cpp:135-153 | For every transaction the value test looks at the true difference of the sums wrapped once; within int64 it is the true comparison |
| Ledger.PaysLess | executor/utxo/manager/transaction.cpp:135-153 | An accepted transaction pays out less than it spends iff the difference is not below the least int64; a well-formed one always does |
| Ledger.TotalExactly | executor/utxo/manager/transaction.cpp:54-71 | For every accepted transaction the unspent total falls iff its unspent outputs are worth less than its distinct inputs |
| Ledger.InvExactly | executor/utxo/manager/transaction.cpp:54-71 | For every accepted transaction the invariant survives iff it is evenly paid, has no negative output and keeps the total within its bound |
| Ledger.InvRunExactly | executor/utxo/manager/transaction.cpp:33-71 | Over every run, whatever is submitted, the invariant holds in every state iff it holds after genesis and every accepted transaction is of that kind |
| Ledger.AssertExactly | executor/utxo/manager/transaction.cpp:160-167 | For an accepted transaction the assert in the marking loop holds iff none of the outputs it spends is negative |
| Ledger.AssertsRunExactly | executor/utxo/manager/transaction.cpp:160-167 | Over every run the assert never fails iff no accepted transaction spends a negative output |
| Ledger.NegativeOutputSpent | executor/utxo/manager/transaction.cpp:160-167 | From any state two accepted transactions, a mint of -1 and its signed spending, after which the assert fails |
| Ledger.StepKeepsInv | executor/utxo/manager/transaction.cpp:54-71 | So a well-formed transaction keeps the invariant; acceptance strictly lowers the unspent total and AddCoin's assert holds; rejection changes nothing |
| Ledger.BalancedRunExactly | executor/utxo/manager/transaction.cpp:33-71 | Over every run, whatever is submitted, every balance is the sum of its unspent outputs in every state iff genesis and every accepted transaction are evenly paid |
| Ledger.BalancesSummarise | executor/utxo/manager/transaction.cpp:33-71 | With well-formed transactions each balance is the sum of that address's unspent outputs, non-negative and at most the genesis total, in every reachable state |
| Ledger.NoDoubleSpend | executor/utxo/manager/tx_mempool.cpp:51-56 | Over any run, whatever is submitted, no output is consumed by two accepted transactions |
| Ledger.NoInputsExactly | executor/utxo/manager/transaction.cpp:84-88 | A transaction without inputs is accepted iff it comes from the mint address and the value test passes on its outputs alone; with non-negative outputs never |
| Ledger.NegativeOutputPays | executor/utxo/manager/transaction.cpp:143-147 | Why outputs must not be negative: without inputs or signature one balance grows by v while another falls by v + 1 |
| Ledger.OverflowGrowsTotal | executor/utxo/manager/transaction.cpp:135-153 | Why sums must fit int64: one signed input pays for two largest outputs, and the unspent total grows |
| Ledger.RepeatedInputGrowsTotal | executor/utxo/manager/transaction.cpp:82-133 | Why inputs must be distinct: signed once for its doubled nonce, a repeated input counts twice and the unspent total grows |
| Ledger.TxMempool.AddUTXO | executor/utxo/manager/tx_mempool.cpp:30-35 | Appends the transaction under the next id |
| Ledger.TxMempool.MarkSpent | executor/utxo/manager/tx_mempool.cpp:90-105 | Sets one spent flag and returns the value, or an error for a missing output |
| Ledger.TxMempool.GetUnspent | executor/utxo/manager/tx_mempool.cpp:37-62 | The output iff it exists, is unspent and belongs to the address |
| Ledger.Wallet.Add | executor/utxo/manager/wallet.cpp:30-33 | Adds to one balance |
| Ledger.Transaction.constructor | executor/utxo/manager/transaction.cpp:33-50 | The genesis transactions paid into whatever the wallet holds |
| Ledger.Transaction.Credit | executor/utxo/manager/transaction.cpp:169-180 | Credits every output to its address |
| Ledger.Transaction.CollectInputs | executor/utxo/manager/transaction.cpp:90-113 | The spendable inputs, the first key among them and the sum of ids, or failure |
| Ledger.Transaction.Inputs | executor/utxo/manager/transaction.cpp:82-133 | GetInput with each of its rejections |
| Ledger.Transaction.Verify | executor/utxo/manager/transaction.cpp:135-153 | The value test with 64-bit wrap-around |
| Ledger.Transaction.Spend | executor/utxo/manager/transaction.cpp:160-167 | Marks every input and sums their values |
| Ledger.Transaction.Submit | executor/utxo/manager/transaction.cpp:54-71 | Accepts and applies, or rejects and changes nothing |

## Left out

- `TransactionExecutor`: the out-of-order path, `AddExecuteMessage`, the promise and prepare path, response handling, and everything from `Stop` on; runs end before it.
- Ordering: `SetPendingExecutedSeq` is called once, before the first commit; the pre-execute and sequence-update callbacks are not modelled.
- Condition variables and lock-free queues: waiting is an action that is enabled when its condition holds, queues are FIFO.
- GeoOrder: building and sending the responses of executed requests.
- DuplicateWindow: the proposed half (the same code without a sequence map), `EraseProposed` and `EraseExecuted`; the sleep between sweeps. Clock readings are parameters, and the run theorems take them to be monotone.
- Framing: partial or failing `write` and `read` calls, and the system-information frame at the start of a PBFT file.
- Framing.ParseEncode: buffers shorter than 2^64 bytes, the range of `size_t`.
- Framing.ParseData: a record length that would wrap `pos` around 64 bits is a clipped record, and a record header cut inside a frame (undefined behaviour) is a `None`; flushed frames contain neither, a hole filled by later appends can contain the second.
- GroupCommit: failing `fsync`; enqueueing after `Stop`, which the destructor calls; the discarded future of `TruncateLog` is counted like any other.
- RaftReplay: the metadata file with term and vote.
- RaftFiles.EntriesExactly: for histories without truncations; with them a skipped record can be undone later, so `RebuildsExactly` compares after every record and every file.
- RaftCrash: parsing of a record is a function; the names of the files are arbitrary.
- LogFiles: two files with the same time stamp; a ".log" file whose name holds no numbers, on which the code throws; `FinishFile` given up when the storage flush fails.
- PbftFiles: pairing of requests with signatures (records are whole), `GetSortedRecoveryFiles` and peer data requests.
- FileNames: numbers too large for 64 bits, on which `stoll` throws.
- CompositeKey: null output pointers of the decoder.
- LruCache.LRUCache.Put: a capacity of zero, where the code takes the back of an empty list; negative capacities of the constructor and of `SetCapacity`.
- LruCache: the hit ratio.
- LevelStore: LevelDB is a finite map with atomic batch writes whose outcome is a parameter; the approximate size of a batch is an uninterpreted function; options, paths and metrics.
- Histories: versions beyond 32 bits; `GetRange` over plain values.
- StoredHistories: protobuf and decimal conversions are functions that read back what they print; a store whose batch is not written out at once, where `LevelStore.ReadExactly` says what is read; `SetValue` of other values under history keys.
- Ledger: signature checking is an uninterpreted predicate; negative output indices (undefined behaviour); wrap-around of the nonce and of wallet balances, which `BalancesSummarise` keeps within the genesis total, so that a total within int64 rules it out; `GetUTXO` listings; a failing assert ends the process, while the model goes on past it.
- Ledger.StepKeepsInv: for well-formed transactions; `InvExactly` is exact for all.
- Ledger.BalancesSummarise: for transactions with distinct inputs, non-negative outputs submitted unspent and output sums within int64; `BalancedRunExactly`, `InvRunExactly` and `TotalExactly` are exact for all transactions.
- The PBFT, Raft, PoE and Thunderbolt protocols, networking, cryptography, contract execution, configuration and statistics.
