# matrixcube: a verified model of the shard store's core

matrixcube keeps many raft groups ("shards") in one store. Each shard owns a half-open key range, has a raft
log in the metadata storage and key-value data in a data storage, and is worked on by two actors: an event loop
that persists what raft hands out, and an apply worker that executes committed entries. This project models that
core and proves what it is meant to keep. `dafny verify dfyconfig.toml` checks all of it.

| files | what they model |
|---|---|
| `Options`, `Bytes`, `Shards`, `Keys` | byte order, shard metadata, data keys and raft keys, range clean-up |
| `ShardIndex`, `Split` | the range index, batch split and the routing after it |
| `RaftLog`, `Pipeline`, `PipelineInvariant`, `PipelineEffects`, `Compaction`, `LogRefinement`, `PeerReplica` | the durable log, the event loop and the apply worker as one state machine with crashes, its invariant, what its steps must accomplish, its refinement of a plain log, and the imperative code tied to it |
| `Commands`, `StaleAnswers`, `ApplyJobs`, `Responses` | the queue of pending commands, when its answers are right, the job queue between event loop and worker, pairing of replies with requests |
| `Epochs`, `Replay` | the epoch check over a run of applied commands, crash and replay of data writes |
| `ReadIndex` | the queue of linearizable reads, filtered in place |
| `KVStorage`, `SplitCheck`, `Snapshots` | the in-memory storage, its split check and its snapshot file |
| `ShardPool`, `ShardPoolInvariant` | the pool of shards created ahead of use |

Code that updates state is modelled by classes and loops, each proved equal to a specification function; the
theorems are about those functions and about whole runs. Code outside the model enters as parameters (outcomes of
storage writes, iteration order of a map, identifiers handed out) or as a stated contract on the events of a run:

- raft (`Pipeline.Enabled`): a snapshot lies above the persisted commit index and comes with a hard state that
  commits it; new entries are contiguous, lie above the commit index and have non-decreasing terms; committed
  entries follow the last ones handed out; a compaction command names the term the log has at its index.
- proposals (`ApplyJobs.Enabled`): a request ID is drawn anew for every proposal, and raft's term never decreases.
  When raft hands out a committed entry, terms do not decrease, and the entry of a command proposed here is in the
  term of the proposal, has not been handed out before, comes in the order of the proposals of its term, and is not
  covered by a snapshot installed since. That a command is queued before its entry is not assumed: it follows from
  the event loop's order of calls and the first-in-first-out worker queue.
- storage: one write batch is atomic in the metadata storage. In the data storage it need not be: `Replay` lets a
  crash tear a batch between any two operations.

Where a promise turned out not to hold everywhere, the exact condition is proved:

- A command answered as stale may be applied later. Raft forwards a proposal made by a leader that has just been
  deposed, and the new leader commits it in its own term under an ID that is not pending there; the search for its
  command then declares waiting commands of that term stale. Answers are right if and only if no such request comes
  between a proposal and its entry (`StaleAnswers.AnswersAreRightExactlyWhen`, over whole runs
  `ApplyJobs.WorkerAnswersRightExactlyWhen`, with `ApplyJobs.ForwardedRequestOvertakes` as a run that fails).
- A write that ignores the epoch check executes outside its shard if and only if a split has cut its key away since
  it was stamped (`Epochs.WriteMissesTheShardExactlyWhen`).
- The encoded range of a shard without an end is empty in the group with the largest 64-bit number
  (`Keys.EncodedRangeIsShardRange`, `Keys.LastGroupLosesItsData`).
- The clean-up after a range change is exact if and only if the old and new ranges overlap or touch
  (`Keys.ExtraDeletionIsExact`).
- A snapshot is installed if and only if both its bounds are non-empty (`Snapshots.SnapshotTransfersRange`).

## Model

| member | source | states |
|---|---|---|
| Bytes.BigEndianOrder | raftstore/keys.go:155-178 | Fixed-width big-endian numbers sort as numbers, whatever bytes follow them |
| Shards.OverlapMeansSharedKey | util/btree_shard.go:72-115 | The comparison of bounds used for overlaps holds exactly when some key lies in both ranges, an empty end meaning infinity |
| Keys.DataKeyRoundTrip | raftstore/keys.go:187-197 | Decoding undoes encoding of data keys |
| Keys.DataKeyOrder | raftstore/keys.go:169-192 | Encoded data keys sort by group, then by key, in both directions |
| Keys.DataMaxKeyBounds | raftstore/keys.go:199-206 | The upper bound of a group is above exactly the keys of groups up to it, except that the last group has none |
| Keys.EncodedRangeIsShardRange | raftstore/keys.go:208-232 | A key is in the shard if and only if its encoding is in the encoded range, with the one exception spelled out |
| Keys.LastGroupLosesItsData | raftstore/keys.go:199-232 | A concrete shard of the last group whose own key is outside its encoded range |
| Keys.ScannedKeyBelongsToShard | raftstore/keys.go:215-232 | Whatever a scan of the encoded range meets belongs to the shard |
| Keys.RaftLogIndexRoundTrip | raftstore/keys.go:142-167 | The log index is read back from a log key, and from no other metadata key |
| Keys.RaftKeyOrder | raftstore/keys.go:120-167 | Metadata keys of all shards sort by shard, then kind, then log index, so scans of log ranges meet exactly those entries |
| Keys.ClearExtraData | raftstore/store.go:1057-1087 | The ranges handed to range deletion when a shard's range changes |
| Keys.ExtraDeletionIsExact | raftstore/store.go:1057-1087 | Those ranges cover exactly the old range minus the new one if and only if the two overlap or touch |
| Keys.ReplacedShardKeepsOnlyItsKeys | raftstore/store.go:1057-1087 | For overlapping shards a user key is removed exactly when the old shard held it and the new one does not |
| ShardIndex.DeleteItemAt | util/btree_shard.go:109-111 | Deleting by start key removes exactly the item at its position |
| ShardIndex.InsertItemAt | util/btree_shard.go:113-113 | Insertion puts the shard at its place in the reversed order |
| ShardIndex.SpliceIsUpdate | util/btree_shard.go:85-115 | Replacing the overlapping run by the new shard keeps order and disjointness and drops exactly the overlapping shards |
| ShardIndex.LookupFinds | util/btree_shard.go:187-199 | The only shard that holds a key is the one looked up |
| ShardIndex.LookupMisses | util/btree_shard.go:187-199 | The zero shard is returned when no shard holds the key |
| ShardIndex.ShardTree.Find | util/btree_shard.go:201-218 | The first item in reversed order decides: it holds the key or none does |
| ShardIndex.ShardTree.CollectOverlaps | util/btree_shard.go:89-107 | The walk from the pivot collects exactly the overlapping shards, also for a range that holds no key |
| ShardIndex.ShardTree.Update | util/btree_shard.go:85-115 | Afterwards the index holds the shard and exactly those others that neither overlap it nor have its start, in order; for a range that holds a key they are still pairwise disjoint |
| ShardIndex.ShardTree.Remove | util/btree_shard.go:120-132 | Removes the shard found at the start key exactly when its ID matches, and nothing else |
| ShardIndex.ShardTree.Search | util/btree_shard.go:187-199 | Agrees with looking through the set of ranges |
| ShardIndex.ShardTree.NextShard | util/btree_shard.go:144-167 | The shard with the least start above the given one, or none if there is none |
| ShardIndex.ShardTree.AscendRange | util/btree_shard.go:170-184 | Visits in ascending order exactly the shards starting in the range, up to the first refusal |
| Split.ExecSplit | raftstore/peer_apply_exec.go:319-426 | Splits exactly the splittable requests, into the specified derived and new shards; otherwise reports the first faulty request or the last key outside the shard |
| Split.CollectKeys | raftstore/peer_apply_exec.go:335-364 | The collected keys are the increasing boundaries, or the first fault is returned |
| Split.BuildShards | raftstore/peer_apply_exec.go:366-389 | Popping the deque gives each new shard its own pair of neighbouring boundaries, the raised epoch and its peers |
| Split.RefusalIsExplained | raftstore/peer_apply_exec.go:323-364 | Each kind of refusal tells what is wrong: no requests, or with the first request out of order an empty key, one too short to decode, one not above the key before, or a wrong number of peer IDs; or a last key outside the shard |
| Split.ChildrenAreWellFormed | raftstore/peer_apply_exec.go:366-389 | Each child is a non-empty range between neighbouring boundaries, with the version raised by the number of new shards |
| Split.NewShardIsAsRequested | raftstore/peer_apply_exec.go:366-389 | The i-th new shard has the ID, the peer IDs and the start of the i-th request, its peers sit on the parent's stores, group, name, rule groups and flag are the parent's, and the version has grown by the number of requests |
| Split.DerivedIsTheSameShard | raftstore/peer_apply_exec.go:366-368 | The derived shard keeps ID, peers, start and everything else but its end and version |
| Split.ChildIDsDiffer | raftstore/peer_apply_exec.go:370-389 | With fresh IDs no two children share one |
| Split.ChildrenPartitionParent | raftstore/peer_apply_exec.go:366-389 | A key is in the parent if and only if it is in some child, and never in two |
| Split.UpdateAddsChild | raftstore/peer_event_post_apply.go:194-238 | Each index update adds one more child and disturbs no other shard |
| Split.SplitRouting | raftstore/peer_event_post_apply.go:194-238 | After all updates every parent key is found in its child and every other lookup is unchanged |
| Split.ApplySplit | raftstore/peer_event_post_apply.go:187-238 | The loop over the new shards establishes that routing in the index |
| RaftLog.AppendEntries | raftstore/peer_event_raft_ready.go:240-278 | The batch writes the new entries and deletes every old one above their end |
| RaftLog.ClearMeta | raftstore/store.go:621-675 | The batch leaves nothing of the shard's metadata |
| RaftLog.ScanEntries | raftstore/peer_storage.go:453-472 | On a stored range the scan returns the longest contiguous run within the limit, at least one entry |
| RaftLog.Entries | raftstore/peer_storage.go:415-484 | The three errors of the range check on exactly their ranges; under the log invariant everything else is answered, with the longest fitting prefix |
| RaftLog.TermIsStoredTerm | raftstore/peer_storage.go:486-521 | Inside the window the answer is the stored term, shortcut or not; outside it the two errors |
| RaftLog.TotalSizeConcat | raftstore/peer_storage.go:464-466 | The size held against the limit is the sum of the entries' sizes |
| RaftLog.ShortcutNeedsOrderedTerms | raftstore/peer_storage.go:501-503 | A log with decreasing terms on which the shortcut is wrong |
| PipelineInvariant.SnapshotFindsWorkerIdle | raftstore/peer_event_raft_ready.go:64-113 | A snapshot is taken in only when no entry is queued, no result is unread and everything handed out is applied |
| PipelineInvariant.ReadySnapshot | raftstore/peer_event_raft_ready.go:177-222 | Taking in a snapshot, with entries above it, keeps the invariant |
| PipelineInvariant.ReadyAppend | raftstore/peer_event_raft_ready.go:224-310 | Appending entries and saving state keeps the invariant |
| PipelineInvariant.CommittedPartUnchanged | raftstore/peer_event_raft_ready.go:240-278 | Changes above the commit index leave queued work and unread results sound |
| PipelineInvariant.ReadyCommitted | raftstore/peer_event_raft_ready.go:391-425 | Handing committed entries to the worker keeps the invariant |
| PipelineInvariant.ReadyPreserves | raftstore/peer_event_raft_ready.go:64-162 | Every ready, skipped or not, with or without a delegate, keeps the invariant |
| PipelineInvariant.PollState | raftstore/peer_event_post_apply.go:48-87 | A polled result follows the event loop's apply state, and no snapshot is being applied then |
| PipelineInvariant.PollPreserves | raftstore/peer_event_post_apply.go:275-294 | The size-hint update has a positive divisor and no underflow, the hint never grows, and the invariant is kept |
| PipelineInvariant.NextEntryIsExpected | raftstore/peer_apply.go:390-411 | The next queued entry has the index the delegate expects and a positive term |
| PipelineInvariant.WorkEntry | raftstore/peer_apply.go:390-487 | Applying an entry, compaction and self-removal included, keeps the invariant |
| PipelineInvariant.WorkCollect | raftstore/peer_apply.go:74-116 | Physical log collection keeps the window the event loop sees |
| PipelineInvariant.WorkPreserves | raftstore/peer_apply.go:36-193 | Every job of the worker runs without abort and keeps the invariant |
| PipelineInvariant.RestartRecovers | raftstore/peer_storage.go:61-187 | A restart at any point reloads the persisted hard state, last index and apply state, derives the same last term and finds the whole window |
| PipelineInvariant.CrashPreserves | raftstore/store.go:452-520 | The restarted replica satisfies the invariant |
| PipelineInvariant.InitialLive | raftstore/store.go:1005-1022 | The initial state written for a new shard satisfies the invariant |
| PipelineInvariant.StepPreserves | raftstore/peer_event_raft_ready.go:64-113 | Every step of either actor, and a crash, keeps the invariant and reaches no abort |
| PipelineInvariant.RunsNeverAbort | raftstore/peer_apply.go:390-411 | No interleaving of readies, polls, jobs and crashes reaches an abort: index mismatch, zero term, apply during snapshot, arithmetic, lost entries |
| PipelineInvariant.ReadyIndexIsAppliedPlusQueued | raftstore/peer_event_raft_ready.go:391-425 | At every point of every run the last ready index is the delegate's applied index plus the queued entries |
| PipelineEffects.HardStateIsKept | raftstore/peer_event_raft_ready.go:117-162 | At every point of every run memory and a restart both have the term, vote and commit index of the last ready that was not deferred and carried them |
| PipelineEffects.SnapshotIsRetried | raftstore/store.go:491-497 | At every point of every run a restart applies the last snapshot again if and only if no job has applied it |
| PipelineEffects.EntriesAreTakenUpInOrder | raftstore/peer_event_raft_ready.go:391-425 | Between crashes the worker takes up exactly the entries handed out, each once and in order |
| Compaction.EntryTakesEffect | raftstore/peer_apply.go:390-487 | The posted and stored apply state after any entry: index, truncated state, removal exactly for an effective removal of this peer |
| Compaction.CompactionReachesTheLog | raftstore/peer_apply_exec.go:428-460 | A compaction command, applied and polled, moves the start of the log to its index and term if and only if that index lies above the first kept and within the applied ones and its term is positive |
| Compaction.HintCountsData | raftstore/peer_event_raft_ready.go:413-415 | The size hint grows by the data handed out and restarts with a snapshot |
| Compaction.HintIsScaled | raftstore/peer_event_post_apply.go:275-282 | A compaction leaves the hint times the share of the log that remains, rounded down |
| Compaction.CompactedEntriesAreCollected | raftstore/peer_event_post_apply.go:275-294 | At every point of every run a compacted entry is still stored only while a job that removes it is queued |
| LogRefinement.AppendedSlots | raftstore/peer_event_raft_ready.go:240-278 | On the plain log an append is: cut at the first new index, then extend |
| LogRefinement.ReadyRefines | raftstore/peer_event_raft_ready.go:177-278 | A ready is an append, an installation or nothing on the plain log |
| LogRefinement.PollRefines | raftstore/peer_event_post_apply.go:48-63 | Polling a result is a compaction or nothing |
| LogRefinement.WorkRefines | raftstore/peer_apply.go:74-116 | No job of the worker changes the log the event loop sees |
| LogRefinement.CrashRefines | raftstore/peer_storage.go:61-187 | A crash can at most bring forward a compaction that was already persisted |
| LogRefinement.RunsRefine | raftstore/peer_event_raft_ready.go:64-113 | Every run performs a sequence of plain-log operations, each applicable in its turn |
| LogRefinement.CommittedEntriesAreStable | raftstore/peer_event_raft_ready.go:240-278 | Short of a snapshot, no step changes a committed entry that stays in the window |
| PeerReplicas.PeerReplica.AppendReady | raftstore/peer_event_raft_ready.go:117-310 | The single batch leaves the specified metadata and states |
| PeerReplicas.PeerReplica.HandleReady | raftstore/peer_event_raft_ready.go:64-113 | The method performs the specified step, skipping a ready while a snapshot is applied, not yet applicable or not yet here |
| PeerReplicas.PeerReplica.ApplyCommittedEntries | raftstore/peer_event_raft_ready.go:391-425 | The loop adds the data sizes, moves the last ready index and queues one job per entry |
| PeerReplicas.PeerReplica.PollApply | raftstore/peer_event_post_apply.go:48-63 | The method performs the specified step or reports its abort |
| PeerReplicas.PeerReplica.CompactRaftLog | raftstore/peer_apply.go:74-116 | Deletes exactly the stored entries of the range, a zero start meaning the first stored one |
| PeerReplicas.PeerReplica.RunJob | raftstore/peer_apply.go:36-193 | The method performs the specified job, a failing snapshot included, or reports its abort |
| PeerReplicas.PeerReplica.ApplyEntry | raftstore/peer_apply.go:390-487 | One turn of the entry loop performs the specified step |
| Commands.ApplyDelegate.FindCB | raftstore/peer_apply.go:331-358 | Answers as stale exactly the commands passed over, and returns the entry's own command if it is found |
| Commands.ApplyDelegate.PopPendingCMD | raftstore/peer_apply.go:364-377 | Pops the head unless its term is above the entry's |
| Commands.ApplyDelegate.SweepBelow | raftstore/peer_apply.go:478-486 | An empty entry answers as stale exactly the leading commands of older terms |
| Commands.ApplyDelegate.AnswerAll | raftstore/peer_apply.go:318-329 | Every pending command is answered once, in order, and the queue is emptied |
| Commands.ApplyDelegate.ApplyEntry | raftstore/peer_apply.go:454-487 | Applying an entry performs the specified step of the queue |
| Commands.ApplyDelegate.AppendPending | raftstore/peer_job.go:156-179 | A proposal is appended to the queue |
| Commands.ApplyDelegate.Reregister | raftstore/peer_apply.go:36-56 | Registering again answers everything pending as stale |
| Commands.AnsweredOrPendingExactlyOnce | raftstore/peer_apply.go:318-377 | Over any run, commands answered and commands pending are together the commands proposed, each as often as proposed |
| Commands.ResultsBelongToTheirEntries | raftstore/peer_apply.go:601-611 | A result is only ever sent to the command whose request is applied at that moment |
| StaleAnswers.QueueStaysOrdered | raftstore/peer_apply.go:360-377 | In every trace the queue holds only commands kept here, in proposal order |
| StaleAnswers.PassedOverIsOver | raftstore/peer_apply.go:344-358 | Where nothing is overtaken, a command that the search passes over has no entry from there on |
| StaleAnswers.TrackingHolds | raftstore/peer_apply.go:344-377 | Where nothing is overtaken, every kept command that is not pending has no entry to come, at every point of the trace |
| StaleAnswers.ForeignSweeps | raftstore/peer_apply.go:344-358 | A request nobody here waits for answers every pending command of its term as stale |
| StaleAnswers.EmptyEntrySweeps | raftstore/peer_apply.go:478-486 | The empty entry of a new term answers every pending command of an older term as stale and leaves none |
| StaleAnswers.NormalEntrySweeps | raftstore/peer_apply.go:344-358 | So does any other entry of a later term |
| StaleAnswers.EndsAnswerEverything | raftstore/peer_apply.go:613-624 | A new registration answers all pending commands as stale, the end of the delegate as not found, and so is a proposal without a delegate |
| StaleAnswers.AnswersAreRightExactlyWhen | raftstore/peer_apply.go:344-377 | No stale answer is contradicted later if and only if no foreign request of a term comes between a command of that term and its entry; and every applied command gets its result under the same condition |
| StaleAnswers.SoleProposerSuffices | raftstore/peer_apply.go:344-377 | Answers are right when all requests of a term in which this peer proposed were kept here |
| StaleAnswers.ForwardedProposalBreaksStaleness | raftstore/peer_apply.go:344-358 | A trace that raft allows in which a forwarded request makes a stale answer false |
| ApplyJobs.ProposeKeepsBase | raftstore/peer_event_proposal.go:109-154 | A proposal job, queued after the call to raft, keeps every known fact of the trace, its own entry still to come |
| ApplyJobs.ApplyKeepsBase | raftstore/peer_event_raft_ready.go:391-425 | Queueing a handed-out entry keeps them, given what raft promises of that entry |
| ApplyJobs.RunsKeepInv | raftstore/peer_job.go:38-108 | Every interleaving of event loop, worker and destruction keeps them, and the worker has run the jobs in queueing order |
| ApplyJobs.WorkerAnswersRightExactlyWhen | raftstore/peer_event_proposal.go:109-154 | In every run the worker's own trace has a command's proposal before its entry, and its answers are right if and only if no kept command was overtaken |
| ApplyJobs.ForwardedRequestOvertakes | raftstore/peer_event_proposal.go:181-210 | A run within all promises that ends in a false stale answer |
| Responses.ExecWriteRequest | raftstore/peer_apply_exec.go:462-494 | One reply per request, from its own handler call, in order; a reply marked stale carries the error and the request with the decoded key |
| Responses.Resp | raftstore/cmd.go:89-129 | Aborts exactly on a partial answer; otherwise each reply carries the ID, SID and PID of its own request, and under an error the request with the decoded key |
| Responses.AnswerWrite | raftstore/peer_apply.go:536-611 | An executed write command is answered request by request with its handlers' replies, stale ones included, a refused one with the error, and neither aborts |
| Epochs.CheckEpoch | raftstore/store.go:868-914 | The flags accept exactly the commands that are fresh in what their kind depends on |
| Epochs.OnlySplitsMoveTheVersion | raftstore/peer_apply_exec.go:366-412 | A command leaves the version, and then the range, as they are exactly when it is not an effective split |
| Epochs.VersionCountsSplits | raftstore/peer_apply.go:536-547 | In every run the version never decreases, and stays the same exactly between effective splits |
| Epochs.VersionNamesTheRange | raftstore/peer_apply.go:536-547 | In every run the range changes only when the version grows |
| Epochs.WriteExecutesUnderItsVersion | raftstore/store.go:868-914 | A stamped write executes if and only if no split took effect since it was stamped, and then the shard holds exactly the keys it held then |
| Epochs.ConfVerCountsChanges | raftstore/peer_apply_exec.go:59-197 | In every run the configuration version never decreases, and stays the same exactly between changes that raise it |
| Epochs.CommandPassesExactlyWhen | raftstore/store.go:868-914 | A stamped command of each kind passes if and only if no split, no configuration change, or neither, took effect since, as its kind demands; without a header only the unchecked kinds pass |
| Epochs.KeyStaysUnlessCutAway | raftstore/peer_apply_exec.go:366-412 | Over every run a key stays in the shard exactly until an effective split has its first boundary at or below it |
| Epochs.WriteMissesTheShardExactlyWhen | raftstore/store.go:898-900 | A stamped write whose key was in the shard executes outside it if and only if it ignores the check and a split cut the key away in between |
| Epochs.IgnoredCheckMissesTheShard | raftstore/store.go:898-900 | The shortest run in which this happens |
| Replay.WriteBatch.Set | util/write_batch.go:46-57 | Appends one set to the batch |
| Replay.WriteBatch.Delete | util/write_batch.go:37-43 | Appends one delete to the batch |
| Replay.WriteBatch.WriteTo | storage/mem/storage.go:213-227 | Writing the batch is applying its operations in order |
| Replay.EffectDecides | storage/mem/storage.go:213-227 | After a batch each key has the value of the last operation on it, or its old value |
| Replay.FinishedBatch | raftstore/peer_apply.go:574-582 | A batch written to its end over leftovers of itself leaves what one clean write leaves |
| Replay.ApplyOpsConcat | util/write_batch.go:37-57 | Writing two batches is writing their concatenation |
| Replay.WriteReachesTheStore | raftstore/peer_apply.go:536-582 | A stamped write changes the content by its handlers' operations if and only if no split took effect since; every other command leaves it alone |
| Replay.StepStaysConsistent | raftstore/peer_apply.go:567-599 | Between any two writes the disk is the clean content at its applied index with the next batch in progress |
| Replay.ReplayEqualsUninterrupted | raftstore/peer_apply.go:567-599 | After any number of crashes anywhere, content and shard equal those of one uninterrupted application |
| Replay.NodeCanFinish | raftstore/peer_apply.go:567-599 | From every state between its writes the node can apply the rest of the log |
| ReadIndex.FilterInPlace | raftstore/batch.go:69-98 | Filtering into the array being read equals the functional filter |
| ReadIndex.WaitingKeepsPrefix | raftstore/batch.go:69-98 | Serving keeps the confirmed reads in front, as many as counted |
| ReadIndex.ServedSound | raftstore/batch.go:69-98 | Reads are served exactly when they have a read index that is applied |
| ReadIndex.ReadIndexQueue.Push | raftstore/batch.go:50-52 | Appends, moving to a larger array when full, as the run's step says |
| ReadIndex.ReadIndexQueue.Ready | raftstore/batch.go:54-67 | Confirms the next read and counts it |
| ReadIndex.ReadIndexQueue.DoReadLEAppliedIndex | raftstore/batch.go:69-98 | Executes exactly the servable reads, in order, and keeps the rest |
| ReadIndex.ReadIndexQueue.StaleAll | raftstore/batch.go:45-48 | Every queued read is answered stale and the queue is reset |
| ReadIndex.EveryReadOnceAndNotTooEarly | raftstore/peer_event_raft_ready.go:427-446 | Over any run the first counted reads are those with a read index, none is executed before it is applied, and each is queued, executed or stale exactly once |
| ReadIndex.ReadsWaitForTheirIndex | raftstore/batch.go:54-98 | In every run a read is executed only after raft confirmed it, at an applied index that has reached the confirmed one |
| ReadIndex.ServingLeavesNoneBehind | raftstore/batch.go:69-98 | After serving, every read left is unconfirmed or was confirmed at a later index |
| KVStorage.KVTree.Put | util/kv_btree.go:56-65 | The content becomes the old map with the key set |
| KVStorage.KVTree.Delete | util/kv_btree.go:68-75 | The content loses the key; the result says whether it was there |
| KVStorage.KVTree.RangeDelete | util/kv_btree.go:78-98 | The content loses exactly the keys of the range |
| KVStorage.KVTree.Get | util/kv_btree.go:101-120 | Reads the content |
| KVStorage.KVTree.Scan | util/kv_btree.go:143-166 | Hands the handler exactly the pairs of the range, in order, up to the first one at which it stops or fails |
| KVStorage.RangeMembers | util/kv_btree.go:143-166 | A scan holds exactly the stored pairs in range |
| KVStorage.RangeSorted | util/kv_btree.go:143-166 | A scan is in key order |
| SplitCheck.Check | storage/mem/storage.go:169-198 | Totals are exact, and each split key starts after a chunk of at least the size that is smaller without its last entry, a size of zero acting as one |
| SplitCheck.SumCountsBytes | storage/mem/storage.go:182-190 | The sizes are the byte counts of keys and decoded values |
| SplitCheck.ProposedKeysAreSplittable | raftstore/peer_apply_exec.go:335-364 | Keys proposed for an unchanged shard always pass the checks of the split |
| Snapshots.CreateSnapshot | storage/mem/storage.go:235-269 | Writes both bounds and every pair of the range, length-prefixed |
| Snapshots.ApplySnapshot | storage/mem/storage.go:272-319 | Reads the file field by field, clears the range and stores the pairs |
| Snapshots.ReadFieldInvertsField | storage/mem/storage.go:326-361 | The length-prefixed reader undoes the writer |
| Snapshots.ParseInvertsFile | storage/mem/storage.go:235-319 | Reading a written file gives back bounds and pairs, or the error for the missing bound |
| Snapshots.SnapshotTransfersRange | storage/mem/storage.go:235-319 | Inside the range the target equals the source, outside it is untouched; applied if and only if both bounds are non-empty |
| ShardPool.UniqueInjective | raftstore/store_shards_pool.go:402-404 | Printed names of different group and sequence numbers differ |
| ShardPool.PoolRangesDisjoint | raftstore/store_shards_pool.go:406-415 | Ranges of different sequence numbers under one prefix are non-empty and do not overlap |
| ShardPool.PoolShardHoldsItsNumber | raftstore/store_shards_pool.go:313-317 | A pool shard holds only keys with the pool's prefix, and of the numbered keys exactly those with its number |
| ShardPool.FindID | raftstore/store_shards_pool.go:219-228 | The visit returns the ID of the last resource with the name, or zero |
| ShardPool.DynamicShardsPool.DoAlloc | raftstore/store_shards_pool.go:195-250 | The reply and the new state, with the old state restored when the save fails |
| ShardPool.DynamicShardsPool.MaybeCreate | raftstore/store_shards_pool.go:300-336 | The shards sent to the scheduler and the new state, restored when the request or the save fails |
| ShardPoolInvariant.ResourceIDFinds | raftstore/store_shards_pool.go:218-231 | If a shard of the group bears the name, waiting or created, the visits find one that does |
| ShardPoolInvariant.AddedAreRegistered | components/prophet/cluster/cluster_worker.go:278-321 | After a request every shard in it is registered by its name, IDs stay distinct and nothing is forgotten |
| ShardPoolInvariant.GrowWalk | raftstore/store_shards_pool.go:308-319 | In any order of the walk each pool grows at most once, by the shard announced for it |
| ShardPoolInvariant.GrowsExactlyWhen | raftstore/store_shards_pool.go:310-312 | With up to eight pools each grows if and only if it never had a shard or its idle ones are fewer than its capacity |
| ShardPoolInvariant.AtMostEight | raftstore/store_shards_pool.go:310-312 | Pools that have shards never ask for more than eight at a time |
| ShardPoolInvariant.AllocAnswersExactlyWhen | raftstore/store_shards_pool.go:195-250 | An allocation is answered if and only if a shard is idle and the purpose is known or the save succeeds |
| ShardPoolInvariant.FirstRequestIsAnswered | raftstore/store_shards_pool.go:195-336 | Once shards were created for an empty pool, a request gets the first of them |
| ShardPoolInvariant.RunsKeepInv | raftstore/store_shards_pool.go:195-336 | The whole invariant, over every run of creation, allocation, failures, activation, registration of other shards and of split-off ones, and reload |
| ShardPoolInvariant.PoolInvariant | raftstore/store_shards_pool.go:195-336 | In every reachable state idle shards number between 0 and the larger of 1 and the capacity, offsets count the entries, and purposes are distinct |
| ShardPoolInvariant.ShardIsNeverMissing | raftstore/store_shards_pool.go:229-231 | The abort for a missing allocated shard is unreachable |
| ShardPoolInvariant.SameShardIffSamePurpose | raftstore/store_shards_pool.go:205-213 | Two answers in a run name the same shard if and only if group and purpose are the same |
| ShardPoolInvariant.CreatedRangesAreDisjoint | raftstore/store_shards_pool.go:313-317 | Differently named shards ever created in one group do not overlap |
| ShardPoolInvariant.ReloadLosesNothing | raftstore/store_shards_pool.go:116-150 | After any failures the saved state is the state in memory |

## Left out

- Raft itself (elections, replication, snapshots on the wire): a vendored library, present only as the contract above.
- Bookkeeping of peers and roles in configuration changes: a change is an opaque step that keeps range and version and raises the configuration version; removal of the own peer is modelled.
- Callbacks of admin commands and the slot for a pending configuration change: the slot is not cleared after a match, so no exactly-once claim is made for it.
- Commands.ApplyDelegate.FindCB: the branch for a configuration change, which looks at that slot only.
- Commands.ApplyDelegate.AnswerAll: the answer to the command in that slot.
- Commands.ApplyDelegate.AppendPending: the branch that puts a configuration change in that slot.
- Commands.ApplyDelegate.Reregister: the clearing of that slot.
- Responses.ExecWriteRequest: a request type without a handler, at which the source aborts.
- `gcAllocating` of the shard pool: it filters a slice it has already emptied; pool properties hold between its passes.
- Wrap-around of the pool's 64-bit sequence number: `ShardPool.Enabled` stops creation two short of it.
- ShardPool.DynamicShardsPool.SaveLocked: a save that reports failure is taken not to have been stored.
- `proposeBatch`: its batching order and size bounds.
- `doCheckCompact`: the choice of the compaction index; any index raft's log supports is covered.
- Creation of a replica on receipt of a message, and its overlap check.
- Liveness of reads: reads confirmed before the current term is applied are dropped; only safety is stated, and a confirmation out of order, an abort in the source, is excluded by a precondition.
- Write handlers that read the store they write to: `Replay` covers handlers whose batch depends on the shard and the request only.
- PipelineInvariant.PollPreserves: the size hint is computed over unbounded integers, so the 64-bit product is not checked for overflow.
- PeerReplicas.PeerReplica.CompactRaftLog: the seek for the first entry looks at this shard's log only; meeting another shard's key ends in an empty deletion either way.
- PeerReplicas.PeerReplica.RunJob: a snapshot job cancelled while the replica is being replaced by a newer one.
- Operations on an index into which a range without keys was put: `ShardTree.Update` says what such a call leaves.
- Removal of a registered resource from the scheduler while the pool still counts it.
- A failure to enqueue a job, and the window between adding a replica and registering its delegate.
- Deletion of data ranges as a queued job; the ranges themselves are modelled in `Keys`.
- Expiry times, wall-clock time, user hooks, switches that exist for the repository's own test suite, metrics.
- Snapshots.ApplySnapshot: reads from the file return whole fields; partial reads and file-system errors are not modelled.
- Marshalling of messages, object pools, the Pebble storage, transport, RPC, proxy, the scheduler beyond the registration of created shards.
