# Alpen: verified model of the node's recovery, repair and gossip logic

This project models, in Dafny, the parts of the Alpen node whose correctness depends on many steps together, and proves what those parts are for.

* **Gossip.** `Gossip.dfy` is the gossip task of one node; `GossipNetwork.dfy` puts any number of nodes on a network with packages in flight and proves safety over all runs, convergence, and termination.
* **The chain worker.** `EpochMerge.dfy` merges an epoch's write batches by walking from child to parent. `Indexing.dfy` builds index records per block and per epoch, `Reconstruct.dfy` rebuilds the per-update records from checkpoint logs, and `IndexDb.dfy` holds the tables both ways of syncing write. `Disk.dfy` is the durable state as single atomic writes and proves what crashes between them can do; `TerminalJob.dfy` does so for a job that writes a state and then merges another over it. `WorkerStore.dfy` is the worker's storage operations, each proved to be a given sequence of those writes; `JobResults.dfy` says what a completed job leaves at every place on disk and what a stored summary vouches for; `WorkerLife.dfy` puts prefills, executed blocks and applied checkpoints, each cut off anywhere, into one life of the worker.
* **Startup.** `OLStorage.dfy` is the node's storage, `Startup.dfy` the canonical-index repair and the tip checks, `Promotion.dfy` the one-shot promotion of a checkpoint-synced directory.
* **Checkpoints.** `Reconcile.dfy` removes unaccepted local artifacts, `Observation.dfy` chooses the observed checkpoint of an epoch across L1 reorgs.
* **Codecs and algorithms.** `Deposit.dfy` is the deposit descriptor, `Recovery.dfy` the descriptor-recovery records and keys, `ConfigOverride.dfy` dotted-path overrides, `GuestBuild.dfy` the dependency-ordered guest build.
* `Chain.dfy` and `Seqs.dfy` hold shared types and sequence facts.

## How to read it

Code that updates state is a class whose methods are proved against a specification function (`Handle`, `Merge`, `Run`, `Repair`, ...), and the theorems are lemmas about those functions. Beside each specification function stands a theorem that says what it computes without it: field by field, position by position, or as an exact condition on what is stored. A loop is proved against a recursive function over the part still to do. Every lemma is marked `{:induction false}`, so each proof is the one written down.

Conventions:

* Block ids, hashes, states, batches and roots are numbers; only equality matters. Where the code computes a hash, the model takes the hash function as a parameter. Signatures are a flag on the package, encryption is a pair of functions of which one undoes the other.
* The all-zero id is `NULL_ID`. The null tests on commitments come from a library outside the repository; a block commitment is taken to be null when slot and id are zero, an epoch commitment when its id is zero.
* Rust panics and errors are both error values. In the recovery parser a length that would go below zero is the error `Underflow`.
* Unbounded integers stand for machine integers except where a width matters: 32-bit epochs at their maximum, field widths in the recovery record, and bit vectors in the deposit descriptor.
* A storage transaction is one step; a crash can fall between any two.

## What turned out not to hold as one might expect

* Merging from a terminal that does not descend from the previous terminal can succeed (`MergeOffLineageCanSucceed`), in a storage that holds a write batch for genesis. The worker itself never writes one. In a given storage every successful merge is along the chain from the previous terminal if and only if no batch of a parentless block applies to another block's state (`MergesStayOnLineage`); in particular when genesis has no batch (`MergeIsOnLineage`).
* Storing a stored epoch summary again changes nothing exactly when the epoch's index row still carries its stamp; a summary of the same epoch on another fork restamps it (`RepeatedSummary`, `ForkRestamps`).
* A second startup pass is idle if and only if there is no history base, or it lies above slot 0, or it is genesis, or the finalized block was indexed to begin with (`SecondPassIsIdle`). Otherwise every later pass fails on the genesis entry (`ForeignBaseAtSlotZero` is a storage where that happens). So a promotion at slot 0 to a block other than genesis is refused by the startup after it (`StartupAfterPromotion`).
* After a crash between the deletion of local payloads and the deletion of a proof, the proof of a commitment that was never summarized is not found again by later runs (`OrphanedProofs`, `OrphanedProofExample`).
* A checkpoint accepted on the canonical chain goes unreported for a while when it was observed again on a fork that was then abandoned: it is reported exactly when the block of its last observation is canonical (`LookupIsSound`, `MissedAfterReorgBack`). The miss ends when the worker processes the canonical block again: once it has processed the canonical chain to its tip, the answer is exactly the checkpoint accepted there (`ProcessedLookupIsExact`).
* The number of L1 blocks that promotion reports as still missing is too small when the observed block is more than one above the L1 tip (`RemainingBlocks`).
* A height range takes in its excluded start, unless the end shuts it out, and leaves out its included end, unless the start does; those are the only heights it gets wrong (`RangeSelects`).

## Model

| member | source | states |
|---|---|---|
| `Gossip.GossipTask.HandleGossipPackage` | bin/alpen-client/src/gossip.rs:78-165 | unsigned, foreign and stale packages change nothing; an accepted one raises the highest number, forwards the header's hash and number, and goes to every connection but the sender's |
| `Gossip.GossipTask.BroadcastNewBlock` | bin/alpen-client/src/gossip.rs:200-249 | an enabled sequencer with a key sends one signed package, numbered by the block, to every connection; anyone else sends nothing |
| `Gossip.GossipTask.HandleEvent` | bin/alpen-client/src/gossip.rs:35-75 | each event leads to the node and the commands of the specification; only a closed state channel ends the loop |
| `Gossip.GossipTask.Run` | bin/alpen-client/src/gossip.rs:258-290 | the loop over any events ends in the node, and has sent the commands, of replaying them |
| `Gossip.ConnectedMeansEstablishedLast` | bin/alpen-client/src/gossip.rs:35-75 | after any events a peer is connected exactly when the last event about it opened the connection |
| `GossipNetwork.ForwardedHeadsAreSafe` | bin/alpen-client/src/gossip.rs:78-145 | over every run, with peers connecting, closing, replaying and sending anything: the heads a node forwards have strictly increasing numbers, and each has the hash and number of a block that the sequencer broadcast in the run |
| `GossipNetwork.DeliveryEffect` | bin/alpen-client/src/gossip.rs:78-165 | a delivery, message by message: an authentic newer package is forwarded and goes once to every connection but its sender; any other vanishes without effect |
| `GossipNetwork.BroadcastEffect` | bin/alpen-client/src/gossip.rs:200-249 | a broadcast, message by message: one signed package with the newest header and its number to every connection of the sequencer |
| `GossipNetwork.NodesAgree` | bin/alpen-client/src/gossip.rs:106-145 | if the sequencer never broadcasts two headers with one number, two nodes at the same highest number last forwarded the same head |
| `GossipNetwork.QuiescentMeansConverged` | bin/alpen-client/src/gossip.rs:147-165 | over lossless fixed links, with every task running and peers outside replaying authentic packages at will, when no authentic package is in flight every node a chain of links leads to from the sequencer has reached the largest number ever broadcast |
| `GossipNetwork.DeliveriesAreBounded` | bin/alpen-client/src/gossip.rs:112-124 | any run of deliveries alone is at most as long as a measure computed from the state |
| `GossipNetwork.DeliveringConverges` | bin/alpen-client/src/gossip.rs:106-165 | delivering until nothing can be delivered ends, and ends converged |
| `EpochMerge.ChainWorker.CollectChain` | crates/chain-worker/src/context.rs:267-287 | the walk terminates on every header store whose parents precede their children and returns the specification's chain, oldest first, or its error |
| `EpochMerge.ChainWorker.ApplyBatches` | crates/chain-worker/src/context.rs:297-304 | batches are applied in order; the first missing or failing one is the error |
| `EpochMerge.ChainWorker.MergeEpochData` | crates/chain-worker/src/context.rs:263-311 | stores exactly the fold of the walked batches at the terminal, or fails and changes nothing |
| `EpochMerge.WalkFollowsLineage` | crates/chain-worker/src/context.rs:273-284 | where the terminal descends from the previous terminal, the walk is exactly the path between them |
| `EpochMerge.WalkIsLineageOrRanOff` | crates/chain-worker/src/context.rs:273-284 | every successful walk is such a path or ran off below genesis without meeting the previous terminal |
| `EpochMerge.ForksDoNotMatter` | crates/chain-worker/src/context.rs:267-269 | the merged state depends on the path's batches only, whatever batches forks have stored |
| `EpochMerge.AdjacentMergesCompose` | crates/chain-worker/src/context.rs:263-311 | merging two adjacent epochs one after the other equals one merge over both |
| `EpochMerge.MergeRefinesExecution` | crates/chain-worker/src/context.rs:294-308 | where every block's state came from applying its batch to its parent's state, the merge stores the state that executing the terminal block left |
| `EpochMerge.MergeOffLineageCanSucceed` | crates/chain-worker/src/context.rs:273-284 | a store, with a batch at genesis that the worker never writes, in which a merge whose terminal does not descend from the previous terminal succeeds |
| `EpochMerge.OffLineageMeansGenesis` | crates/chain-worker/src/context.rs:273-284 | a successful merge is along the path from the previous terminal if and only if its walk did not end at a block without a parent |
| `EpochMerge.MergesStayOnLineage` | crates/chain-worker/src/context.rs:263-311 | in a given store, every successful merge is along that path if and only if no batch of a parentless block applies to the state of another block |
| `EpochMerge.MergeIsOnLineage` | crates/chain-worker/src/context.rs:273-304 | where no block without a parent has a stored batch, every successful merge is along that path |
| `Indexing.CollectSnarkUpdateLogs` | crates/chain-worker/src/context.rs:499-510 | the account-update logs in emission order, others skipped; any undecodable log is an error |
| `Indexing.BuildUpdates` | crates/chain-worker/src/context.rs:444-467 | each account's records are its updates in order, each with its own log's extra data; the first mismatch, missing root or zero sequence number is the error |
| `Indexing.BuildInbox` | crates/chain-worker/src/context.rs:470-479 | each account's inbox records are its messages in order |
| `Indexing.BuildIndexingWrites` | crates/chain-worker/src/context.rs:421-485 | the block builder's records: each account's updates and messages, every record attributed to the block |
| `Indexing.BuildCheckpointIndexingWrites` | crates/chain-worker/src/context.rs:529-593 | the checkpoint builder's records: each account's updates and messages, without attribution |
| `Indexing.BuiltRecords` | crates/chain-worker/src/context.rs:444-485 | for every account, its k-th record holds sequence number, read range and root of its k-th update, the extra data of that update's log and the block; its k-th inbox record holds its k-th message |
| `Indexing.BuildSucceeds` | crates/chain-worker/src/context.rs:421-467 | exactly when building succeeds; otherwise undecodable logs, a count mismatch, or the first update that cannot be recorded, with the reason |
| `Indexing.SnarkLogsAre` | crates/chain-worker/src/context.rs:499-510 | the account-update logs are the logs of that kind at their positions, in order |
| `Indexing.CheckpointIsErasedBlock` | crates/chain-worker/src/context.rs:526-593 | wherever the block builder succeeds so does the checkpoint builder, with the same records after erasing attribution |
| `Indexing.BuildSplits` | crates/chain-worker/src/context.rs:438-485 | cutting an output in two and appending the parts' records per account gives the records of the whole; the whole succeeds exactly when both parts do |
| `Reconstruct.WalkLogs` | crates/chain-worker/src/state.rs:773-822 | one update per account-update log continuing its account's cursor, and the index of each account's last update; the first log that does not decode or names no account is the error |
| `Reconstruct.StampRoots` | crates/chain-worker/src/state.rs:824-831 | exactly the last update of each account gets the post-epoch root |
| `Reconstruct.ReconstructSnarkUpdates` | crates/chain-worker/src/state.rs:773-837 | both passes together, from the raw logs |
| `Reconstruct.RebuildRecovers` | crates/chain-worker/src/state.rs:773-822 | if each executed update continues its account's latest earlier one, or else its cursor, rebuilding from the raw logs recovers every update but its root |
| `Reconstruct.RebuildIsSequential` | crates/chain-worker/src/state.rs:773-822 | rebuilding succeeds exactly when every log decodes and names a known account; the updates then continue the cursors as the logs say, otherwise the first unreadable log decides the error |
| `Reconstruct.RebuiltRowsMatch` | crates/chain-worker/src/context.rs:556-568 | records built from the rebuilt updates equal those of the executed epoch, account by account, except that only the last keeps its root |
| `Reconstruct.RecordedRangesAreContiguous` | crates/chain-worker/src/context.rs:512-524 | each account's records cover its inbox without gap from its cursor on: the debug assertion never fires |
| `Reconstruct.AdvancesAppend` | crates/chain-worker/src/state.rs:759-837 | blocks that each lead the accounts from one state to the next lead from the first to the last as one: cursors, roots and continuity |
| `Reconstruct.ExecutedIsRecoverable` | crates/chain-worker/src/state.rs:824-831 | an epoch that leads the accounts from one state to another is recoverable from the cursors before it and the roots after it |
| `IndexDb.BlocksAccumulate` | crates/db/store-sled/src/ol_state_index/db.rs:210-271 | indexing blocks of increasing slots one by one succeeds and leaves exactly their accumulated records under the epoch, all other rows untouched |
| `IndexDb.EpochRowsAre` | crates/db/store-sled/src/ol_state_index/db.rs:210-271 | after an epoch's blocks an account's row records exactly its updates of the epoch, in block order and order of execution, each with its own log's data and its block; likewise its messages; other epochs' rows are as before |
| `IndexDb.EpochRowIs` | crates/db/store-sled/src/ol_state_index/db.rs:210-271 | the epoch's own row lists the created accounts in order with their blocks and the last block; each of those accounts is known to be of the epoch |
| `IndexDb.BlockRefused` | crates/db/store-sled/src/ol_state_index/db.rs:210-232 | a block is refused exactly when one at its slot or above was applied, and the error names both |
| `IndexDb.BothSyncsLeaveTheSameTables` | crates/db/store-sled/src/ol_state_index/db.rs:167-271 | an epoch indexed block by block and stamped, and the same epoch indexed at once, leave equal tables up to block attribution |
| `IndexDb.WholeAdvances` | crates/chain-worker/src/state.rs:759-837 | blocks executed one on the other make up an epoch that continues the cursors before it |
| `IndexDb.CheckpointSyncMatchesBlockSync` | crates/chain-worker/src/context.rs:342-353 | if every block of the epoch was executed on the accounts its predecessor left, a node that syncs from the checkpoint alone ends with the stamp, created accounts, inbox rows and update rows of a node that executed the blocks, lacking attribution and all but each account's last root |
| `Disk.ReachDone` | crates/chain-worker/src/context.rs:165-197 | every write a run completed is done in its final disk, and a refused write would be refused there again |
| `Disk.TwoAttempts` | crates/chain-worker/src/context.rs:178-194 | an attempt cut off after k writes followed by one cut off after m leaves the disk of a single attempt cut off after the larger |
| `Disk.RetryRepairs` | crates/chain-worker/src/context.rs:178-194 | crash any number of times anywhere, then retry: the disk and the result are those of one uninterrupted run |
| `TerminalJob.TerminalRetriable` | crates/chain-worker/src/state.rs:252-291 | the same for a job whose merge overwrites the state it wrote before, whatever the merge makes of it |
| `Disk.CrashesLeaveNoTrace` | crates/chain-worker/src/state.rs:376-411 | the same for a whole life of jobs, each retried before the next begins |
| `Disk.RecordedLeavesStay` | crates/storage/src/managers/mmr_index.rs:226-267 | a leaf that a completed job recorded stands at its index ever after |
| `Disk.SummariesWereStamped` | crates/chain-worker/src/context.rs:217-225 | in every reachable state, crashes included, a stored summary's commitment was stamped first |
| `Disk.RepeatedSummary` | crates/chain-worker/src/context.rs:226-246 | storing a stored summary again succeeds without change exactly when the row still carries its stamp |
| `Disk.ForkRestamps` | crates/chain-worker/src/context.rs:217-220 | two forks' summaries of one epoch for which it does change the disk |
| `Disk.DifferentSummaryRefused` | crates/chain-worker/src/context.rs:226-246 | a different summary for a stored commitment is refused, with which error, and the old one kept |
| `WorkerStore.Store.IdempotentAppendLeaf` | crates/storage/src/managers/mmr_index.rs:226-267 | below the leaf count: accepted exactly when the hashes match; at it: appended; above it: refused |
| `WorkerStore.Store.IndexInboxMmrWrites` | crates/chain-worker/src/context.rs:611-630 | runs one append per inbox message, in order, up to the first refused; on success every message stands at its index |
| `WorkerStore.Store.IndexL1BlockRefMmrWrites` | crates/chain-worker/src/context.rs:642-661 | runs one append per L1 record at the index of its height, in order, up to the first refused; on success every record stands at its height |
| `WorkerStore.Store.ApplyBlockOnce` | crates/chain-worker/src/context.rs:178-194 | a conflict that names this very block as the last applied counts as done; any other is the error |
| `WorkerStore.Store.StoreBlockOutput` | crates/chain-worker/src/context.rs:165-197 | runs batch, index, inbox leaves and L1 leaves in that order through exactly those intermediate disks; an unindexable output leaves only the batch |
| `WorkerStore.Store.StoreSummary` | crates/chain-worker/src/context.rs:214-250 | runs the stamp, then the summary write |
| `WorkerStore.Store.PersistExecutionOutput` | crates/chain-worker/src/state.rs:382-411 | runs the output's writes, then the state's |
| `WorkerStore.Store.CommitBlock` | crates/chain-worker/src/state.rs:252-291 | runs the whole job of a block: output, state and, after a terminal block, the merge of what is then on disk and the summary |
| `WorkerStore.Store.MergeEpochData` | crates/chain-worker/src/context.rs:263-311 | stores at the terminal the merge of the batches and states now on disk, or fails and changes nothing |
| `WorkerStore.Store.StoreTerminalHeader` | crates/db/store-sled/src/ol/db.rs:161-169 | stores the header, or refuses one that does not hash to its key |
| `WorkerStore.Store.ApplyEpochIndexing` | crates/chain-worker/src/context.rs:342-353 | runs the epoch's index write, then the leaves |
| `WorkerStore.Store.ApplyCheckpoint` | crates/chain-worker/src/state.rs:227-241 | runs state, epoch index, leaves, terminal header and, last, the summary; a header of another id ends it before the summary |
| `WorkerStore.Store.PrefillL1BlockRefs` | crates/chain-worker/src/mmr_prefill.rs:30-46 | appends exactly the missing sentinels |
| `WorkerStore.PrefillResumes` | crates/chain-worker/src/mmr_prefill.rs:8-12 | resuming the prefill is running it from the start, and a second prefill writes nothing |
| `WorkerStore.StepsAreCuts` | crates/chain-worker/src/state.rs:382-411 | each intermediate disk of an operation is the disk of a run cut off there |
| `WorkerStore.BlockSurvivesCrashes` | crates/chain-worker/src/context.rs:165-197 | a block's job, terminal or not, crashed any number of times and retried, ends as one uninterrupted run |
| `WorkerStore.BlockJobRetriable` | crates/chain-worker/src/state.rs:252-291 | the same from every disk, whatever state the merge finds |
| `WorkerStore.MergedIsExecuted` | crates/chain-worker/src/context.rs:263-311 | where the epoch's blocks were executed on one another and stored, the merge of the disk left by the terminal block's output finds exactly the executed state |
| `WorkerStore.TerminalStateIsExecuted` | crates/chain-worker/src/state.rs:425-442 | so the whole job of a terminal block changes the stored states only by the executed one |
| `WorkerStore.BlockLeavesStand` | crates/chain-worker/src/context.rs:596-661 | once a block's job has run, each of its L1 records stands at its height and each message at its index, for good |
| `WorkerStore.CheckpointJobRetriable` | crates/chain-worker/src/state.rs:227-241 | applying a checkpoint, crashed any number of times and retried, ends as one uninterrupted run |
| `WorkerStore.BlockStampsFirst` | crates/chain-worker/src/state.rs:425-442 | wherever a block's job is cut off, no summary of it was stored before its stamp |
| `WorkerStore.CheckpointStampsFirst` | crates/chain-worker/src/state.rs:227-241 | nor of applying a checkpoint |
| `JobResults.BlockCompleted` | crates/chain-worker/src/state.rs:252-291 | a block's completed job leaves its batch, its place in the index, its leaves and its state; a terminal block leaves instead the merge of the batches on disk, the stamp, and a summary with its epoch, terminal, previous terminal and final state |
| `JobResults.CheckpointCompleted` | crates/chain-worker/src/state.rs:227-241 | a completed application of a checkpoint leaves state, rows, stamp, leaves, summary, and the terminal header under the id it hashes to |
| `JobResults.SummaryMeansBlockStored` | crates/chain-worker/src/state.rs:415-442 | wherever a terminal block's job is cut off: if its summary is then new on disk, everything else of the job is there too |
| `JobResults.SummaryMeansCheckpointApplied` | crates/chain-worker/src/state.rs:236-241 | the same for applying a checkpoint |
| `JobResults.BlockIndexedOnce` | crates/chain-worker/src/context.rs:165-197 | a completed job appends the block's records to its epoch's rows, and not at all when the block was the last one applied |
| `WorkerLife.WorkRetriable` | crates/chain-worker/src/state.rs:227-291 | prefilling, executing a block and applying a checkpoint can each be retried after any crashes |
| `WorkerLife.L1MirrorIsByHeight` | crates/chain-worker/src/context.rs:632-661 | in every state of a life of such works, each cut off anywhere, the L1 mirror holds sentinels up to the genesis height and, at each height above, the hash and bytes of a record of that height from some work's output |
| `WorkerLife.InboxMirrorIsByIndex` | crates/chain-worker/src/context.rs:611-630 | and each account's inbox mirror holds, at each index, the hash and bytes of a message some work had for that account and index |
| `WorkerLife.L1RecordsAccepted` | crates/chain-worker/src/context.rs:632-661 | after a prefill, L1 records of the heights that follow genesis are all accepted and stand at their heights behind the sentinels |
| `WorkerLife.MessagesAccepted` | crates/chain-worker/src/context.rs:611-630 | messages for the next free indices of an account's mirror are all accepted and stand there |
| `WorkerLife.WorkerStampsFirst` | crates/chain-worker/src/context.rs:214-250 | and every stored summary's commitment was stamped earlier |
| `WorkerLife.BothSyncsLeaveTheSameMirrors` | crates/chain-worker/src/context.rs:596-661 | executing an epoch's blocks and applying its checkpoint leave the same leaves in every mirror |
| `Startup.CollectFinalizedCanonicalChain` | bin/strata/src/startup_checks.rs:207-260 | the loop returns the specification walk's ids in slot order, or its first error |
| `Startup.WalkFindsTheChain` | bin/strata/src/startup_checks.rs:207-260 | the genesis walk returns ids exactly when they are the valid, slot-contiguous, parent-linked chain from genesis to the finalized block |
| `Startup.CollectFinalizedCanonicalChainFromHistoryBase` | bin/strata/src/startup_checks.rs:262-347 | the same for the walk down to the history base |
| `Startup.BaseWalkFindsTheChain` | bin/strata/src/startup_checks.rs:262-347 | it returns ids exactly when they lead from the base, whose header is in order, to the finalized block |
| `Startup.WalksAgree` | bin/strata/src/startup_checks.rs:207-347 | where the genesis walk succeeds, the history-base walk succeeds exactly when the base lies on that chain with its header in order, and returns its suffix |
| `Startup.WalkErrorIsTrue` | bin/strata/src/startup_checks.rs:207-260 | an error of the genesis walk names a block on the way down and what is wrong with it |
| `Startup.BaseWalkErrorIsTrue` | bin/strata/src/startup_checks.rs:262-347 | the same for the history-base walk |
| `Startup.NodeStorage.ReplaceCanonicalSuffixFrom` | crates/db/store-sled/src/ol/db.rs:329-370 | keeps the entries below the start and has exactly the given ids from there |
| `Startup.NodeStorage.EnsureGenesisCanonicalEntry` | bin/strata/src/startup_checks.rs:140-160 | refuses another block at slot 0, keeps genesis, or makes genesis the whole index |
| `Startup.NodeStorage.EnsureCanonicalBlockIndex` | bin/strata/src/startup_checks.rs:168-205 | returns early exactly when the finalized block is indexed (the tip test adds nothing), else backfills the whole chain or fails unchanged; on success the declared final block, or genesis if none is declared, is indexed at its slot |
| `Startup.NodeStorage.EnsureCanonicalBlockIndexFromHistoryBase` | bin/strata/src/startup_checks.rs:349-382 | the same from the history base on; with none declared the base is indexed |
| `Startup.NodeStorage.RunStartupChecks` | bin/strata/src/startup_checks.rs:708-790 | genesis checks, repair and tip checks in order: the storage left and the first failure |
| `Startup.StartupPasses` | bin/strata/src/startup_checks.rs:708-790 | exactly when the checks pass: on an empty node, or with genesis stored with state and summary and alone at slot 0, a repairable index for a sequencer, and the resulting tip in order |
| `Startup.RepairOutcome` | bin/strata/src/startup_checks.rs:140-205 | a sequencer's pass succeeds exactly when slot 0 is free or genesis and the declared final block (else base, else genesis) is indexed or connected by a valid chain; it then leaves the index as it was, or with exactly that chain from its start on |
| `Startup.RepairEstablishes` | bin/strata/src/startup_checks.rs:140-205 | a successful sequencer pass leaves the declared final block, else the base, else genesis canonical at its slot, the tip at or above it, and changes only the index |
| `Startup.IndexedIsUntouched` | bin/strata/src/startup_checks.rs:182-187 | with slot 0 and the finalized block indexed, a pass changes nothing |
| `Startup.SecondPassIsIdle` | bin/strata/src/startup_checks.rs:349-382 | after a successful pass, a second one succeeds and changes nothing if and only if there is no base, or it lies above slot 0, or is genesis, or the finalized block was already indexed; else the second fails on the genesis entry |
| `Startup.ForeignBaseAtSlotZero` | bin/strata/src/startup_checks.rs:149-154 | a storage on which the first pass succeeds and the next one fails |
| `Startup.AnchorSatisfiesWalk` | bin/strata/src/startup_checks.rs:604-677 | an anchor that verifies is what the history-base walk wants at its end |
| `Startup.AnchorVerifies` | bin/strata/src/startup_checks.rs:604-677 | exactly which anchors verify, over the stored fields of header, first summary and state; the state must be at the anchor's slot and already in the next epoch |
| `Startup.AnchorErrorIsTrue` | bin/strata/src/startup_checks.rs:604-677 | an error of the anchor checks says which stored field is off |
| `Startup.TipPasses` | bin/strata/src/startup_checks.rs:443-706 | exactly which tips pass, at the base, above it, and without one |
| `Startup.TipErrorIsTrue` | bin/strata/src/startup_checks.rs:443-706 | an error of the tip checks says what is missing |
| `Promotion.Promoter.CheckAnchor` | bin/strata/src/bootstrap.rs:115-189 | passes exactly when the checkpoint was observed in a canonical L1 block, the anchor is in order field by field, and payload and state agree with its header; else reports the first of these that fails |
| `Promotion.AnchorFaultIsTrue` | bin/strata/src/bootstrap.rs:115-189 | an error of these checks says what is so |
| `Promotion.PromotableExample` | bin/strata/src/bootstrap.rs:31-238 | a storage that can be promoted |
| `Promotion.Promoter.CheckNothingAbove` | bin/strata/src/bootstrap.rs:191-226 | passes exactly when index and blocks end at the anchor slot and there is no high watermark; else reports which of these fails first |
| `Promotion.Promoter.PromoteToHistoryAnchor` | crates/db/store-sled/src/ol/db.rs:198-242 | publishes the anchor and its index entry together, or finds an anchor there and changes nothing |
| `Promotion.Promoter.PromoteFromCheckpointStorage` | bin/strata/src/bootstrap.rs:31-238 | without a base, succeeds exactly when every guard holds and then publishes the declared final epoch; otherwise the error is that of the first guard that fails; with a base, or failing, changes nothing |
| `Promotion.RemainingBlocks` | bin/strata/src/bootstrap.rs:99-107 | the report names epoch and height, and its number of missing L1 blocks is the least that buries the block to the required depth if and only if the block is at most one above the L1 tip |
| `Promotion.PromotionPreparesStartup` | bin/strata/src/startup_checks.rs:658-706 | after a promotion the base is the declared final epoch, the anchor verifies, it is the top of the index and what was below is kept, the backfill returns early, and the tip check passes exactly when the previous epoch is summarized or there is none |
| `Promotion.StartupAfterPromotion` | bin/strata/src/startup_checks.rs:748-786 | the first sequencer startup after any promotion passes exactly when genesis is in order in the promoted storage and the previous epoch is summarized; above slot 0 that is genesis in order before, at slot 0 the anchor must be genesis |
| `Promotion.BaseIsSetOnce` | bin/strata/src/bootstrap.rs:31-39 | over any sequence of runs and other writes the base never changes once set, and was declared final and verified when set |
| `Reconcile.ExtendMissing` | bin/strata/src/checkpoint_reconcile.rs:99-108 | appends, in order and once each, exactly the candidates the list lacks, whatever list it starts from |
| `Reconcile.CheckpointCommitmentsFromEpoch` | bin/strata/src/checkpoint_reconcile.rs:70-97 | lists, once each, exactly the commitments summarized from the epoch on |
| `Reconcile.Reconciler.DeleteLocalPayloads` | crates/db/store-sled/src/ol_checkpoint/db.rs:252-287 | deletes and reports exactly the payloads from the epoch on, with their signing entries, and the unsigned entry of each that had none |
| `Reconcile.Reconciler.ReconcileUnaccepted` | bin/strata/src/checkpoint_reconcile.rs:16-68 | runs payload deletion and then a proof and a task deletion per summarized or local commitment, counting what it deleted; does nothing without prover, ASM state or a next epoch |
| `Reconcile.CompletedRunCleans` | bin/strata/src/checkpoint_reconcile.rs:16-68 | exactly which payloads, signing and unsigned entries, proofs and tasks a completed run leaves: nothing known past the accepted tip, everything else |
| `Reconcile.RerunRestores` | bin/strata/src/checkpoint_reconcile.rs:26-54 | after crashes anywhere, one completed rerun restores this for all summarized commitments |
| `Reconcile.OrphanedProofs` | bin/strata/src/checkpoint_reconcile.rs:29-42 | exactly when a crash makes a later run miss the proof of a local commitment that was never summarized |
| `Reconcile.OrphanedProofExample` | bin/strata/src/checkpoint_reconcile.rs:29-42 | such a crash |
| `Observation.CheckpointSync.ObservedCommitments` | crates/db/store-sled/src/ol_checkpoint/db.rs:426-456 | returns the epoch's row, or builds it from the references and stores it |
| `Observation.CheckpointSync.GetObservedCheckpointForEpoch` | bin/strata/src/css.rs:95-132 | none, the one, or ambiguity, by how many candidates have a reference in a canonical block |
| `Observation.LookupIsSound` | bin/strata/src/css.rs:88-132 | if ASM accepts at most one checkpoint per epoch on any L1 chain, then after every sequence of extensions, reorgs, observations and deletions the lookup is never ambiguous, its answer was accepted in a canonical block, and a commitment is the answer exactly when the block of its last observation is canonical and its payload was not deleted since |
| `Observation.AnswerCounts` | bin/strata/src/css.rs:95-132 | on any node: no answer, the one, or ambiguity exactly when none, one or more of the candidates have their reference in the canonical chain |
| `Observation.RefIsLastObservation` | crates/db/store-sled/src/ol_checkpoint/db.rs:517-549 | after any steps a commitment's reference is that of its last observation, and gone if its payload was deleted since |
| `Observation.MissedAfterReorgBack` | bin/strata/src/css.rs:117-125 | runs after which an accepted, once observed checkpoint is not the answer until its block is processed again |
| `Observation.ProcessedLookupIsExact` | crates/csm-worker/src/processor.rs:186-243 | after every sequence of L1 growth, reorgs and processed blocks the lookup answers the checkpoint of each processed canonical block, and exactly the canonically accepted one once the chain is processed to its tip |
| `Deposit.FromAccountSerial` | crates/bridge-types/src/deposit.rs:116-150 | the shortest control byte and serial bytes, or the serial is too large |
| `Deposit.ToAccountSerial` | crates/bridge-types/src/deposit.rs:153-168 | the serial the control byte and its bytes stand for |
| `Deposit.EncodeToVec` | crates/bridge-types/src/deposit.rs:263-274 | the wire form of a descriptor |
| `Deposit.DecodeFromSlice` | crates/bridge-types/src/deposit.rs:284-319 | the descriptor of a wire form, or the first fault found |
| `Deposit.SerialRoundTrip` | crates/bridge-types/src/deposit.rs:116-168 | every serial of at most 28 bits comes back from its encoding |
| `Deposit.DecodeEncode` | crates/bridge-types/src/deposit.rs:263-319 | decoding inverts encoding on every valid descriptor |
| `Deposit.EncodeDecode` | crates/bridge-types/src/deposit.rs:284-319 | whatever decoding accepts is valid, and its encoding is never longer than the input and as long only if it is the input |
| `Deposit.Accepted` | crates/bridge-types/src/deposit.rs:81-93 | exactly which inputs decoding accepts |
| `Deposit.WireForm` | crates/bridge-types/src/deposit.rs:116-150 | the encoding in numbers: two, three or four bytes below 2^12, 2^20, 2^28; the control byte's upper half counts them and its lower half with the rest spells the serial |
| `Deposit.DecodeMeans` | crates/bridge-types/src/deposit.rs:284-319 | what decoding makes of every input, in numbers: each error, or serial and subject |
| `Deposit.BytesSpell` | crates/bridge-types/src/deposit.rs:116-150 | a word's bytes, most significant first, spell it |
| `Recovery.FrameRecord` | bin/alpen-cli/src/recovery.rs:77-108 | the record's byte layout |
| `Recovery.FramedRecordAt` | bin/alpen-cli/src/recovery.rs:77-108 | the layout by position: lengths, descriptor, key map, network count and hashes |
| `Recovery.FramedEntriesAt` | bin/alpen-cli/src/recovery.rs:81-98 | the entries of the key map stand one after the other, each as two texts behind their lengths |
| `Recovery.LeDigit` | bin/alpen-cli/src/recovery.rs:77-108 | byte i of a length field is its digit of weight 256^i |
| `Recovery.FromLeDigits` | bin/alpen-cli/src/recovery.rs:171-221 | a length read back has exactly the bytes that stand there as digits |
| `Recovery.ReadKeys` | bin/alpen-cli/src/recovery.rs:178-208 | the key map loop with its count of bytes left equals the recursive parser |
| `Recovery.ParseRecord` | bin/alpen-cli/src/recovery.rs:171-221 | the whole parser with each error in its place |
| `Recovery.KeysRoundTrip` | bin/alpen-cli/src/recovery.rs:180-208 | on framed entries the count always equals the encoded length of those left: it never underflows and the loop ends at the network count |
| `Recovery.RecordRoundTrip` | bin/alpen-cli/src/recovery.rs:77-221 | parsing a framed record returns descriptor, key map and networks, whatever follows |
| `Recovery.MapOfEntries` | bin/alpen-cli/src/recovery.rs:207 | the entries of a key map come back as that map, with no further key |
| `Recovery.KeyRoundTrip` | bin/alpen-cli/src/recovery.rs:278-300 | keys and their 36-byte encodings correspond one to one |
| `Recovery.KeyLayout` | bin/alpen-cli/src/recovery.rs:278-300 | a key is four bytes of height, most significant first, and the hash |
| `Recovery.BeOrder` | bin/alpen-cli/src/recovery.rs:303-304 | big-endian bytes are ordered like the numbers |
| `Recovery.RangeSelects` | bin/alpen-cli/src/recovery.rs:310-344 | exactly which heights a range selects, and exactly at which heights that is the range's own meaning |
| `Recovery.DescriptorRecovery.AddDesc` | bin/alpen-cli/src/recovery.rs:35-123 | stores the sealed record under height and hash; what was stored opens and parses to what was given |
| `Recovery.DescriptorRecovery.ReadDescs` | bin/alpen-cli/src/recovery.rs:134-226 | the entries in range in ascending key order, each decoded under its key, or the error of the first bad one |
| `ConfigOverride.Config.ApplyOverride` | bin/strata/src/config.rs:21-27 | the table after a success; the unchanged table after an error |
| `ConfigOverride.ApplyOverrideInner` | bin/strata/src/config.rs:29-52 | the recursion over dotted strings equals insertion along the path's segments |
| `ConfigOverride.Segments` | bin/strata/src/config.rs:35-40 | the segments hold no dot and, joined by dots, are the path |
| `ConfigOverride.OverrideSets` | bin/strata/src/config.rs:29-52 | a success makes the path look up to the value and changes no path apart from it |
| `ConfigOverride.OverrideSucceeds` | bin/strata/src/config.rs:40-50 | succeeds exactly when every proper prefix is a table; else the error names the first that is not |
| `ConfigOverride.OverridesCommute` | bin/strata/src/config.rs:29-52 | overrides of paths neither of which is a prefix of the other commute |
| `GuestBuild.Builder.FinishProgram` | provers/sp1/build.rs:133-176 | writes the key file from the known keys of the direct dependencies and compiles with it |
| `GuestBuild.Builder.BuildProgramWithDependencies` | provers/sp1/build.rs:115-176 | on every acyclic map terminates, builds the program, adds only programs it reaches, each compiled once and after its dependencies |
| `GuestBuild.Builder.BuildAll` | provers/sp1/build.rs:61-70 | exactly the programs reachable from the list are built |
| `GuestBuild.DependenciesFirst` | provers/sp1/build.rs:128-132 | every program a built program reaches was compiled before it |
| `GuestBuild.KeyFilesComplete` | provers/sp1/build.rs:134-158 | a built program's key file lists every direct dependency in order with the key it was built with, or is the one found on disk if it has none; its key and result come from compiling with that file |
| `GuestBuild.KeysDetermined` | provers/sp1/build.rs:115-176 | the keys do not depend on what was asked for or in which order |
| `GuestBuild.ShippedMapIsAcyclic` | provers/sp1/build.rs:40-44 | the dependency map in use is acyclic |

## Left out

- Gossip convergence under lost sends, changing links or ended tasks: failed sends are only logged, so convergence and termination are claimed for lossless fixed links between running tasks; safety is claimed for all.
- Signature, hash, cipher, tree-hash and proof code: functions given as parameters or flags.
- The state-transition function and the data-availability decoder of the chain worker: execution outputs and states are inputs to the storage operations.
- Looking up the previous epoch's terminal, and storing blocks: the previous terminal and the headers a merge walks are inputs of the terminal job.
- WorkerLife.L1MirrorIsByHeight: takes the L1 records of every execution output to be of heights above genesis, as the modelled code receives them.
- WorkerLife.BothSyncsLeaveTheSameMirrors: takes the checkpoint's messages and L1 records to be those of the blocks, in order; decoding them from the checkpoint is not modelled.
- Recovery.RecordRoundTrip: records whose lengths do not fit their fields; texts are identified with the values they denote.
- ConfigOverride.ApplyOverrideInner: nested tables are rebuilt along the path instead of being updated through references.
- `parse_override` and `parse_value`: splitting at the first equals sign and literal parsing would add easy members only.
- Memory structure of the MMR (nodes, peaks, proofs): a mirror is the list of its leaves.
- The Bitcoin connectivity and L1 anchor checks at startup: network I/O.
- Rollback and pruning of the index tables, and the fork-choice manager that advances the canonical index.
- The text of the generated `methods.rs` and key files in the guest build, and cargo itself.
