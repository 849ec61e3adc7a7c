# Builder states, proved

A Dafny model of the block builder's core: the tree of builder states that share one
transaction channel, the coordinator that grows and prunes that tree, the block packing and
size control built on top of it, and the older builder's selection and registry, which serve
as reference behaviour. `dafny verify dfyconfig.toml` checks the whole project.

## How it is organised

| file | subject |
|---|---|
| `blocks.dfy`, `txn_seqs.dfy` | shared data; facts about transaction sequences |
| `rotating_set.dfy` | `RotatingSet` and its retention over whole histories |
| `transaction_queue.dfy`, `builder_state.dfy` | the de-duplicating queue; `BuilderState` with `new_child` and `collect_txns` |
| `fork_tree.dfy`, `fork_theorems.dfy` | all builder states over one channel as a step system, its invariants, and what they give for every run |
| `fork_objects.dfy` | the objects that share a channel follow that step system |
| `tiered_view_map.dfy` | the view-indexed map as a flat map |
| `proposal_pairing.dfy`, `parent_selection.dfy` | matching proposals; choosing the state to extend |
| `coordinator_runs.dfy`, `coordinator.dfy` | the coordinator as a step system at the granularity of its locks, and as an object |
| `block_packing.dfy`, `block_building.dfy`, `empty_block_window.dfy`, `reachable_windows.dfy` | building a block, and when an empty one is allowed |
| `build_runs.dfy` | the wait, the build and the drop as steps of the system of all states |
| `block_size_limits.dfy`, `block_store.dfy` | size control; offered blocks |
| `legacy_global_state.dfy` | the older builder's registry |

Objects that the source updates in place are classes. Each method's postcondition gives the
whole new state through a function on values (`State.Child`, `Generations.Rotated`,
`Inserted`, ...), and the theorems are about those functions, over every input and every run.
Concurrent behaviour is a step system: a run is any sequence of steps, one step per critical
section. Digests are integers compared only for equality; views, sizes, clock ticks and
log positions are natural numbers. The transaction channel is an append-only log in which
every state holds a read position. A wait with a deadline becomes a number of attempts.

## Where the code departs from its documentation

The model follows the code; each departure has its exact condition.

* The fallback parent is documented as the highest lower view
  (`crates/shared/src/coordinator/mod.rs:383-385`), but the first bucket of an ascending range
  is the lowest (`:451-456`). The coordinator agrees with the documented rule when the choice
  is forced and otherwise offers a disjoint set: `AgreesWhenForced`, `DisjointOtherwise`. The
  older builder keeps its bootstrap entry without references
  (`crates/legacy/src/service.rs:235`) and so misses a match with it, and leaves the count and
  the last non-empty view of every other entry blank
  (`crates/legacy/src/builder_state.rs:628-636`), which selection does not read;
  `SameChoiceIff` gives the exact domain with both taken into account.
* `collect_txns` answers "the queue is empty" (`crates/shared/src/state.rs:197-227`); its caller
  reads the answer as "populated" (`crates/legacy_refactored/src/service.rs:306-308`), so the
  wait ends early when there is nothing to build with: `WaitsOnlyWhenPopulated`,
  `WaitsAgreeIff`.
* The three-view window for empty blocks (`crates/legacy_refactored/src/service.rs:316-327`)
  reduces to "the parent block has transactions": `RefactoredWindow`, `WindowsDifferIff`.
* `new_child` clones the queue (`crates/shared/src/state.rs:181`) and later the receiver
  (`:191`); a drain in between can lose a transaction or invert the order:
  `LossExactlyInSplitForks`, `SplitForkLossless`, `SplitForkLoses`, `OrdersDifferIff`,
  `SplitForkInverts`.
* `Decided` is documented as final (`crates/shared/src/coordinator/mod.rs:42-47`). It is, in
  runs whose decides spare the parent of a child in flight and whose children are not below
  their parents (`DecidedStaysDecided`); otherwise it can be taken
  back: `LowestFallsIff`, `DecideInFlightRevivesIff`, `ReviveReachable`,
  `AtomicReviveReachable`.
* A head dropped as too big need not be the head that was offered, nor have been offered at
  all: `DropsOfferedHeadIff`, `SecondBuildDropsNext`, `EmptyReadDropsArrival`.
* The size limit can pass the protocol's maximum if that maximum is below the floor:
  `NeverExceedsProtocolIff`.

## Model

| member | source | states |
|---|---|---|
| `RotatingSets.RotatingSet.Extend` | crates/shared/src/utils/rotating_set.rs:68-75 | all values end up in the fresh generation and nothing else changes |
| `RotatingSets.RotatingSet.ForceRotate` | crates/shared/src/utils/rotating_set.rs:50-55 | every generation moves one place older, the expiring one is dropped, the clock is noted |
| `RotatingSets.RotatingSet.Rotate` | crates/shared/src/utils/rotating_set.rs:58-65 | rotates exactly when strictly more than a period has passed, and says so |
| `RotatingSets.RefinesRun` | crates/shared/src/utils/rotating_set.rs:8-75 | over any history the three sets refine a map from each value to the number of rotations since its last insertion |
| `RotatingSets.ContainsIffYoung` | crates/shared/src/utils/rotating_set.rs:39-66 | after any history a value is contained if and only if it was last inserted at most two rotations ago |
| `RotatingSets.RetainedTwoPeriods` | crates/shared/src/utils/rotating_set.rs:28-66 | on a monotone clock a value inserted at t is contained at every tick before t + 2 * period + 2, so up to t + 2 * period, whatever happened before and however often rotation is tried |
| `RotatingSets.RetentionIsSharp` | crates/shared/src/utils/rotating_set.rs:58-65 | for every period there is a history in which the value is gone at exactly t + 2 * period + 2 |
| `TransactionQueues.TransactionQueue.Prune` | crates/shared/src/state.rs:57-63 | removes exactly the transactions with pruned commits, keeps the order of the rest and the index in step with the list |
| `TransactionQueues.TransactionQueue.Insert` | crates/shared/src/state.rs:65-73 | appends a transaction whose commit is new, ignores another, and the queue stays duplicate-free |
| `TransactionQueues.TransactionQueue.PopFront` | crates/shared/src/state.rs:75-79 | takes the oldest transaction from the list and from the index, or does nothing on an empty queue |
| `TransactionQueues.TransactionQueue.IsEmpty` | crates/shared/src/state.rs:81-83 | asking the index answers for the list |
| `TransactionQueues.PopCommits` | crates/shared/src/state.rs:75-79 | popping a duplicate-free queue removes exactly the head's commit |
| `BuilderStates.BuilderState.NewChild` | crates/shared/src/state.rs:143-193 | the child has the block's references, the rotated and extended included set, the queue without the block's transactions and the parent's read position; the parent is unchanged |
| `BuilderStates.BuilderState.CollectTxns` | crates/shared/src/state.rs:196-228 | consumes exactly the next messages that fit before the deadline, in order, skipping recently included ones; the answer is true when the queue is EMPTY |
| `BuilderStates.TxnChannel.TryBroadcast` | crates/shared/src/coordinator/mod.rs:181-211 | an accepted message is appended to the history, a refused one leaves it as it was |
| `ForkTheorems.Reachable` | crates/shared/src/state.rs:57-228 | in every run from the bootstrap state, every state has: exact queue contents up to included and popped commits, the last three blocks included, retention by time, and the account of log messages read or missed |
| `ForkTrees.ReceiveKeepsExact` | crates/shared/src/state.rs:202-216 | outside commits that were included or popped, receiving changes the queue as it changes the list of first occurrences |
| `ForkTrees.ForkKeepsQueue` | crates/shared/src/state.rs:152-191 | a child's queue is duplicate-free, ordered as read, disjoint from its included set and exact for its longer chain |
| `ForkTheorems.DrainIsRun` | crates/shared/src/state.rs:196-228 | an undisturbed drain equals a run of single receives and touches no other state |
| `ForkObjects.CollectMirrored` | crates/shared/src/state.rs:196-228 | draining one of several states that share a channel leaves all their values as a run of single receives does, whatever the others hold |
| `ForkObjects.ForkMirrored` | crates/shared/src/state.rs:143-193 | forking one of them adds one object, and all values are those after the fork step; no queue is shared |
| `ForkObjects.PopMirrored` | crates/shared/src/state.rs:75-79 | dropping a head changes the values as the pop step does |
| `ForkObjects.BroadcastMirrored` | crates/shared/src/coordinator/mod.rs:181-211 | an accepted broadcast changes only the history, as the broadcast step does |
| `ForkTheorems.NoRepeats` | crates/shared/src/state.rs:152-209 | in every run no queue holds a commit of the last three blocks of its chain, nor of a block less than two whole rotation periods old, nor any commit twice |
| `ForkTheorems.IncludedExactly` | crates/shared/src/state.rs:152-191 | in every run a state refuses a commit if and only if a block of its chain included it at most two rotations of that chain ago |
| `ForkTheorems.LossExactlyInSplitForks` | crates/shared/src/state.rs:181-191 | in every run a state lost a transaction if and only if a message skipped by a split fork was never read otherwise, included or popped |
| `ForkTheorems.Conservation` | crates/shared/src/state.rs:57-228 | in every run a state that missed nothing has every transaction before its read position queued, in a block of its chain, or popped by it or an ancestor; rotations allowed, whatever forks happened elsewhere |
| `ForkTheorems.AtomicRunsMissNothing` | crates/shared/src/state.rs:143-193 | while every fork is atomic, no state of the run has missed a message |
| `ForkTheorems.QueueFollowsLog` | crates/shared/src/state.rs:65-73 | in every run a queue is a duplicate-free subsequence of the log before its read position |
| `TxnSeqs.SubsequenceEmbeds` | crates/shared/src/state.rs:65-73 | what subsequence means: ascending positions at which its elements stand |
| `TxnSeqs.EmbeddedIsSubsequence` | crates/shared/src/state.rs:65-73 | conversely any such positions make a subsequence |
| `ForkTheorems.PristineQueue` | crates/shared/src/state.rs:57-228 | in every run, the queue of a state that missed nothing, popped nothing and had nothing expire is a function of the log prefix and the chain: first occurrences minus the blocks' transactions, in log order |
| `ForkTheorems.InterleavingIndependence` | crates/shared/src/state.rs:143-228 | states of any two runs that missed nothing, popped nothing and had nothing expire have equal queues at equal log prefixes with equal included transactions, whenever they drained and forked |
| `ForkTheorems.NothingExpired` | crates/shared/src/state.rs:95-104 | no included commit can have been collected on chains of at most three blocks or forked within two periods |
| `ForkTheorems.OrderPreserved` | crates/shared/src/state.rs:143-193 | no two states of a run that missed nothing, on any branches, queue the same two never included and never popped transactions in opposite orders |
| `ForkTheorems.OrdersDifferIff` | crates/shared/src/state.rs:143-228 | in every run, split forks included, two states queue two such transactions in opposite orders if and only if they first read them so |
| `ForkTheorems.QueueOrderIsFirstIndex` | crates/shared/src/state.rs:65-73 | two queued transactions that were never included or popped stand in the order of their first appearance |
| `ForkTheorems.SplitForkLossless` | crates/shared/src/state.rs:181-191 | finishing a split fork keeps conservation if and only if everything the parent consumed in between had been read, included or popped |
| `ForkTheorems.SplitForkLoses` | crates/shared/src/state.rs:181-191 | a run in which the child misses a transaction that its parent queued |
| `ForkTheorems.SplitForkInverts` | crates/shared/src/state.rs:181-191 | a run with a split fork that ends with queues [a, b] in the parent and [b, a] in the child, nothing included or popped |
| `TieredViewMaps.TieredViewMap.Insert` | crates/shared/src/coordinator/tiered_view_map.rs:142-151 | sets one entry, opening a bucket when needed; no bucket becomes empty |
| `TieredViewMaps.TieredViewMap.Prune` | crates/shared/src/coordinator/tiered_view_map.rs:163-168 | keeps the views from the cutoff on, returns the others; both parts well formed |
| `TieredViewMaps.GetIsFlat` | crates/shared/src/coordinator/tiered_view_map.rs:124-126 | `get` succeeds exactly on the keys of the flat map |
| `TieredViewMaps.InsertIsFlat` | crates/shared/src/coordinator/tiered_view_map.rs:142-151 | an insertion changes the flat map at its own key only |
| `TieredViewMaps.InsertKeys` | crates/shared/src/coordinator/tiered_view_map.rs:142-151 | an insertion adds its key and removes none |
| `TieredViewMaps.ExtremesAreFlat` | crates/shared/src/coordinator/tiered_view_map.rs:133-161 | lowest and highest view are attained bounds of the flat keys, absent exactly on the empty map |
| `TieredViewMaps.RangeVisitsOnce` | crates/shared/src/coordinator/tiered_view_map.rs:96-103 | `range` visits each stored view of the interval exactly once, ascending, with its bucket |
| `TieredViewMaps.LenIsFlat` | crates/shared/src/coordinator/tiered_view_map.rs:114-116 | `len` is the number of keys of the flat map |
| `TieredViewMaps.LenInserted` | crates/shared/src/coordinator/tiered_view_map.rs:142-151 | an insertion adds one exactly when its key was absent |
| `TieredViewMaps.PruneSplits` | crates/shared/src/coordinator/tiered_view_map.rs:163-168 | each entry survives a prune in exactly one part, chosen by its view |
| `TieredViewMaps.PruneLen` | crates/shared/src/coordinator/tiered_view_map.rs:163-168 | len(old) = len(kept) + len(returned) |
| `ProposalPairing.IdsAgree` | crates/shared/src/coordinator/mod.rs:238-264 | over any events the stored proposals carry their keys and the halves of every pair agree on view and builder commitment, so the assertion of the spawn never fails |
| `ProposalPairing.SpawnsIffBoth` | crates/shared/src/coordinator/mod.rs:231-264 | over any events a spawn is attempted for an id iff both kinds arrived, at most as often as the rarer kind; a stored kind has arrived at least once more than spawns were attempted |
| `ProposalPairing.LeftoverWaits` | crates/shared/src/coordinator/mod.rs:231-264 | over any events, a proposal that arrived when none was stored for its id, and after which only its own kind arrived for it, is what is stored |
| `ProposalPairing.EveryLeftoverWaits` | crates/shared/src/coordinator/mod.rs:231-264 | conversely every stored proposal is of that sort: the first to arrive for its id after the last completed pair |
| `ProposalPairing.LeftoverOfRarerKind` | crates/shared/src/coordinator/mod.rs:231-264 | with duplicates the leftover can be of the kind that arrived less often |
| `ProposalPairing.MatchByArrivals` | crates/shared/src/coordinator/mod.rs:231-264 | without duplicates the attempted pairs are exactly the arrived proposals of equal view and builder commitment, each once, and the leftovers those without a counterpart |
| `ProposalPairing.OrderIndependent` | crates/shared/src/coordinator/mod.rs:216-264 | duplicate-free reorderings attempt the same pairs, each once, and leave the same map |
| `ParentSelection.GreatestBelow` | crates/legacy/src/builder_state.rs:317-322 | finds the greatest stored view below a bound, if there is one |
| `ParentSelection.BestBuilderStatesToExtend` | crates/legacy/src/builder_state.rs:260-365 | returns exactly the states of the documented five-case rule: none if spawned, exact matches, all at the greatest lower view, the sole state, none |
| `ParentSelection.CandidatesSpec` | crates/shared/src/coordinator/mod.rs:402-485 | membership in the coordinator's choice, case by case; the fallback is the LOWEST lower view |
| `ParentSelection.ExactMatchesAgree` | crates/shared/src/coordinator/mod.rs:431-443 | on the same states (the older registry blank in the fields it does not use) the older builder sees the coordinator's exact matches, save only a bootstrap state it keeps without references |
| `ParentSelection.AgreesWhenForced` | crates/shared/src/coordinator/mod.rs:402-485 | already spawned, exactly matched or at most one view below, and the proposal does not certify a bootstrap state kept without references: the coordinator's choice is the documented one |
| `ParentSelection.DisjointOtherwise` | crates/shared/src/coordinator/mod.rs:451-464 | not spawned, not matched, more than one view below: the coordinator offers something, and nothing that the documented rule allows |
| `ParentSelection.BareBootstrapBestIff` | crates/legacy/src/builder_state.rs:292-310 | when the proposal certifies a bootstrap state kept without references, the choices are the same iff no other state is below it (for view 0: no other state at all) |
| `ParentSelection.SameChoiceIff` | crates/legacy/src/builder_state.rs:260-365 | for any registries with the same states, the older one's blank fields and bare bootstrap entry included, the two builders choose the same parents if and only if one of these conditions holds |
| `ParentSelection.BareBootstrapDiverges` | crates/legacy/src/service.rs:230-235 | with the bootstrap state and one later state stored, a later proposal that certifies the bootstrap leaf gets disjoint answers |
| `ParentSelection.SoleState` | crates/shared/src/coordinator/mod.rs:470-476 | with one entry, the highest view's bucket holds it |
| `CoordinatorRuns.SpawnAccounting` | crates/shared/src/coordinator/mod.rs:107-166 | every run, decides interleaved anywhere: keys are the states' own ids, the map is never empty, an insertion never overwrites, views of a pair agree, 1 + insertions = live + pruned states |
| `CoordinatorRuns.HighestNeverFalls` | crates/shared/src/coordinator/mod.rs:150-163 | no run lowers the highest stored view |
| `CoordinatorRuns.CutoffKeepsHighest` | crates/shared/src/coordinator/mod.rs:150-163 | the cutoff of a decide spares the highest view, so pruning never empties the map |
| `CoordinatorRuns.DecideSparesExactly` | crates/shared/src/coordinator/mod.rs:129-166 | a decide spares exactly the states of the decided view or later and those of the highest view, unchanged |
| `CoordinatorRuns.StoredUntilDecided` | crates/shared/src/coordinator/mod.rs:129-166 | over any run a stored state stays in place, unchanged, until a decide passes its view |
| `CoordinatorRuns.ChainIsFollowed` | crates/shared/src/coordinator/mod.rs:431-443 | once a child is stored, a proposal certified by the child's block is offered only states of that block's view and leaf, the child among them iff the proposal is not stored itself, until a decide passes that view |
| `CoordinatorRuns.LookupLinearizable` | crates/shared/src/coordinator/mod.rs:267-293 | with any steps between its two reads, `Found` and `NotFound` are true at the first and `Decided` at the second |
| `CoordinatorRuns.LowestFallsIff` | crates/shared/src/coordinator/mod.rs:308-345 | of all steps, only inserting below every stored view lowers the lowest view |
| `CoordinatorRuns.InsertRevivesIff` | crates/shared/src/coordinator/mod.rs:339-345 | an insertion brings back some `Decided` id if and only if it happens below the lowest view |
| `CoordinatorRuns.AtomicSpawnFallsIff` | crates/shared/src/coordinator/mod.rs:308-345 | find and insert in one step lower the lowest view iff the proposal is below every stored view and found a parent by its certificate or as the sole state; never when the child's view is at least its parent's |
| `CoordinatorRuns.LowestNeverFalls` | crates/shared/src/coordinator/mod.rs:308-345 | in every run from the start whose children's views are at least their parents' and whose decides spare the parent of a child in flight, the lowest view never falls between any two moments |
| `CoordinatorRuns.AtomicLowestNeverFalls` | crates/shared/src/coordinator/mod.rs:308-345 | runs whose spawns are one step are such runs as soon as no child is below its parent |
| `CoordinatorRuns.DecidedStaysDecided` | crates/shared/src/coordinator/mod.rs:280-293 | in such runs a `Decided` answer is final: every later lookup of the id, however its two reads are interleaved, answers it again, and the id is not stored |
| `CoordinatorRuns.ParentAboveIff` | crates/shared/src/coordinator/mod.rs:402-485 | when a child can lie below its parent: the matched certificate names a later view, or nothing matches and every stored view is later |
| `CoordinatorRuns.SoleStateRevives` | crates/shared/src/coordinator/mod.rs:470-476 | extending a sole state above the proposal turns a `Decided` answer into `Found` |
| `CoordinatorRuns.DecideInFlightRevivesIff` | crates/shared/src/coordinator/mod.rs:308-345 | a decide between find and insert gets its `Decided` taken back iff its cutoff leaves only greater views |
| `CoordinatorRuns.ReviveReachable` | crates/shared/src/coordinator/mod.rs:308-345 | a run from the start, with proposals that match no certificate, in which a decide between find and insert makes an id `Decided` that is then stored |
| `CoordinatorRuns.AtomicReviveReachable` | crates/shared/src/coordinator/mod.rs:470-476 | a run from the start in which a one-step spawn on the sole state turns a `Decided` answer into `Found` |
| `Coordinators.BuilderStateCoordinator.constructor` | crates/shared/src/coordinator/mod.rs:102-123 | starts with the bootstrap state under its own id, no proposals and an empty history |
| `Coordinators.BuilderStateCoordinator.HandleTransaction` | crates/shared/src/coordinator/mod.rs:181-211 | broadcasts the transaction or reports a full channel; the states are untouched |
| `Coordinators.BuilderStateCoordinator.HandleDecide` | crates/shared/src/coordinator/mod.rs:129-166 | keeps the very states from the capped cutoff on and returns exactly the others |
| `Coordinators.BuilderStateCoordinator.FindBuilderStatesToExtend` | crates/shared/src/coordinator/mod.rs:402-485 | the objects returned are live and are those of the selection rule |
| `Coordinators.BuilderStateCoordinator.LookupBuilderState` | crates/shared/src/coordinator/mod.rs:280-293 | `Found` iff stored and then the object of that id; `Decided` iff absent and every stored view is greater |
| `Coordinators.BuilderStateCoordinator.SpawnBuilderState` | crates/shared/src/coordinator/mod.rs:308-345 | a child of a live candidate is stored under its own id with the forked contents, or nothing changes when there is no candidate |
| `Coordinators.BuilderStateCoordinator.HandleProposal` | crates/shared/src/coordinator/mod.rs:231-264 | stores, ignores or consumes the proposal, and exactly for a completed pair with a candidate parent adds one live state, with the contents forked from that parent |
| `Coordinators.ProposalIsRun` | crates/shared/src/coordinator/mod.rs:231-345 | what one undisturbed proposal does to the object is a run of the step system, so the theorems about runs apply |
| `BlockPacking.Pack` | crates/legacy_refactored/src/service.rs:338-356 | the loop with its running total takes the specified prefix |
| `BlockPacking.SumConcat` | crates/legacy_refactored/src/service.rs:340-352 | the running total is additive and a single transaction's own size for one |
| `BlockPacking.PackIsGreatest` | crates/legacy_refactored/src/service.rs:338-356 | the packed prefix is the longest whose total is below the limit or whose transactions but the last have no size |
| `BlockPacking.PackIsGreedy` | crates/legacy/src/builder_state.rs:735-747 | non-empty for a non-empty queue, below the limit unless all but the last have size 0, and one more would reach the limit |
| `BlockBuilding.CaptureTransactions` | crates/legacy_refactored/src/service.rs:302-314 | the timed wait, as the number of drains it makes and what they leave in state and channel |
| `BlockBuilding.DrainReads` | crates/shared/src/state.rs:196-228 | one drain of the wait reads as far as its time and the channel allow; everything it read is then queued or recently included, and nothing else was added |
| `BuildRuns.WaitIsRun` | crates/legacy_refactored/src/service.rs:302-314 | the whole wait is a run of broadcasts and of receives of its own state |
| `BlockBuilding.WaitsOnlyWhenPopulated` | crates/legacy_refactored/src/service.rs:302-314 | the wait gives up after one drain when the queue is empty and sits out the whole window otherwise |
| `BlockBuilding.WaitsAgreeIff` | crates/legacy/src/builder_state.rs:701-714 | it runs as long as the wait its name promises exactly when the window has room for one iteration |
| `BlockBuilding.BuildBlock` | crates/legacy_refactored/src/service.rs:298-427 | result and final state of a build after the wait, for every behaviour of the payload constructor that keeps a prefix |
| `BuildRuns.BuildIsRun` | crates/legacy_refactored/src/service.rs:298-427 | a build, wait and drop included, is a run in which only its own state receives and at most one pop comes last |
| `BlockBuilding.DropsOnlyOffered` | crates/legacy_refactored/src/service.rs:388-395 | while only arrivals come between packing and dropping, the dropped transaction is the head that was offered iff the queue was not empty when read |
| `BlockBuilding.DropsOfferedHeadIff` | crates/legacy_refactored/src/service.rs:388-395 | with any arrivals and any drops of other builds in between: while one of those read is left, the drop takes the first left, which is the offered head iff no other drop came in between; once none is left it takes one that arrived since; so unless the offered head was broadcast again, it is what the drop takes iff no other drop came in between |
| `BlockBuilding.SecondBuildDropsNext` | crates/legacy_refactored/src/service.rs:388-395 | two builds that both find the same head too big also drop the transaction behind it |
| `BlockBuilding.RearrivedHeadIsDropped` | crates/legacy_refactored/src/service.rs:388-395 | the exception: a head dropped by another build and broadcast again is dropped a second time |
| `BlockBuilding.EmptyReadDropsArrival` | crates/legacy_refactored/src/service.rs:332-395 | with the finalization flag set and an empty queue at the read, the drop takes a transaction that arrived since and was offered to no one |
| `BlockBuilding.TurnTakesPrefix` | crates/legacy_refactored/src/service.rs:332-395 | one build and fork takes a prefix off the queue, non-empty while there is a queue |
| `BlockBuilding.DrainsInOrder` | crates/legacy_refactored/src/service.rs:332-395 | while nothing arrives, n turns empty a queue of n whatever the limits and the sequencer's truncation; blocks and dropped heads concatenate to the queue |
| `BlockBuilding.ServedInOrder` | crates/legacy_refactored/src/service.rs:298-395 | whatever each turn's opening drain brings in, the first n queued transactions have left after n turns, in blocks or as dropped heads, in order and before anything that arrived later; what has not left is still queued |
| `EmptyBlockWindow.Remembered` | crates/shared/src/state.rs:162-179 | along a chain the remembered view and the older deadline both name the nearest block with transactions |
| `EmptyBlockWindow.LegacyWindow` | crates/legacy/src/builder_state.rs:675-727 | the older builder allows empty blocks exactly while the parent view is less than three past the nearest block with transactions |
| `BlockBuilding.FlagIff` | crates/legacy_refactored/src/service.rs:319-327 | the newer flag never expires: only a last non-empty view three or more past the parent's own could turn it off |
| `EmptyBlockWindow.RefactoredWindow` | crates/legacy_refactored/src/service.rs:316-327 | on every chain of blocks the newer flag only says whether the parent block has transactions |
| `EmptyBlockWindow.WindowsDifferIff` | crates/legacy_refactored/src/service.rs:316-327 | the newer window lies inside the older, and differs iff the parent block is empty but within three views of one that is not |
| `EmptyBlockWindow.WindowsDiffer` | crates/legacy_refactored/src/service.rs:316-327 | one empty block after a block with transactions is enough for them to differ |
| `EmptyBlockWindow.DocumentedFlagIsLegacy` | crates/legacy_refactored/src/service.rs:316-327 | the rule of the comment, on the same references, is the older builder's on every chain |
| `ReachableWindows.WindowInRuns` | crates/legacy_refactored/src/service.rs:316-327 | in every run of the fork tree a state extends a chain of its blocks and names the last: view, three commitments, transaction count; it may build an empty block iff that block has transactions |
| `ReachableWindows.StoredOnChain` | crates/shared/src/state.rs:162-179 | every state stored in a run of the coordinator extends a chain of paired proposals and names the last of them; its flag says whether its block has transactions, and the older deadline on that chain is the documented rule |
| `ReachableWindows.InsertedNamesBlock` | crates/shared/src/state.rs:172-179 | what a spawn stores names the block of the pair: view, three commitments and transaction count |
| `BlockSizeLimitsModel.BlockSizeLimits.TryIncrementBlockSize` | crates/legacy_refactored/src/block_size_limits.rs:61-86 | when forced or due the limit grows by a tenth rounded up, capped by the protocol, and the clock restarts; otherwise nothing changes |
| `BlockSizeLimitsModel.BlockSizeLimits.DecrementBlockSize` | crates/legacy_refactored/src/block_size_limits.rs:90-107 | the limit falls by a tenth rounded up but not below the floor; the clock is kept |
| `BlockSizeLimitsModel.BlockSizeLimits.ClaimFeedback` | crates/legacy_refactored/src/service.rs:741-758 | a timed-out request lowers the limit; one served with time to spare raises it if truncated or due and else leaves it; a refused or tight one leaves it |
| `BlockSizeLimitsModel.StaysBetween` | crates/legacy_refactored/src/block_size_limits.rs:61-107 | every run of adjustments stays between the floor and the protocol maximum |
| `BlockSizeLimitsModel.NeverExceedsProtocolIff` | crates/legacy_refactored/src/block_size_limits.rs:36-107 | no run passes the protocol maximum if and only if that maximum is at least the floor |
| `BlockSizeLimitsModel.NoGainFromDipIff` | crates/legacy_refactored/src/block_size_limits.rs:61-107 | a decrement undone by an increment ends no higher than it began iff nine tenths reach the floor, or the climb from the floor does not pass the start |
| `BlockSizeLimitsModel.GrowsGeometrically` | crates/legacy_refactored/src/block_size_limits.rs:61-86 | after n increments the limit is the protocol maximum or at least (11/10)^n times the start |
| `BlockSizeLimitsModel.GrowsNoFaster` | crates/legacy_refactored/src/block_size_limits.rs:61-86 | after n increments it is, but for the rounding of each step, at most (11/10)^n times the start |
| `BlockSizeLimitsModel.Recovers` | crates/legacy_refactored/src/block_size_limits.rs:61-86 | the maximum is reached within any N with 11^N * size >= 10^N * maximum |
| `BlockSizeLimitsModel.FallsGeometrically` | crates/legacy_refactored/src/block_size_limits.rs:90-107 | after n decrements the limit is the floor or at most (9/10)^n times the start, and never below the floor |
| `BlockSizeLimitsModel.FallsNoFaster` | crates/legacy_refactored/src/block_size_limits.rs:90-107 | after n decrements it is, but for the rounding of each step, at least (9/10)^n times the start |
| `BlockSizeLimitsModel.LegacyBlockSizeLimits.TryIncrementBlockSize` | crates/legacy/src/service.rs:113-124 | the older limit grows by the same amount under the same condition |
| `BlockSizeLimitsModel.LegacyBlockSizeLimits.DecrementBlockSize` | crates/legacy/src/service.rs:128-136 | the older limit falls by the same amount, and its plain subtraction cannot underflow |
| `BlockStores.BlockStore.Update` | crates/legacy_refactored/src/block_store.rs:64-72 | stores the block under its id and points the requester's cache entry to it |
| `BlockStores.BlockStore.GetCached` | crates/legacy_refactored/src/block_store.rs:74-77 | answers with the block the cache entry points to, if both are present |
| `BlockStores.BlockStore.Prune` | crates/legacy_refactored/src/block_store.rs:83-86 | blocks and cache entries below the cutoff go, the others stay |
| `BlockStores.CacheNeverDangles` | crates/legacy_refactored/src/service.rs:483-492 | over every run whose blocks have views not below their requesters' (the service uses the requester's own), a cached id always yields a block |
| `BlockStores.SafeUnderPruneIff` | crates/legacy_refactored/src/block_store.rs:83-86 | a sound cache survives every prune if and only if no cached block's view is below its requester's |
| `BlockStores.GetBlockIsLast` | crates/legacy_refactored/src/block_store.rs:64-86 | `get_block` returns what was last stored under the id unless pruned since |
| `BlockStores.GetCachedFromHistory` | crates/legacy_refactored/src/block_store.rs:64-86 | `get_cached` returns the latest contents of the block last offered to the requester unless pruned since |
| `LegacyGlobalState.GlobalState.RegisterBuilderState` | crates/legacy/src/service.rs:266-295 | adds or overwrites the entry, and moves the highest id only to a strictly higher view |
| `LegacyGlobalState.GlobalState.RemoveHandles` | crates/legacy/src/service.rs:363-376 | keeps the entries from the capped cutoff on, records the view before it and returns it |
| `LegacyGlobalState.GlobalState.GetChannelForMatchingBuilderOrHighestViewBuilder` | crates/legacy/src/service.rs:445-464 | the matching sender, else that of the highest state, else none |
| `LegacyGlobalState.FallbackNeverFails` | crates/legacy/src/service.rs:266-464 | over every run the channel lookup answers the sender last given for the key or, if it is not registered, for a registered state of maximum view |
| `LegacyGlobalState.SendersFromHistory` | crates/legacy/src/service.rs:266-295 | every registered state has the sender of its last registration, or is the bootstrap state with its own |
| `LegacyGlobalState.HighestIsFirst` | crates/legacy/src/service.rs:280-294 | the highest id is of maximum view over all registrations, and the first with that view |
| `LegacyGlobalState.DecideSpares` | crates/legacy/src/service.rs:363-376 | a decide spares exactly the states of the decided view or later and those of the highest view; the recorded view separates the removed from the spared |
| `LegacyGlobalState.RecordedView` | crates/legacy/src/service.rs:370-373 | after any run the recorded view is one before the last decide's cutoff, which is the lesser of the decided and the highest view, and zero for cutoff zero |
| `LegacyGlobalState.CutoffsAscend` | crates/legacy/src/service.rs:363-376 | for non-decreasing decided views the returned cutoffs never decrease |
| `LegacyGlobalState.CoordinatorRefinesLegacy` | crates/shared/src/coordinator/mod.rs:129-166 | fed the same additions and decides, coordinator and older registry hold the same states for the same blocks, the older one with blank counts and no references for its bootstrap entry; they prune at the same cutoff and agree on the highest view |
| `LegacyGlobalState.SameChoiceInRuns` | crates/legacy/src/builder_state.rs:260-365 | after any common run the two builders choose the same parents for a proposal exactly on the domain of `SameChoiceIff` |
| `LegacyGlobalState.RunsAreCommon` | crates/shared/src/coordinator/mod.rs:129-166 | every run of the coordinator, spawns interleaved with decides, stores what the common run of its insertions and decides stores |

## Left out

- Fixed-width integers: sizes, views and clock ticks are unbounded, so overflow of the 64-bit sums in packing, in the size step and in the view plus three is not modelled.
- ForkTheorems.PristineQueue: requires that nothing was missed, that nothing was popped and no included commit was collected; with expiry a collected commit may legitimately be queued again, which `Reachable` covers by stating the queue up to included and popped commits.
- ForkTheorems.Conservation: for states that missed nothing in a split fork; the exact condition for all states is `LossExactlyInSplitForks`.
- BuilderStates.BuilderState.NewChild: cloning the queue and cloning the receiver form one step here; the split is modelled in `ForkTrees`.
- Coordinators.BuilderStateCoordinator.HandleProposal: one undisturbed call; interleaving with decides and lookups is modelled in `CoordinatorRuns`. The field `builderStates` holds the tiered map as a value, so the map object behind its lock is not shared.
- Iteration order of hash maps: any candidate may be chosen from a bucket.
- BuilderStates.TxnChannel.TryBroadcast: channel capacity is the channel's own verdict, given as a parameter; receivers that lag behind a full channel and closed channels are not modelled.
- BlockBuilding.BuildBlock: the foreign payload constructor is a parameter that fails or keeps a prefix; fees, signatures, VID data and encoding are not modelled, nor is the request timeout that can abandon a build.
- BlockBuilding.DrainRound: the broadcasts between two drains are those the channel accepted.
- Transaction-status caches: eviction is library behaviour.
- Waiting and keeping of asynchronous results (`WaitAndKeep`): depends on the runtime.
- HTTP and API wiring, event streams, reconnection, configuration, signature checks.
- The older builder's event loop, its request channels, its own `collect_txns` and its two proposal maps: the same rules as the newer ones around different plumbing.
- The older builder's `clone_with_receiver`: it rotates the included transactions as soon as a period has passed (`crates/legacy/src/builder_state.rs:1072`), where the newer set needs strictly more.
- The older builder marks an oversized head as included when dropping it (`crates/legacy/src/builder_state.rs:777-783`); the newer one, modelled here, only pops it.
- The marketplace crate: it serves the whole queue and adds no rule of its own.
