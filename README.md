# UCC shared-memory collectives, CL-list parser and test buffers in Dafny

This project models the core of UCC's shared-memory transport layer (TL/SHM), seen from one rank.

**The collectives.** Five collectives are modelled: broadcast, reduce, allreduce, barrier and fan-out.
- Each is a stage machine that runs over a two-level tree pair: a base (group) tree and a top (leaders) tree.
- The rank talks to the others through a shared segment. The segment holds one control record per team rank, with the counters `pi`, `pi2`, `ci` and `rr` and an inline data area, plus one data block per rank.

**The other parts.** Besides the collectives, the model covers:
- the broadcast tree setup, with its leader substitution;
- the generic performance-parameter selectors;
- the type declarations of `tl_shm.h`;
- `ucc_parse_cls_string`, the parser of the `UCC_CLS` list;
- the integer fill and compare helpers of the MPI tests.

**Modules.** One module per file:
- `TlShm` (`tl_shm.dfy`): the types.
- `ShmCommon` (`shm_common.dfy`): memcpy, polling, counter stores, and the helpers whose code is not part of this model.
- `Bcast`, `Reduce`, `Allreduce`, `Barrier` and `Fanout`: the collectives.
- `PerfParamsSel`: the generic performance-parameter selectors.
- `ClParse`: the `UCC_CLS` parser.
- `TestBuffer`: the test-buffer helpers.

**How the stage machines are modelled.**
- `goto next_stage` back to the `switch` becomes a loop over a `Step` method, and `Step` is one pass through the switch.
- `Task`, `Segment` and `Team` are classes whose fields the methods update.
- The segment carries a ghost `trace`, which lists the calls into unmodelled helpers, the copies, the posted reductions and the stores of `pi` and `ci` in the order the rank makes them.
- Each progress function is proved against a specification function: the full list of calls (or actions) a complete run makes. Lemmas about that list give the stage order, the single sequence-number bump, and which strategy pushes and which pulls.
- Sequence numbers are `uint64_t`: all their arithmetic is modulo 2^64. `bcast.c` compares `pi` against its 32-bit copy, so the model truncates there.

**What stays abstract.**
- Polling: nobody else writes the segment within one rank's model. A loop of `n_polls` identical reads therefore observes the value exactly when `n_polls > 0` and the value already matches.
- The helpers whose code is not shown (segment-ready checks, fan-in and fan-out signalling, copy/signal to children, k-nomial tree construction, the tree cache, `ucc_tl_shm_tree_init`, the executor, the progress queue) are opaque methods:
  - they keep the segment's layout;
  - they record their call in the trace;
  - they leave contents and status open.

## Model

| member | source | states |
|---|---|---|
| TlShm.Trunc32 | src/components/tl/shm/bcast/bcast.c:15 | the 32-bit copy of the sequence number is below 2^32 and equals the 64-bit value whenever that fits |
| TlShm.SnRewindUndoesBump | src/components/tl/shm/tl_shm.h:119-125 | on the unsigned 64-bit sequence type, `seq_num - 1` undoes `seq_num++` (and conversely), also across the wrap-around, and a bump always changes the value |
| TlShm.AlgIndex | src/components/tl/shm/tl_shm.h:43-50 | every broadcast strategy has an enum value below BCAST_LAST |
| TlShm.AlgOfIndex | src/components/tl/shm/tl_shm.h:43-50 | an enum value names a strategy exactly when it is below BCAST_LAST, so BCAST_LAST is a bound and not a strategy |
| TlShm.AlgIndexRoundTrip | src/components/tl/shm/tl_shm.h:43-50 | enum values below BCAST_LAST and the four strategies WW, WR, RR, RW correspond one to one (both round trips) |
| TlShm.AlgIsDirectionPair | src/components/tl/shm/tl_shm.h:43-50 | a strategy is exactly one choice of push or pull for the top level and one for the base level (both directions) |
| ShmCommon.Memcpy | src/components/tl/shm/bcast/bcast.c:66 | the first n bytes of the destination become those of the source, its other bytes and every other buffer are unchanged, and the copy is recorded |
| ShmCommon.PollPi | src/components/tl/shm/bcast/bcast.c:31-32 | the n_polls reads of `pi` see the sequence number iff n_polls > 0 and `pi` already holds it; nothing is written |
| ShmCommon.StorePi | src/components/tl/shm/reduce/reduce.c:78 | `pi := seq_num` on this rank's record, the other counters and records unchanged, the store recorded |
| ShmCommon.StoreCi | src/components/tl/shm/reduce/reduce.c:184-185 | `ci := seq_num` on this rank's record, the other counters and records unchanged, the store recorded as a completion |
| Bcast.BcastWrite | src/components/tl/shm/bcast/bcast.c:10-43 | a tree root forwards at once, from the user source when it is the op root and from its own inline or block shm otherwise; any other rank forwards its own shm iff its `pi` shows the 32-bit sequence number within n_polls, else returns INPROGRESS with the segment unchanged |
| Bcast.BcastRead | src/components/tl/shm/bcast/bcast.c:45-89 | a tree root copies exactly data_size bytes of the user source into its own inline area or block and then signals its children; any other rank waits for its `pi` and only if it has children copies its parent's shm into its own and signals; a leaf writes nothing; user buffers untouched |
| Bcast.WriteThenRead | src/components/tl/shm/bcast/bcast.c:242-257 | OK means the top write (when there is a top tree) recorded its copy to the children and then the base read recorded its own events, in that order; INPROGRESS means the segment is unchanged, or the top write completed and the base read changed nothing after it; a top write that does not see its `pi` stops the step with nothing written; no completion stored, user buffers untouched |
| Bcast.WrTransfer | src/components/tl/shm/bcast/bcast.c:242-273 | past the segment check: on OK exactly the write-then-read events, the copy-out and `ci := seq_num`, with the base parent's data_size bytes in the user buffer; on INPROGRESS status and user buffer unchanged, and at most the top write recorded |
| Bcast.OpRootSegReady | src/components/tl/shm/bcast/bcast.c:235-241 | only the op root calls `seg_ready`; any other rank records nothing and changes nothing |
| Bcast.CopyOutAndComplete | src/components/tl/shm/bcast/bcast.c:263-273 | a rank with a base parent gets exactly data_size bytes of that parent's shm in its user buffer (rest unchanged), the root keeps its buffer; then `ci := seq_num` as the last event and status OK |
| Bcast.WrProgress | src/components/tl/shm/bcast/bcast.c:220-274 | a failed `seg_ready` on the op root gives INPROGRESS with only the check recorded and the task untouched; OK records exactly `WrEvents`: the check on the op root, the top write, the base read, the copy-out from the base parent, and `ci := seq_num` last, with status OK and the parent's data_size bytes in the user buffer; INPROGRESS leaves status and user buffer unchanged and records at most the check and the top write; is_inline iff data_size <= max_inline |
| Bcast.WrEventsShape | src/components/tl/shm/bcast/bcast.c:220-274 | in a completed call the op root's segment check is first and the top write next; the user buffer is written exactly when there is a base-tree parent, once, from that parent's shm, as the last copy; the completion store is the last event and the only one |
| Bcast.BcastStart | src/components/tl/shm/bcast/bcast.c:288-307 | the task's sequence number is bumped before the progress call; the task is enqueued iff that call left it in progress, otherwise it is complete with `ci = seq_num` |
| Bcast.BcastInit | src/components/tl/shm/bcast/bcast.c:310-343 | the task takes the team's old sequence number, the team's is bumped, the segment is `seq_num mod n_concurrent`; a tree failure is NO_MEMORY and returned; on OK, unless the tree came from the cache, the task's tree has a base level iff the group has more than one rank and a top level iff the gate admits this rank, built with the bcast radices as `TreeInitBcast` states; only BCAST_WR installs a progress function |
| Bcast.IndexOf | src/components/tl/shm/bcast/bcast.c:138-143 | the first index holding x, and None exactly when x does not occur |
| Bcast.FindIndex | src/components/tl/shm/bcast/bcast.c:138-143 | the search loop finds exactly IndexOf (the local rank, or the root among the leaders at lines 166-171) |
| Bcast.LastInGroup | src/components/tl/shm/bcast/bcast.c:186-197 | the last leader slot in the given group, None exactly when no leader is in it |
| Bcast.SubstMapHoldsRootExactlyAtRootGroup | src/components/tl/shm/bcast/bcast.c:186-197 | in the temporary map a slot holds the root iff its leader is in the root's group, and every other slot keeps its leader |
| Bcast.SubstMapRootSlotUnique | src/components/tl/shm/bcast/bcast.c:186-197 | with one leader per group, exactly one slot holds the root: the slot of the root's group leader, the one the loop leaves in tree_root |
| Bcast.SubstituteRootLeader | src/components/tl/shm/bcast/bcast.c:182-197 | the loop fills the temporary map, finds the root's group-leader slot as tree root, and yields this rank's index in the substituted tree, with the corrected index of "## Findings" (`rank = i` on the root only) |
| Bcast.SubstRankIsOwnSlot | src/components/tl/shm/bcast/bcast.c:186-200 | with the corrected index, every rank building the substituted leaders tree finds itself at its own slot of the map |
| Bcast.SubstRankAsWrittenMisplacesLeader | src/components/tl/shm/bcast/bcast.c:189-193 | the index as written puts a leader from another group at the root's slot (a four-rank counterexample), the corrected one does not |
| Bcast.TreeInitBcast | src/components/tl/shm/bcast/bcast.c:90-218 | a cache hit builds nothing; otherwise allocation failure is NO_MEMORY, a base tree is built iff the group has more than one rank, rooted at the root's group index or 0 and at this rank's first index in its group, and a top tree iff leaders_size > 1 and (rank == root, or the root's group is another and the leaders group is enabled), over the leaders map or the substitution map, at the corrected index of "## Findings" |
| Reduce.BatchReductionsAppend | src/components/tl/shm/reduce/reduce.c:84-119 | each further batch of `min(radix-1, n_children-cur_child)` children extends the posted reductions by one, stays within the children, and only the very first batch takes the caller's accumulator |
| Reduce.BatchReductionsIntoDst | src/components/tl/shm/reduce/reduce.c:101-112 | every posted reduction goes into the rank's destination |
| Reduce.BatchReductionsFoldEachChildOnce | src/components/tl/shm/reduce/reduce.c:83-119 | whole batches fold every child between the start and cur_child exactly once, in order |
| Reduce.BatchReductionsShape | src/components/tl/shm/reduce/reduce.c:65-110 | each reduction has between 2 and radix inputs (srcs stays within `srcs[radix]`), the first takes the caller's accumulator and every later one the destination itself |
| Reduce.DtReduce | src/components/tl/shm/reduce/reduce.c:17-46 | one reduction of the given inputs into the destination is posted and recorded; a failed post returns its own status, otherwise the result is OK or the executor's final status, never INPROGRESS; only the destination's storage changes, keeping its size |
| Reduce.ReduceLeaf | src/components/tl/shm/reduce/reduce.c:69-80 | a leaf copies count*dt_size bytes of its input into its own shm only when asked (base tree or no base tree), then sets `pi := seq_num` and returns OK |
| Reduce.PollBatch | src/components/tl/shm/reduce/reduce.c:84-99 | num_ready children of the batch are ready, in order, the next one is not, and srcs[1..num_ready] name their shm areas |
| Reduce.FoldBatch | src/components/tl/shm/reduce/reduce.c:100-119 | the batch is reduced into dst with the right accumulator, first_reduce is cleared, cur_child advances by the batch on OK and stays otherwise, and an executor failure is stored in the task |
| Reduce.ScanChildren | src/components/tl/shm/reduce/reduce.c:82-121 | cur_child only moves by whole batches, never past an incomplete one; OK iff every child was folded; INPROGRESS at the first child not ready; executor errors stored; first_reduce cleared once a batch ran |
| Reduce.ReduceChildren | src/components/tl/shm/reduce/reduce.c:82-126 | the scan's guarantees, plus `pi := seq_num` after the last batch exactly when the rank has a parent |
| Reduce.ReduceRead | src/components/tl/shm/reduce/reduce.c:49-127 | a leaf returns OK with `pi := seq_num`; an inner node returns OK exactly when every child is folded, with cur_child at the end and the trace grown by `LevelEvents` (the copy into shm where asked, the batch reductions from cur_child on, `pi` last when there is a parent); otherwise the reductions of the batches completed so far; an error is stored in the task, INPROGRESS leaves the status; no completion stored |
| Reduce.LevelFoldsRemainingChildren | src/components/tl/shm/reduce/reduce.c:82-126 | a level's read that completes folds every child from cur_child on, exactly once and in order |
| Reduce.LevelSignalsParentLast | src/components/tl/shm/reduce/reduce.c:69-126 | a level's read that completes reduces only into the rank's destination, stores no completion, and stores `pi` exactly when the rank is a leaf or has a parent, as its last event |
| Reduce.StagePathFollowsOrder | src/components/tl/shm/reduce/reduce.c:158-182 | every stage path from START follows the full stage order START, BASE_TREE (if there is a base tree), TOP_TREE (if there is a top tree) |
| Reduce.CompleteStagePaths | src/components/tl/shm/reduce/reduce.c:158-182 | a complete run from START is exactly that stage order |
| Reduce.BaseLevelFoldsThenTop | src/components/tl/shm/reduce/reduce.c:169-182 | from the base level the run folds that level's children from cur_child on and then every top-level child |
| Reduce.ReductionFoldsEveryChild | src/components/tl/shm/reduce/reduce.c:157-182 | a completed run folds exactly the children still to fold, base level then top level, once each and in order, after the segment check when it starts at START |
| Reduce.ReductionPostsIntoDst | src/components/tl/shm/reduce/reduce.c:101-182 | every reduction of a completed run goes into the rank's destination, and no completion is stored before the final one |
| Reduce.BaseTreeStage | src/components/tl/shm/reduce/reduce.c:169-177 | a non-OK read is stored with the stage kept and cur_child within the level; on OK cur_child := 0, the stage moves to TOP_TREE iff there is a top tree, first_reduce is what the level leaves, and the trace grows by exactly the base level's `LevelEvents` (a leaf copies its source into its shm) |
| Reduce.TopTreeStage | src/components/tl/shm/reduce/reduce.c:178-181 | a non-OK read is stored and leaves the task resumable; on OK every top-level child is folded and the trace grows by exactly the top level's `LevelEvents`, with the leaf copy only when there is no base tree |
| Reduce.TreeStages | src/components/tl/shm/reduce/reduce.c:169-182 | the stages taken form a path of the transitions; a non-OK status is stored; OK means a final stage and the trace grown by exactly `ReduceEvents` from the saved stage, cur_child and first_reduce |
| Reduce.StartStage | src/components/tl/shm/reduce/reduce.c:157-166 | the segment check is recorded; a failure is stored with the stage kept at START; on OK the stage is BASE_TREE when there is a base tree, else TOP_TREE |
| Reduce.LevelsThenComplete | src/components/tl/shm/reduce/reduce.c:169-189 | from a level's stage: INPROGRESS leaves a resumable task and no completion; OK means a final stage, `ci = seq_num` and the trace grown by exactly `ReduceEvents` then the ci store |
| Reduce.FromStart | src/components/tl/shm/reduce/reduce.c:157-189 | from START: a failed segment check records only that check; OK means a final stage, `ci = seq_num` and the trace grown by exactly the check, `ReduceEvents` from the first level at cur_child 0, and the ci store |
| Reduce.Progress | src/components/tl/shm/reduce/reduce.c:129-192 | the stages taken form a path of the transitions; INPROGRESS leaves a resumable task and no completion; OK means a final stage, `ci = seq_num` (no rewind), and the trace grown by exactly `ReduceEvents` from the saved stage followed by the ci store; a failed START check records only that check |
| Reduce.Start | src/components/tl/shm/reduce/reduce.c:194-225 | the stage is reset to START; the tree is looked up under the key (selected base radix, selected top radix, `args.root`, REDUCE, selected base_tree_only); a tree or executor failure is returned before enqueueing; once enqueued the task is in progress with an executor |
| Reduce.Init | src/components/tl/shm/reduce/reduce.c:227-248 | AVG is NOT_SUPPORTED, the lack of a task NO_MEMORY, OK otherwise with the reduce progress function installed |
| Allreduce.ReachesNext | src/components/tl/shm/allreduce/allreduce.c:43-110 | moving on from a stage extends a run by that stage's action |
| Allreduce.CompleteRun | src/components/tl/shm/allreduce/allreduce.c:43-110 | a run from START that breaks out of the switch took exactly: segment check, base and top reduction, top and base broadcast, each level only where it exists |
| Allreduce.TopRunTail | src/components/tl/shm/allreduce/allreduce.c:74-103 | a run ending after the top reduction took the top reduction and then the broadcast levels, ending at the base broadcast iff there is a bcast base tree |
| Allreduce.AppendAction | src/components/tl/shm/allreduce/allreduce.c:43-110 | a run grown by one stage records that stage's events after the run's, and passes first_reduce on from where the run left it |
| Allreduce.ReduceHalfRecords | src/components/tl/shm/allreduce/allreduce.c:45-81 | the segment check and the reduction levels of a run from START record exactly what `reduce_progress` records from START (`Reduce.ReduceEvents`) |
| Allreduce.BcastLevelRecords | src/components/tl/shm/allreduce/allreduce.c:82-103 | a broadcast level records a copy to the children exactly when it is pushed, and then only that one, for the bumped 32-bit sequence number and data_size bytes; every copy it makes goes into the rank's own shm; it posts no reduction and stores neither pi nor ci |
| Allreduce.BcastLevelAppends | src/components/tl/shm/allreduce/allreduce.c:82-103 | a broadcast level appends its events to the run's, folds nothing and leaves first_reduce |
| Allreduce.BcastHalfFoldsNothing | src/components/tl/shm/allreduce/allreduce.c:82-103 | the broadcast half extends the records of the run before it and folds nothing more |
| Allreduce.AllreduceRunRecords | src/components/tl/shm/allreduce/allreduce.c:43-110 | a complete run from START starts with exactly the records of `reduce_progress` from START and folds every child of the base and then the top reduce level, once each and in order |
| Allreduce.OneBumpPerRun | src/components/tl/shm/allreduce/allreduce.c:64-81 | the sequence number changes on exactly one transition, from the last reduction level to the first broadcast level, and there by one |
| Allreduce.CiWaitOnlyAfterPull | src/components/tl/shm/allreduce/allreduce.c:157-172 | a level is waited on exactly when it has children and was broadcast by pull |
| Allreduce.ChildrenConsumed | src/components/tl/shm/allreduce/allreduce.c:161-181 | the scan passes iff every child has `ci >= seq_num - 1` (unsigned) |
| Allreduce.CiWaits | src/components/tl/shm/allreduce/allreduce.c:104-183 | from the saved stage, the top wait then the base wait as they apply; a level not yet consumed leaves its ci stage saved |
| Allreduce.CopyOutFromOwnShm | src/components/tl/shm/allreduce/allreduce.c:120-140 | the copy-out source is the rank's own shm for WW and RW, or for WR without a base parent, and the base parent's shm otherwise when there is one |
| Allreduce.CopyOut | src/components/tl/shm/allreduce/allreduce.c:118-143 | data_size bytes of the source the code picks land in the user destination, rest of it unchanged, the source unchanged, and the copy recorded |
| Allreduce.StartStage | src/components/tl/shm/allreduce/allreduce.c:45-59 | after the segment check the stage is BASE_TREE_REDUCE iff there is a reduce base tree, else TOP_TREE_REDUCE; an in-place non-root points src at dst |
| Allreduce.ReduceLevelRead | src/components/tl/shm/allreduce/allreduce.c:61-62 | reduce_read over one reduce-tree level: a non-OK status stored in the task; on OK every child of the level folded, first_reduce as the level leaves it, and the trace grown by exactly that level's `Reduce.LevelEvents` over data_size bytes; no completion stored |
| Allreduce.BaseReduceStage | src/components/tl/shm/allreduce/allreduce.c:60-73 | a non-OK read keeps stage and source and is stored; on OK the trace grows by exactly the base level's `Reduce.LevelEvents`, cur_child := 0, and the stage becomes TOP_TREE_REDUCE, or BASE_TREE_BCAST with src := dst, the bcast tree and seq_num bumped once (`Saved`) |
| Allreduce.TopReduceStage | src/components/tl/shm/allreduce/allreduce.c:74-81 | a non-OK read keeps stage and source and is stored; on OK the trace grows by exactly the top level's `Reduce.LevelEvents` (the leaf copy only without a base tree), then src := dst, the bcast tree, TOP_TREE_BCAST and seq_num bumped once |
| Allreduce.BcastStage | src/components/tl/shm/allreduce/allreduce.c:82-103 | the level is pushed (`bcast_write`) or pulled (`bcast_read`) as the strategy says, and on OK the trace grows by exactly that call's events; the top level moves to the base level iff there is one, else the switch breaks out; a non-OK status is INPROGRESS, stored with the stage kept; user buffers untouched |
| Allreduce.Step | src/components/tl/shm/allreduce/allreduce.c:43-110 | one pass: the stage's action, and on OK the trace grown by exactly its events and first_reduce as it leaves it; a non-OK status left in the task with the stage saved; src pointed at dst only at START (in place, non-root) or on the reduce-to-bcast switch |
| Allreduce.RunStages | src/components/tl/shm/allreduce/allreduce.c:43-110 | the loop of passes took the actions of the stages from the saved one to the last one, in the switch's order; when it breaks out of the switch the trace has grown by exactly the events of those actions, in order; otherwise a non-OK status is left with the task saved |
| Allreduce.RecordedStep | src/components/tl/shm/allreduce/allreduce.c:43-110 | one pass in a run whose earlier stages took `past`: on OK the trace is the run's records grown by this stage's, with first_reduce and cur_child where the next stage enters |
| Allreduce.RunExtends | src/components/tl/shm/allreduce/allreduce.c:43-110 | the records of a run grown by one completed stage are the run's records followed by that stage's |
| Allreduce.EnterTopCi | src/components/tl/shm/allreduce/allreduce.c:157-159 | the stage becomes BCAST_TOP_CI exactly when the top level has children and was pulled (RW, RR), and stays otherwise |
| Allreduce.DeliverResult | src/components/tl/shm/allreduce/allreduce.c:112-159 | the op root keeps its user buffer; every other rank gets data_size bytes of the buffer `CopyOutSource` picks (`Delivered`), that buffer unchanged and the copy recorded; then BCAST_TOP_CI where its wait applies |
| Allreduce.Switch | src/components/tl/shm/allreduce/allreduce.c:43-160 | the switch, then on every rank but the op root data_size bytes of the buffer `CopyOutSource` picks in the user destination (`Delivered`), then BCAST_TOP_CI entered where its wait applies; the trace grows by exactly the stages' events and the copy-out (`CallEvents`) |
| Allreduce.Complete | src/components/tl/shm/allreduce/allreduce.c:157-189 | after the waits of the pulled levels, `ci := seq_num - 1` (the START sequence number) and status OK; a level not yet consumed keeps the task in its ci stage |
| Allreduce.SwitchThenComplete | src/components/tl/shm/allreduce/allreduce.c:43-189 | from a switch stage: INPROGRESS keeps the task saved; OK means the waits passed, `ci := seq_num - 1` as the last and only completion event, the trace before it exactly `CallEvents`, and the result delivered on every rank but the op root |
| Allreduce.Progress | src/components/tl/shm/allreduce/allreduce.c:21-194 | INPROGRESS keeps a resumable task and stores no completion; from a switch stage the run took the switch's actions in order; OK means every waited-on child consumed the data, `ci` is the START sequence number, the trace grew by exactly `CallEvents` (the stages' events and the copy-out, nothing from a saved wait) and then the ci store, and a rank other than the op root holds the result in its user buffer |
| Allreduce.Start | src/components/tl/shm/allreduce/allreduce.c:196-205 | the task is put in progress and enqueued |
| Allreduce.Init | src/components/tl/shm/allreduce/allreduce.c:207-269 | persistent or AVG is NOT_SUPPORTED before any task is taken, no task is NO_MEMORY; the root is 0; a BCAST then a REDUCE tree for root 0 are set up, the first failure returned; on OK the task points at the reduce tree at START |
| Barrier.NextStageHasTree | src/components/tl/shm/barrier/barrier.c:28-70 | every stage transition leads to a stage whose tree exists |
| Barrier.ReachesNext | src/components/tl/shm/barrier/barrier.c:28-70 | moving on from a stage extends a run by that stage's call |
| Barrier.CompleteRun | src/components/tl/shm/barrier/barrier.c:28-70 | a complete run made: segment check, base fan-in, top fan-in, top fan-out, base fan-out (each level only where it exists), ending at the base fan-out when there is a base tree |
| Barrier.OneBumpPerRun | src/components/tl/shm/barrier/barrier.c:47-54 | seq_num changes on exactly one transition, from the last fan-in to the first fan-out, and by one |
| Barrier.Step | src/components/tl/shm/barrier/barrier.c:28-70 | one pass: the stage's call, the stage advanced only after that call returned OK, a non-OK status stored with the stage kept |
| Barrier.Progress | src/components/tl/shm/barrier/barrier.c:19-82 | the trace is exactly the calls of the stages run, in order; on OK the switch has broken out and `ci = seq_num - 1`, the START sequence number |
| Barrier.Start | src/components/tl/shm/barrier/barrier.c:84-109 | the stage is reset, a REDUCE-type tree for root 0 from the barrier radices and base_tree_only is set up, its failure returned before enqueueing |
| Barrier.Init | src/components/tl/shm/barrier/barrier.c:111-128 | only the lack of a task fails, with NO_MEMORY; on OK the barrier progress function is installed |
| Fanout.ReachesNext | src/components/tl/shm/fanout/fanout.c:26-54 | moving on from a stage extends a run by that stage's calls |
| Fanout.CompleteRun | src/components/tl/shm/fanout/fanout.c:26-54 | a complete run made: the segment check only where the rank signals children at its first level, then the top level, then the base level, each only where it exists |
| Fanout.Step | src/components/tl/shm/fanout/fanout.c:26-54 | one pass: the stage's calls, the stage advanced only after the signal returned OK, a non-OK status stored with the stage kept |
| Fanout.Progress | src/components/tl/shm/fanout/fanout.c:17-63 | the trace is exactly the calls of the stages run; on OK the switch has broken out and `ci = seq_num`, with no rewind |
| Fanout.Start | src/components/tl/shm/fanout/fanout.c:65-74 | the task is put in progress and enqueued |
| Fanout.Init | src/components/tl/shm/fanout/fanout.c:76-110 | persistent is NOT_SUPPORTED, no task NO_MEMORY, otherwise a FANOUT tree for the op root from the fan-out radices whose failure is returned |
| PerfParamsSel.GenericBcast | src/components/tl/shm/perf/tl_shm_coll_perf_params.h:16-27 | progress_alg is the configured bcast_alg, base_tree_only the configured flag, the radices the configured bcast radices |
| PerfParamsSel.GenericReduce | src/components/tl/shm/perf/tl_shm_coll_perf_params.h:29-39 | only the three `super` fields are written: base_tree_only and the configured reduce radices |
| ClParse.NameToType | src/components/cl/ucc_cl.c:22-26 | a name maps to the type whose table entry it is, and to UCC_CL_LAST exactly when it is in no entry |
| ClParse.NameToTypeInjective | src/components/cl/ucc_cl.c:22-26 | two names of the same valid type are the same name |
| ClParse.TokenEnd | src/components/cl/ucc_cl.c:61 | the end of a token is the next comma (or the end), with no comma before it |
| ClParse.TokensWellFormed | src/components/cl/ucc_cl.c:61-72 | every token strtok_r returns is non-empty and comma-free |
| ClParse.NoTokensIffOnlyCommas | src/components/cl/ucc_cl.c:61-75 | there are no tokens exactly when the string is empty or commas only |
| ClParse.UptoMembers | src/components/cl/ucc_cl.c:86-91 | the compacted list holds exactly the selected types below the bound |
| ClParse.UptoSorted | src/components/cl/ucc_cl.c:86-91 | the compacted list is strictly ascending |
| ClParse.UptoCount | src/components/cl/ucc_cl.c:86-91 | its length is the number of selected types |
| ClParse.SelectedCountsNames | src/components/cl/ucc_cl.c:70-71 | with all tokens valid, the distinct types selected are as many as the distinct names |
| ClParse.NamesAtMostTokens | src/components/cl/ucc_cl.c:70 | distinct names are at most the tokens counted, so the allocated array is large enough |
| ClParse.ParseIsSortedSet | src/components/cl/ucc_cl.c:48-95 | on success the result is non-empty, strictly ascending, below UCC_CL_LAST, holds a type iff some token names it, and has as many entries as distinct names |
| ClParse.ParseDependsOnNamesOnly | src/components/cl/ucc_cl.c:51-91 | strings with the same set of names parse alike, whatever the order or repetition |
| ClParse.MarkTokens | src/components/cl/ucc_cl.c:61-73 | all tokens valid iff no INVALID_PARAM exit; then n_cls_selected is the token count and the flags are exactly the selected types |
| ClParse.Compact | src/components/cl/ucc_cl.c:86-91 | the marked types land in the array in ascending order, counted |
| ClParse.ParseClsString | src/components/cl/ucc_cl.c:48-95 | strdup failure is NO_MEMORY, an unknown token or no token INVALID_PARAM with no array, allocation failure NO_MEMORY; OK exactly otherwise, with the array's prefix n_cls equal to the parsed list |
| TestBuffer.ModWrapKeepsMod128 | test/mpi/buffer.cc:22 | reducing modulo 2^64 (size_t) first changes nothing modulo 128 |
| TestBuffer.FillValueIsMod128 | test/mpi/buffer.cc:22 | element i is `(value + i + 1) mod 128` taken mathematically for every int value, so it lies in [0, 127] |
| TestBuffer.FillIsPeriodic | test/mpi/buffer.cc:22 | elements i and i + 128 are equal |
| TestBuffer.FillCountsUp | test/mpi/buffer.cc:22 | each element is the previous one plus one, modulo 128 |
| TestBuffer.SameResidueSameFill | test/mpi/buffer.cc:22 | values congruent modulo 128 give the same fill |
| TestBuffer.FillsAgreeIffValuesAgree | test/mpi/buffer.cc:17-24 | two non-empty fills are equal iff their values agree modulo 128 |
| TestBuffer.InitBufferHost | test/mpi/buffer.cc:17-24 | exactly the first count elements get the pattern; the rest of the buffer is unchanged |
| TestBuffer.InitBuffer | test/mpi/buffer.cc:26-80 | host memory is filled in place, CUDA through a host staging buffer; an unsupported memory type or datatype aborts before the buffer is written |
| TestBuffer.CompareBuffers | test/mpi/buffer.cc:99-130 | for a non-float datatype the result is OK iff the count*dt_size bytes are identical, NO_MESSAGE otherwise; an unsupported memory type aborts |

## Left out

- Cross-process concurrency: every memory fence (`SHMSEG_WMB`, `SHMSEG_ISYNC`, `ucc_memory_cpu_store_fence`) is a no-op, and no cross-rank protocol safety is claimed.
- The helpers in `tl_shm_coll.h`, `ucc_tl_shm_tree_init`, `ucc_tl_shm_kn_tree_init`, `ucc_tl_shm_tree_to_team_ranks` and the tree cache are not part of this model. They are opaque methods (`ShmCommon.SegReady`, `CheckSegReady`, `ReduceSegReady`, `FaninSignal`, `FanoutSignal`, `CopyToChildren`, `SignalToChildren`, `TreeInit`, `Bcast.KnTreeInit`, `Bcast.TreeToTeamRanks`, `Bcast.CacheTreeLookup`, `Bcast.CacheTree`) that keep the segment's layout, record their call and return any status.
- `get_ctrl` and `get_data`: the segment layout is abstract. The shm area of a rank is named as a buffer (`InlineOf`, `BlockOf`) rather than by address.
- `SHMCHECK_GOTO` is not shown. It is modelled as: a non-OK status is stored in the task and progress returns.
- `UCC_TL_SHM_SET_SEG_READY_SEQ_NUM` and `ucc_tl_shm_set_task_params_at_start` only mark the fields they may write.
- The executor. `ucc_ee_executor_task_post` returns any status and may hand back no task; the loop over `ucc_ee_executor_task_test` becomes one wait for a status other than INPROGRESS, and `ucc_ee_executor_task_finalize` is left out.
- Reduce.DtReduce: the reduction arithmetic is not modelled. The destination receives some bytes of its size, and the recorded event names the inputs.
- The scheduler, profiling events, `tl_error`, `ucc_error` and the `printf` calls of `bcast.c` are left out; enqueue and `ucc_task_complete` return some status.
- `ucc_tl_shm_get_task` becomes a boolean `taskAvailable` parameter.
- Allreduce.PerfParamsBcast and Reduce.PerfParamsReduce stand for the team's selector pointers `perf_params_bcast` and `perf_params_reduce`, which may be the generic selectors or table-driven ones. They return any parameters.
- The generic selectors are modelled separately in `PerfParamsSel`. The hardware tables (`perf/intel/*.c`, `perf/amd/rome.c`) and `tl_shm_coll_perf_params.c` are static data for a lookup that is not part of this model.
- The UCP transport files are network declarations and wiring outside this core.
- `ucc_cl.c` outside `ucc_parse_cls_string` (the class init and cleanup, the config tables) is left out.
- ClParse.NameToType: `ucc_cl_name_to_type` is not shown. It is modelled as an exact match against the names table, with UCC_CL_BASIC = 0, UCC_CL_ALL = 1 and UCC_CL_LAST = 2, the order of that table.
- `strdup` and `ucc_malloc` failures become the boolean parameters `copied` and `arrayAllocated` of ClParse.ParseClsString.
- TestBuffer.CompareBuffers: the float32 and float64 branch (`compare_buffers_fp`, `is_equal`, `fabs`) is floating point and left out. The method requires a non-float datatype.
- TestBuffer.InitBuffer: elements are unbounded integers. Each element type's conversion is not modelled; it is the identity here, since every value lies in [0, 127].
- The `UCC_CHECK` failures of `ucc_mc_alloc`, `ucc_mc_memcpy` and `ucc_mc_free` are not modelled, and `MPI_Abort` is the `aborted` result.
- Bcast.WrProgress: requires a base tree. `bcast.c:263` dereferences `base_tree` without a null check.
- Bcast.WrProgress: after a failed `seg_ready` the segment holds whatever that helper left, since its code is not part of this model; the contract states only that nothing else was recorded and the task is untouched.
- Bcast.BcastStart: requires that the WR progress function is installed. For any other `bcast_alg`, `bcast_init` (`bcast.c:328-341`) installs none, and `bcast.c:300` calls the unset `task->super.progress`.
- Bcast.SubstituteRootLeader and Bcast.TreeInitBcast: build the leaders tree with the corrected index of "## Findings" (`rank = i` on the root only), not with `bcast.c:193` as written; the as-written index is `Bcast.SubstRankAsWritten`.
- Bcast.BcastRead and Bcast.CopyOutAndComplete follow the code for a base-tree root that is not the op root (a group leader below the top tree under WR): it copies its own user buffer over the payload the top level delivered into its shm (`bcast.c:62-67`), and never copies the payload into its user buffer (`bcast.c:263-267`). The model does not correct this, and no contract promises delivery on such a rank.
- Reduce.Progress: requires (through `Resumable`) a base or a top tree. With neither, `reduce.c:163-166` moves to the top stage and `reduce.c:179` passes the missing top tree to `reduce_read`.
- Barrier.Progress: requires `StageHasTree` for the saved stage, so that a base or a top tree exists. With neither, `barrier.c:33-39` checks the segment and moves to TOP_TREE_FANIN, and `barrier.c:51` passes the missing top tree to `ucc_tl_shm_fanin_signal`, whose code is not part of this model.
- Fanout.Progress: requires `StageHasTree` for the saved stage, so that a base or a top tree exists. With neither, `fanout.c:29-31` reads `n_children` of the missing top tree before anything else.
- Allreduce.Progress and Allreduce.CopyOut: require that the copy-out source exists. For RR without any parent, or without a top tree, `allreduce.c:126-129` would read the record of UCC_RANK_INVALID or dereference a missing top tree.
- Allreduce.Progress: requires that the bcast tree has the levels the switch moves to (`TreesLinked`); the code dereferences them unchecked.
- Reduce.Progress and Allreduce.Progress: require k-nomial radices of at least 2 where a rank has children, so that `srcs[radix]` holds a batch. They also require that the payload fits the shm area and the user buffers; the layout code that would guarantee this is not shown.
- Allreduce passes `&is_op_root` (a pointer) to `bcast_write` and `bcast_read`, which take an int (`allreduce.c:84-101`). The model passes the boolean `is_op_root`, as evidently intended.
- `bcast.c:200-202` passes the collective type and the radix to `ucc_tl_shm_kn_tree_init` in swapped order. Since that function is opaque here, the model passes them in the declared order.
- `bcast.c:15` keeps a 32-bit copy of the 64-bit sequence number (`tl_shm.h:119`). The model keeps that truncation (`TlShm.Trunc32`).
- `allreduce.c:226` and `allreduce.c:232` call the selectors with one argument, while the typedef at `tl_shm.h:176-177` takes two. `allreduce.c:202` passes two arguments to `UCC_TL_SHM_SET_SEG_READY_SEQ_NUM`, where the other collectives pass three. The model reads the selectors' results as the fields of the task.
- Within allreduce, `reduce_read` takes its op root from `args->root` (`reduce.c:58`), not from `task->root`; the model follows the code.
- `is_inline` uses the team's `max_inline`, which is modelled as the segment's inline capacity `seg.maxInline`.

## Findings

| source | as written | input that shows it | evidently intended | confidence | as-written member | corrected member |
|---|---|---|---|---|---|---|
| src/components/tl/shm/bcast/bcast.c:189-193 | in the leader-substitution loop, `rank = i` is set for every rank that reaches it, so a leader from another group is told it sits at the slot of the root's group leader | four ranks in groups {0,1} and {2,3}, leaders 0 and 2, root 1: rank 2 passes the gate at lines 161-162 and builds the tree at index 0, the slot the map gives to the root | only the root takes its group leader's slot (the `ucc_assert(team_rank == root)` at line 191 says so); every other leader keeps its own index `group_rank` | not executed | Bcast.SubstRankAsWritten, Bcast.SubstRankAsWrittenMisplacesLeader | Bcast.SubstRank, Bcast.SubstRankIsOwnSlot |
