/** Barrier as fan-in up the two-level tree followed by fan-out down it
    (src/components/tl/shm/barrier/barrier.c): the stage machine, start and
    init. The source's `goto next_stage` back to the switch is the loop of
    Progress; one pass through the switch is Step. */
module Barrier {
  import opened TlShm
  import opened ShmCommon

  datatype BarrierStage = BarStart | BaseFanin | TopFanin | BaseFanout | TopFanout

  predicate IsFanout(s: BarrierStage)
  {
    s == BaseFanout || s == TopFanout
  }

  /** The tree the stage signals over exists (the segment check of START
      needs one of the two). */
  predicate StageHasTree(t: ShmTree, s: BarrierStage)
  {
    match s
    case BarStart => t.base.Some? || t.top.Some?
    case BaseFanin => t.base.Some?
    case TopFanin => t.top.Some?
    case BaseFanout => t.base.Some?
    case TopFanout => t.top.Some?
  }

  /** The stage order: the stage after `s` once its call returned OK, or
      None where the switch breaks out to completion. */
  function NextStage(t: ShmTree, s: BarrierStage): Option<BarrierStage>
  {
    match s
    case BarStart => Some(if t.base.Some? then BaseFanin else TopFanin)
    case BaseFanin => Some(if t.top.Some? then TopFanin else BaseFanout)
    case TopFanin => Some(TopFanout)
    case TopFanout => if t.base.Some? then Some(BaseFanout) else None
    case BaseFanout => None
  }

  /** Every transition keeps the stage's tree present. */
  lemma NextStageHasTree(t: ShmTree, s: BarrierStage)
    requires StageHasTree(t, s) && NextStage(t, s).Some?
    ensures StageHasTree(t, NextStage(t, s).value)
  {
  }

  /** The sequence number a stage runs with: the START value during fan-in,
      one more during fan-out. */
  function SeqAt(s0: Sn, s: BarrierStage): Sn
  {
    if IsFanout(s) then SnInc(s0) else s0
  }

  /** The call a stage makes before it may advance. */
  function StageCall(t: ShmTree, s: BarrierStage): Event
    requires StageHasTree(t, s)
  {
    match s
    case BarStart => SegReadyChecked
    case BaseFanin => FaninSignalled(t.base.value)
    case TopFanin => FaninSignalled(t.top.value)
    case BaseFanout => FanoutSignalled(t.base.value)
    case TopFanout => FanoutSignalled(t.top.value)
  }

  /** How many stages can still follow. */
  function StagesLeft(s: BarrierStage): nat
  {
    match s
    case BarStart => 4
    case BaseFanin => 3
    case TopFanin => 2
    case TopFanout => 1
    case BaseFanout => 0
  }

  /** Following the stage order from `s`, every stage has its tree, and
      the run reaches `e`. */
  predicate Reaches(t: ShmTree, s: BarrierStage, e: BarrierStage)
    decreases StagesLeft(s)
  {
    && StageHasTree(t, s)
    && (s == e || (NextStage(t, s).Some? && StagesLeft(NextStage(t, s).value) < StagesLeft(s)
                   && Reaches(t, NextStage(t, s).value, e)))
  }

  /** The calls made by the stages from `s` up to, not including, `e`. */
  function CallsBefore(t: ShmTree, s: BarrierStage, e: BarrierStage): seq<Event>
    requires Reaches(t, s, e)
    decreases StagesLeft(s)
  {
    if s == e then [] else [StageCall(t, s)] + CallsBefore(t, NextStage(t, s).value, e)
  }

  /** Moving on from `e` extends the run by the call of `e`. */
  lemma {:induction false} ReachesNext(t: ShmTree, s: BarrierStage, e: BarrierStage, n: BarrierStage)
    requires Reaches(t, s, e) && NextStage(t, e) == Some(n)
    ensures Reaches(t, s, n) && CallsBefore(t, s, n) == CallsBefore(t, s, e) + [StageCall(t, e)]
    decreases StagesLeft(s)
  {
    if s == e {
      assert Reaches(t, n, n);
    } else {
      ReachesNext(t, NextStage(t, s).value, e, n);
    }
  }

  /** Every call a complete barrier makes, in order: the segment check,
      fan-in at the base then the top level, fan-out at the top then the
      base level, each level only where it exists. */
  function BarrierCalls(t: ShmTree): seq<Event>
    requires t.base.Some? || t.top.Some?
  {
    [SegReadyChecked]
    + (if t.base.Some? then [FaninSignalled(t.base.value)] else [])
    + (if t.top.Some? then [FaninSignalled(t.top.value), FanoutSignalled(t.top.value)] else [])
    + (if t.base.Some? then [FanoutSignalled(t.base.value)] else [])
  }

  /** A run from START that broke out of the switch made exactly the calls
      of BarrierCalls and ended at the base fan-out where there is a base
      tree. */
  lemma CompleteRun(t: ShmTree, e: BarrierStage)
    requires Reaches(t, BarStart, e) && NextStage(t, e).None?
    ensures e == (if t.base.Some? then BaseFanout else TopFanout)
    ensures CallsBefore(t, BarStart, e) + [StageCall(t, e)] == BarrierCalls(t)
  {
    if t.base.Some? {
      assert Reaches(t, BaseFanin, e);
      if t.top.Some? {
        assert Reaches(t, TopFanin, e) && Reaches(t, TopFanout, e);
      }
      assert Reaches(t, BaseFanout, e);
    } else {
      assert Reaches(t, TopFanin, e) && Reaches(t, TopFanout, e);
    }
  }

  /** The sequence number changes on exactly one transition: from the last
      fan-in to the first fan-out, where it is bumped by one. */
  lemma {:induction false} OneBumpPerRun(t: ShmTree, s0: Sn, s: BarrierStage)
    requires StageHasTree(t, s) && NextStage(t, s).Some?
    ensures var n := NextStage(t, s).value;
            && (SeqAt(s0, s) != SeqAt(s0, n) <==> !IsFanout(s) && IsFanout(n))
            && (SeqAt(s0, s) != SeqAt(s0, n) ==> SeqAt(s0, n) == SnInc(SeqAt(s0, s)))
  {
    SnRewindUndoesBump(s0);
  }

  /** One pass through the switch of ucc_tl_shm_barrier_progress: the
      current stage's call, a non-OK status stored in the task and returned
      (SHMCHECK_GOTO) with the stage kept; on OK the next stage (and the
      bump of seq_num between fan-in and fan-out), or `more == false` where
      the switch breaks out. */
  method Step(team: Team, seg: Segment, task: Task<BarrierStage>, ghost s0: Sn) returns (st: Status, more: bool)
    requires team.Valid() && seg.Valid() && StageHasTree(task.tree, task.stage)
    requires task.seqNum == SeqAt(s0, task.stage)
    modifies seg, task`stage, task`seqNum, task`status
    ensures seg.Valid() && task.seqNum == SeqAt(s0, task.stage)
    ensures seg.trace == old(seg.trace) + [StageCall(task.tree, old(task.stage))]
    ensures st != Ok ==> task.status == st && task.stage == old(task.stage)
    ensures st == Ok ==>
              && task.status == old(task.status)
              && (more <==> NextStage(task.tree, old(task.stage)).Some?)
              && task.stage == (if more then NextStage(task.tree, old(task.stage)).value else old(task.stage))
  {
    var tree := task.tree;
    more := true;
    match task.stage
    case BarStart =>
      st := CheckSegReady(seg, tree, 1);
      if st != Ok {
        task.status := st;
        return;
      }
      if tree.base.Some? {
        task.stage := BaseFanin;
      } else {
        task.stage := TopFanin;
      }
    case BaseFanin =>
      st := FaninSignal(seg, tree.base.value);
      if st != Ok {
        task.status := st;
        return;
      }
      if tree.top.Some? {
        task.stage := TopFanin;
      } else {
        task.stage := BaseFanout;
        task.seqNum := SnInc(task.seqNum);
      }
    case TopFanin =>
      st := FaninSignal(seg, tree.top.value);
      if st != Ok {
        task.status := st;
        return;
      }
      task.stage := TopFanout;
      task.seqNum := SnInc(task.seqNum);
    case TopFanout =>
      st := FanoutSignal(seg, tree.top.value);
      if st != Ok {
        task.status := st;
        return;
      }
      if tree.base.Some? {
        task.stage := BaseFanout;
      } else {
        more := false;
      }
    case BaseFanout =>
      st := FanoutSignal(seg, tree.base.value);
      if st != Ok {
        task.status := st;
        return;
      }
      more := false;
  }

  /** ucc_tl_shm_barrier_progress. From the saved stage, each stage makes
      its call and moves on only when the call returned OK; a non-OK status
      is left in the task with the stage saved. After the last fan-out,
      ci := seq_num - 1, the START sequence number, and status OK. `s0` is
      the sequence number the task had at START. */
  method Progress(team: Team, seg: Segment, task: Task<BarrierStage>, ghost s0: Sn)
    requires team.Valid() && seg.Valid() && seg.nRanks == team.size
    requires task.status == InProgress && StageHasTree(task.tree, task.stage)
    requires task.seqNum == SeqAt(s0, task.stage)
    modifies seg, task`stage, task`seqNum, task`status
    ensures seg.Valid() && task.seqNum == SeqAt(s0, task.stage)
    ensures Reaches(task.tree, old(task.stage), task.stage)
    ensures seg.trace == old(seg.trace) + CallsBefore(task.tree, old(task.stage), task.stage)
                         + [StageCall(task.tree, task.stage)]
                         + (if task.status == Ok then [CiStored(team.rank, s0)] else [])
    ensures task.status == Ok ==>
              && NextStage(task.tree, task.stage).None?
              && task.seqNum == SnInc(s0) && seg.ctrl[team.rank].ci == s0
  {
    var tree := task.tree;
    ghost var from := task.stage;
    ghost var t0 := seg.trace;
    while true
      invariant seg.Valid() && task.status == InProgress && task.tree == tree
      invariant task.seqNum == SeqAt(s0, task.stage)
      invariant Reaches(tree, from, task.stage) && seg.trace == t0 + CallsBefore(tree, from, task.stage)
      decreases StagesLeft(task.stage)
    {
      ghost var cur := task.stage;
      var st, more := Step(team, seg, task, s0);
      if st != Ok {
        return;
      }
      if !more {
        break;
      }
      ReachesNext(tree, from, cur, task.stage);
    }
    SnRewindUndoesBump(s0);
    StoreCi(seg, team.rank, SnDec(task.seqNum));
    task.status := Ok;
  }

  /** ucc_tl_shm_barrier_start: resets the per-start fields and the stage,
      sets up a REDUCE-type tree rooted at rank 0 from the barrier radices
      and the base-tree-only setting, and enqueues the task; a tree failure
      is returned before enqueueing. */
  method Start(team: Team, task: Task<BarrierStage>) returns (st: Status, enqueued: bool, ghost key: TreeCacheKey)
    modifies team`treeCache, task`stage, task`curChild, task`firstReduce, task`tree, task`status,
             task`segReadySeqNum
    ensures task.stage == BarStart
    ensures key == TreeCacheKey(team.cfg.barrierBaseRadix, team.cfg.barrierTopRadix, 0, Reduce,
                                team.cfg.baseTreeOnly)
    ensures enqueued ==> task.status == InProgress
    ensures !enqueued ==> st != Ok && task.status == old(task.status)
  {
    SetTaskParamsAtStart(task);
    task.stage := BarStart;
    var tree;
    st, tree, key := TreeInit(team, 0, team.cfg.barrierBaseRadix, team.cfg.barrierTopRadix, Reduce,
                              team.cfg.baseTreeOnly);
    if st != Ok {
      return st, false, key;
    }
    task.tree := tree;
    SetSegReadySeqNum(task);
    task.status := InProgress;
    st := ProgressQueueEnqueue();
    enqueued := true;
  }

  /** ucc_tl_shm_barrier_init: only the lack of a task fails (NO_MEMORY);
      the task gets this collective's progress function. */
  method Init(args: CollArgs, taskAvailable: bool) returns (st: Status, task: Option<Task<BarrierStage>>)
    ensures st == Ok <==> taskAvailable
    ensures !taskAvailable ==> st == Err(NoMemory) && task.None?
    ensures st == Ok ==>
              && task.Some? && fresh(task.value) && task.value.args == args
              && task.value.progress == Some(BarrierProgress)
  {
    if !taskAvailable {
      return Err(NoMemory), None;
    }
    var t := new Task(args, BarStart, [], []);
    t.progress := Some(BarrierProgress);
    return Ok, Some(t);
  }
}
