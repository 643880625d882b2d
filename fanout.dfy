/** Fan-out from the root down the two-level tree
    (src/components/tl/shm/fanout/fanout.c): the stage machine, start and
    init. As in Barrier, the `goto next_stage` back to the switch is the
    loop of Progress and one pass through the switch is Step. */
module Fanout {
  import opened TlShm
  import opened ShmCommon

  datatype FanoutStage = FanStart | FanBaseTree | FanTopTree

  /** The tree the stage signals over exists; START reads the top tree
      when there is no base tree. */
  predicate StageHasTree(t: ShmTree, s: FanoutStage)
  {
    match s
    case FanStart => t.base.Some? || t.top.Some?
    case FanBaseTree => t.base.Some?
    case FanTopTree => t.top.Some?
  }

  /** fanout.c:29-31: the segment is checked only by a rank that will
      signal children at its first level. */
  predicate ChecksSegment(t: ShmTree)
    requires t.base.Some? || t.top.Some?
  {
    (t.base.Some? && |t.base.value.children| > 0) || (t.base.None? && |t.top.value.children| > 0)
  }

  /** The stage after `s` once its call returned OK, or None where the
      switch breaks out to completion. */
  function NextStage(t: ShmTree, s: FanoutStage): Option<FanoutStage>
  {
    match s
    case FanStart => Some(if t.top.Some? then FanTopTree else FanBaseTree)
    case FanTopTree => if t.base.Some? then Some(FanBaseTree) else None
    case FanBaseTree => None
  }

  /** The calls a stage makes before it may advance. */
  function StageCalls(t: ShmTree, s: FanoutStage): seq<Event>
    requires StageHasTree(t, s)
  {
    match s
    case FanStart => if ChecksSegment(t) then [SegReadyChecked] else []
    case FanTopTree => [FanoutSignalled(t.top.value)]
    case FanBaseTree => [FanoutSignalled(t.base.value)]
  }

  function StagesLeft(s: FanoutStage): nat
  {
    match s
    case FanStart => 2
    case FanTopTree => 1
    case FanBaseTree => 0
  }

  /** Following the stage order from `s`, every stage has its tree, and
      the run reaches `e`. */
  predicate Reaches(t: ShmTree, s: FanoutStage, e: FanoutStage)
    decreases StagesLeft(s)
  {
    && StageHasTree(t, s)
    && (s == e || (NextStage(t, s).Some? && StagesLeft(NextStage(t, s).value) < StagesLeft(s)
                   && Reaches(t, NextStage(t, s).value, e)))
  }

  /** The calls made by the stages from `s` up to, not including, `e`. */
  function CallsBefore(t: ShmTree, s: FanoutStage, e: FanoutStage): seq<Event>
    requires Reaches(t, s, e)
    decreases StagesLeft(s)
  {
    if s == e then [] else StageCalls(t, s) + CallsBefore(t, NextStage(t, s).value, e)
  }

  /** Moving on from `e` extends the run by the calls of `e`. */
  lemma {:induction false} ReachesNext(t: ShmTree, s: FanoutStage, e: FanoutStage, n: FanoutStage)
    requires Reaches(t, s, e) && NextStage(t, e) == Some(n)
    ensures Reaches(t, s, n) && CallsBefore(t, s, n) == CallsBefore(t, s, e) + StageCalls(t, e)
    decreases StagesLeft(s)
  {
    if s == e {
      assert Reaches(t, n, n);
    } else {
      ReachesNext(t, NextStage(t, s).value, e, n);
    }
  }

  /** Every call a complete fan-out makes, in order: the segment check
      where the rank signals at its first level, then the top level, then
      the base level, each only where that level exists. */
  function FanoutCalls(t: ShmTree): seq<Event>
    requires t.base.Some? || t.top.Some?
  {
    (if ChecksSegment(t) then [SegReadyChecked] else [])
    + (if t.top.Some? then [FanoutSignalled(t.top.value)] else [])
    + (if t.base.Some? then [FanoutSignalled(t.base.value)] else [])
  }

  /** A run from START that broke out of the switch made exactly the calls
      of FanoutCalls, ending at the base level where there is one. */
  lemma CompleteRun(t: ShmTree, e: FanoutStage)
    requires Reaches(t, FanStart, e) && NextStage(t, e).None?
    ensures e == (if t.base.Some? then FanBaseTree else FanTopTree)
    ensures CallsBefore(t, FanStart, e) + StageCalls(t, e) == FanoutCalls(t)
  {
    if t.top.Some? {
      assert Reaches(t, FanTopTree, e);
      if t.base.Some? {
        assert Reaches(t, FanBaseTree, e);
      }
    } else {
      assert Reaches(t, FanBaseTree, e);
    }
  }

  /** One pass through the switch of ucc_tl_shm_fanout_progress: the
      current stage's call, a non-OK status stored in the task and returned
      (SHMCHECK_GOTO) with the stage kept; on OK the next stage, or
      `more == false` where the switch breaks out. */
  method Step(team: Team, seg: Segment, task: Task<FanoutStage>) returns (st: Status, more: bool)
    requires team.Valid() && seg.Valid() && StageHasTree(task.tree, task.stage)
    modifies seg, task`stage, task`status
    ensures seg.Valid()
    ensures seg.trace == old(seg.trace) + StageCalls(task.tree, old(task.stage))
    ensures st != Ok ==> task.status == st && task.stage == old(task.stage)
    ensures st == Ok ==>
              && task.status == old(task.status)
              && (more <==> NextStage(task.tree, old(task.stage)).Some?)
              && task.stage == (if more then NextStage(task.tree, old(task.stage)).value else old(task.stage))
  {
    var tree := task.tree;
    more := true;
    match task.stage
    case FanStart =>
      if (tree.base.Some? && |tree.base.value.children| > 0)
         || (tree.base.None? && |tree.top.value.children| > 0) {
        st := CheckSegReady(seg, tree, 0);
        if st != Ok {
          task.status := st;
          return;
        }
      }
      st := Ok;
      if tree.top.Some? {
        task.stage := FanTopTree;
      } else {
        task.stage := FanBaseTree;
      }
    case FanTopTree =>
      st := FanoutSignal(seg, tree.top.value);
      if st != Ok {
        task.status := st;
        return;
      }
      if tree.base.Some? {
        task.stage := FanBaseTree;
      } else {
        more := false;
      }
    case FanBaseTree =>
      st := FanoutSignal(seg, tree.base.value);
      if st != Ok {
        task.status := st;
        return;
      }
      more := false;
  }

  /** ucc_tl_shm_fanout_progress. From the saved stage, each stage makes
      its call and moves on only when it returned OK; a non-OK status is
      left in the task with the stage saved. After the last level,
      ci := seq_num (no rewind) and status OK. */
  method Progress(team: Team, seg: Segment, task: Task<FanoutStage>)
    requires team.Valid() && seg.Valid() && seg.nRanks == team.size
    requires task.status == InProgress && StageHasTree(task.tree, task.stage)
    modifies seg, task`stage, task`status
    ensures seg.Valid() && Reaches(task.tree, old(task.stage), task.stage)
    ensures seg.trace == old(seg.trace) + CallsBefore(task.tree, old(task.stage), task.stage)
                         + StageCalls(task.tree, task.stage)
                         + (if task.status == Ok then [CiStored(team.rank, task.seqNum)] else [])
    ensures task.status == Ok ==>
              NextStage(task.tree, task.stage).None? && seg.ctrl[team.rank].ci == task.seqNum
  {
    var tree := task.tree;
    ghost var s0 := task.stage;
    ghost var t0 := seg.trace;
    while true
      invariant seg.Valid() && task.status == InProgress && task.tree == tree
      invariant Reaches(tree, s0, task.stage) && seg.trace == t0 + CallsBefore(tree, s0, task.stage)
      decreases StagesLeft(task.stage)
    {
      ghost var cur := task.stage;
      var st, more := Step(team, seg, task);
      if st != Ok {
        return;
      }
      if !more {
        break;
      }
      ReachesNext(tree, s0, cur, task.stage);
    }
    StoreCi(seg, team.rank, task.seqNum);
    task.status := Ok;
  }

  /** ucc_tl_shm_fanout_start: records the segment-ready sequence number and
      enqueues the task in progress. */
  method Start(task: Task<FanoutStage>) returns (st: Status)
    modifies task`segReadySeqNum, task`status
    ensures task.status == InProgress
  {
    SetSegReadySeqNum(task);
    task.status := InProgress;
    st := ProgressQueueEnqueue();
  }

  /** ucc_tl_shm_fanout_init: persistent requests are not supported, the
      lack of a task is NO_MEMORY; otherwise the task gets this collective's
      progress function, START, and a FANOUT-type tree rooted at the op root
      from the fan-out radices, whose failure is returned. */
  method Init(team: Team, args: CollArgs, taskAvailable: bool)
    returns (st: Status, task: Option<Task<FanoutStage>>, ghost key: Option<TreeCacheKey>)
    modifies team`treeCache
    ensures args.persistent ==> st == Err(NotSupported) && key.None?
    ensures !args.persistent && !taskAvailable ==> st == Err(NoMemory) && key.None?
    ensures st == Ok ==> !args.persistent && taskAvailable
    ensures !args.persistent && taskAvailable ==>
              key == Some(TreeCacheKey(team.cfg.fanoutBaseRadix, team.cfg.fanoutTopRadix, args.root, Fanout,
                                       team.cfg.baseTreeOnly))
    ensures st == Ok ==>
              && task.Some? && fresh(task.value) && task.value.args == args
              && task.value.progress == Some(FanoutProgress) && task.value.stage == FanStart
  {
    key := None;
    if args.persistent {
      return Err(NotSupported), None, key;
    }
    if !taskAvailable {
      return Err(NoMemory), None, key;
    }
    var t := new Task(args, FanStart, [], []);
    t.progress := Some(FanoutProgress);
    t.stage := FanStart;
    var tree;
    ghost var k;
    st, tree, k := TreeInit(team, args.root, team.cfg.fanoutBaseRadix, team.cfg.fanoutTopRadix, Fanout,
                            team.cfg.baseTreeOnly);
    key := Some(k);
    if st != Ok {
      return st, None, key;
    }
    t.tree := tree;
    return Ok, Some(t), key;
  }
}
