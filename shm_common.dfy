/** What the collectives share: the memory a rank can name, memcpy, polling a
    control word, writing its own counters, and the helpers whose code is
    not part of this model (declared in tl_shm_coll.h). Those helpers keep
    the segment's layout and record that they were called; their effect on
    the segment's contents and their status are left open. */
module ShmCommon {
  import opened TlShm

  /** A buffer that names a rank of this segment, or a user buffer. */
  predicate InSeg(seg: Segment, b: Buf)
  {
    match b
    case InlineOf(r) => r < seg.nRanks
    case BlockOf(r) => r < seg.nRanks
    case _ => true
  }

  /** A tree whose parent and children are ranks of an n-rank team. */
  predicate TreeIn(t: KnTree, n: nat)
  {
    (t.parent.Some? ==> t.parent.value < n) && forall i | 0 <= i < |t.children| :: t.children[i] < n
  }

  predicate ShmTreeIn(t: ShmTree, n: nat)
  {
    (t.base.Some? ==> TreeIn(t.base.value, n)) && (t.top.Some? ==> TreeIn(t.top.value, n))
  }

  /** The storage a buffer name denotes: once the task's source has been
      pointed at its destination, both names denote the destination. */
  function Storage<S>(t: Task<S>, b: Buf): Buf
    reads t`srcIsDst
  {
    if b == UserSrc && t.srcIsDst then UserDst else b
  }

  /** A payload of n bytes fits this rank's shm area and the user source. */
  predicate Fits<S>(seg: Segment, task: Task<S>, isInline: bool, n: nat)
    reads task`srcIsDst, task`userSrc, task`userDst
  {
    && (if isInline then n <= seg.maxInline else n <= seg.blockSize)
    && n <= |if task.srcIsDst then task.userDst else task.userSrc|
  }

  /** No completion (ci) store among the events appended after `before`. */
  ghost predicate NoCiStore(before: seq<Event>, after: seq<Event>)
  {
    before <= after && forall k | |before| <= k < |after| :: !after[k].CiStored?
  }

  /** Events appended without a completion store. */
  lemma NoCiStoreAppend(before: seq<Event>, added: seq<Event>)
    requires forall e | e in added :: !e.CiStored?
    ensures NoCiStore(before, before + added)
  {
    forall k | |before| <= k < |before + added|
      ensures !(before + added)[k].CiStored?
    {
      assert (before + added)[k] == added[k - |before|];
    }
  }

  lemma NoCiStoreTrans(a: seq<Event>, b: seq<Event>, c: seq<Event>)
    requires NoCiStore(a, b) && NoCiStore(b, c)
    ensures NoCiStore(a, c)
  {
  }

  /** The bytes a buffer currently holds. */
  function Region<S>(t: Task<S>, seg: Segment, b: Buf): seq<Byte>
    reads t`srcIsDst, t`userSrc, t`userDst, seg`inlineData, seg`data
    requires |seg.inlineData| == |seg.data| == seg.nRanks && InSeg(seg, b)
  {
    match Storage(t, b)
    case UserSrc => t.userSrc
    case UserDst => t.userDst
    case InlineOf(r) => seg.inlineData[r]
    case BlockOf(r) => seg.data[r]
  }

  /** Overwrites one buffer, keeping its size, and nothing else. */
  method WriteRegion<S>(t: Task<S>, seg: Segment, dst: Buf, bytes: seq<Byte>)
    requires seg.Valid() && InSeg(seg, dst) && |bytes| == |Region(t, seg, dst)|
    modifies t`userSrc, t`userDst, seg`inlineData, seg`data
    ensures seg.Valid()
    ensures Region(t, seg, dst) == bytes
    ensures forall b | InSeg(seg, b) && Storage(t, b) != Storage(t, dst) :: Region(t, seg, b) == old(Region(t, seg, b))
    ensures Storage(t, dst) != UserSrc ==> t.userSrc == old(t.userSrc)
    ensures Storage(t, dst) != UserDst ==> t.userDst == old(t.userDst)
    ensures |t.userDst| == |old(t.userDst)|
  {
    match Storage(t, dst)
    case UserSrc => t.userSrc := bytes;
    case UserDst => t.userDst := bytes;
    case InlineOf(r) => seg.inlineData := seg.inlineData[r := bytes];
    case BlockOf(r) => seg.data := seg.data[r := bytes];
  }

  /** memcpy(dst, src, n): the first n bytes of dst become those of src. */
  method Memcpy<S>(t: Task<S>, seg: Segment, dst: Buf, src: Buf, n: nat)
    requires seg.Valid() && InSeg(seg, dst) && InSeg(seg, src)
    requires n <= |Region(t, seg, dst)| && n <= |Region(t, seg, src)|
    modifies t`userSrc, t`userDst, seg`inlineData, seg`data, seg`trace
    ensures seg.Valid()
    ensures Region(t, seg, dst) == old(Region(t, seg, src))[..n] + old(Region(t, seg, dst))[n..]
    ensures forall b | InSeg(seg, b) && Storage(t, b) != Storage(t, dst) :: Region(t, seg, b) == old(Region(t, seg, b))
    ensures Storage(t, dst) != UserSrc ==> t.userSrc == old(t.userSrc)
    ensures Storage(t, dst) != UserDst ==> t.userDst == old(t.userDst)
    ensures |t.userDst| == |old(t.userDst)|
    ensures seg.trace == old(seg.trace) + [Copied(dst, src, n)]
  {
    var bytes := Region(t, seg, src)[..n] + Region(t, seg, dst)[n..];
    WriteRegion(t, seg, dst, bytes);
    seg.trace := seg.trace + [Copied(dst, src, n)];
  }

  /** `for (i = 0; i < n_polls; i++) if (ctrl->pi == s) ...`: within one rank
      nobody else writes the word, so the poll sees it iff it polls at all
      and the word already holds s. */
  method PollPi(seg: Segment, r: Rank, s: int, nPolls: nat) returns (seen: bool)
    requires seg.Valid() && r < seg.nRanks
    ensures seen <==> nPolls > 0 && seg.ctrl[r].pi == s
  {
    seen := false;
    var i := 0;
    while i < nPolls && !seen
      invariant 0 <= i <= nPolls
      invariant seen <==> i > 0 && seg.ctrl[r].pi == s
    {
      if seg.ctrl[r].pi == s {
        seen := true;
      }
      i := i + 1;
    }
  }

  /** `ctrl->pi = s` on this rank's control record. */
  method StorePi(seg: Segment, r: Rank, s: Sn)
    requires seg.Valid() && r < seg.nRanks
    modifies seg`ctrl, seg`trace
    ensures seg.Valid()
    ensures seg.ctrl == old(seg.ctrl)[r := old(seg.ctrl)[r].(pi := s)]
    ensures seg.trace == old(seg.trace) + [PiStored(r, s)]
  {
    seg.ctrl := seg.ctrl[r := seg.ctrl[r].(pi := s)];
    seg.trace := seg.trace + [PiStored(r, s)];
  }

  /** `ctrl->ci = s` on this rank's control record. */
  method StoreCi(seg: Segment, r: Rank, s: Sn)
    requires seg.Valid() && r < seg.nRanks
    modifies seg`ctrl, seg`trace
    ensures seg.Valid()
    ensures seg.ctrl == old(seg.ctrl)[r := old(seg.ctrl)[r].(ci := s)]
    ensures seg.trace == old(seg.trace) + [CiStored(r, s)]
  {
    seg.ctrl := seg.ctrl[r := seg.ctrl[r].(ci := s)];
    seg.trace := seg.trace + [CiStored(r, s)];
  }

  /** n byte strings of m bytes each. */
  predicate Shaped(xs: seq<seq<Byte>>, n: nat, m: nat)
  {
    |xs| == n && forall r | 0 <= r < n :: |xs[r]| == m
  }

  /** The segment's contents after a helper whose code is not modelled:
      any counters and payloads, in the same layout. */
  method Scramble(seg: Segment)
    requires seg.Valid()
    modifies seg`ctrl, seg`inlineData, seg`data
    ensures seg.Valid()
  {
    var n := seg.nRanks;
    var c: seq<Ctrl> :| |c| == n;
    assert Shaped(seg.inlineData, n, seg.maxInline) && Shaped(seg.data, n, seg.blockSize);
    var il: seq<seq<Byte>> :| Shaped(il, n, seg.maxInline);
    var d: seq<seq<Byte>> :| Shaped(d, n, seg.blockSize);
    seg.ctrl, seg.inlineData, seg.data := c, il, d;
    assert Shaped(seg.inlineData, n, seg.maxInline) && Shaped(seg.data, n, seg.blockSize);
  }

  /** An opaque helper call: records event e, leaves the segment in some
      state of the same layout and returns some status. */
  method OpaqueCall(seg: Segment, e: Event) returns (st: Status)
    requires seg.Valid()
    modifies seg
    ensures seg.Valid()
    ensures seg.trace == old(seg.trace) + [e]
  {
    Scramble(seg);
    seg.trace := seg.trace + [e];
    st := *;
  }

  /** ucc_tl_shm_seg_ready(seg). */
  method SegReady(seg: Segment) returns (st: Status)
    requires seg.Valid()
    modifies seg
    ensures seg.Valid()
    ensures seg.trace == old(seg.trace) + [SegReadyChecked]
  {
    st := OpaqueCall(seg, SegReadyChecked);
  }

  /** ucc_tl_shm_check_seg_ready(task, tree, flag). */
  method CheckSegReady(seg: Segment, tree: ShmTree, flag: nat) returns (st: Status)
    requires seg.Valid()
    modifies seg
    ensures seg.Valid()
    ensures seg.trace == old(seg.trace) + [SegReadyChecked]
  {
    st := OpaqueCall(seg, SegReadyChecked);
  }

  /** ucc_tl_shm_reduce_seg_ready(seg, seg_ready_seq_num, team, tree). */
  method ReduceSegReady(seg: Segment, segReadySeqNum: Sn, tree: ShmTree) returns (st: Status)
    requires seg.Valid()
    modifies seg
    ensures seg.Valid()
    ensures seg.trace == old(seg.trace) + [SegReadyChecked]
  {
    st := OpaqueCall(seg, SegReadyChecked);
  }

  /** ucc_tl_shm_fanin_signal(team, seg, task, tree). */
  method FaninSignal(seg: Segment, tree: KnTree) returns (st: Status)
    requires seg.Valid()
    modifies seg
    ensures seg.Valid()
    ensures seg.trace == old(seg.trace) + [FaninSignalled(tree)]
  {
    st := OpaqueCall(seg, FaninSignalled(tree));
  }

  /** ucc_tl_shm_fanout_signal(team, seg, task, tree). */
  method FanoutSignal(seg: Segment, tree: KnTree) returns (st: Status)
    requires seg.Valid()
    modifies seg
    ensures seg.Valid()
    ensures seg.trace == old(seg.trace) + [FanoutSignalled(tree)]
  {
    st := OpaqueCall(seg, FanoutSignalled(tree));
  }

  /** ucc_tl_shm_copy_to_children(seg, team, tree, seq_num, is_inline, src, n). */
  method CopyToChildren(seg: Segment, tree: KnTree, seqNum: nat, isInline: bool, src: Buf, n: nat)
    requires seg.Valid()
    modifies seg
    ensures seg.Valid()
    ensures seg.trace == old(seg.trace) + [ChildrenCopied(tree, seqNum, isInline, src, n)]
  {
    var _ := OpaqueCall(seg, ChildrenCopied(tree, seqNum, isInline, src, n));
  }

  /** ucc_tl_shm_signal_to_children(seg, team, seq_num, tree). */
  method SignalToChildren(seg: Segment, seqNum: nat, tree: KnTree)
    requires seg.Valid()
    modifies seg
    ensures seg.Valid()
    ensures seg.trace == old(seg.trace) + [ChildrenSignalled(tree, seqNum)]
  {
    var _ := OpaqueCall(seg, ChildrenSignalled(tree, seqNum));
  }

  /** ucc_tl_shm_tree_init(team, root, base_radix, top_radix, coll_type,
      base_tree_only, &tree): looks up or builds and caches a tree pair. */
  method TreeInit(team: Team, root: Rank, baseRadix: nat, topRadix: nat, coll: CollType,
                  baseTreeOnly: int)
    returns (st: Status, tree: ShmTree, ghost key: TreeCacheKey)
    modifies team`treeCache
    ensures key == TreeCacheKey(baseRadix, topRadix, root, coll, baseTreeOnly)
  {
    key := TreeCacheKey(baseRadix, topRadix, root, coll, baseTreeOnly);
    st := *;
    tree := *;
    var cache: seq<(TreeCacheKey, ShmTree)> := *;
    team.treeCache := cache;
  }

  /** UCC_TL_SHM_SET_SEG_READY_SEQ_NUM(task, team, ...): records which
      collective the segment-ready check of this task waits for. */
  method SetSegReadySeqNum<S>(task: Task<S>)
    modifies task`segReadySeqNum
  {
    var s: Sn := *;
    task.segReadySeqNum := s;
  }

  /** ucc_tl_shm_set_task_params_at_start(task, team). */
  method SetTaskParamsAtStart<S>(task: Task<S>)
    modifies task`curChild, task`firstReduce
  {
    var c: nat, f: bool := *, *;
    task.curChild, task.firstReduce := c, f;
  }

  /** ucc_progress_enqueue(pq, task): hands the task to the scheduler. */
  method ProgressEnqueue()
  {
  }

  /** ucc_progress_queue_enqueue(pq, task), whose status is returned. */
  method ProgressQueueEnqueue() returns (st: Status)
  {
    st := *;
  }

  /** ucc_task_complete(task): runs the completion callbacks. */
  method TaskComplete() returns (st: Status)
  {
    st := *;
  }

  /** ucc_ee_executor_task_post: a call into the executor whose status is
      not modelled; a task handle is returned when the work is asynchronous. */
  method ExecutorTaskPost(exec: Executor, dst: Buf, srcs: seq<Buf>)
    returns (st: Status, hasTask: bool)
  {
    st, hasTask := *, *;
  }

  /** ucc_coll_task_get_executor(task, &task->executor). */
  method GetExecutor() returns (st: Status, exec: Executor)
  {
    st := *;
    exec := new Executor();
  }

  /** `do { status = ucc_ee_executor_task_test(etask); } while (status > 0);`
      followed by finalize: ends with a status that is no longer pending. */
  method ExecutorTaskWait(exec: Executor) returns (st: Status)
    ensures st != InProgress
  {
    st :| st != InProgress;
  }
}
