/** Broadcast over the two-level tree (src/components/tl/shm/bcast/bcast.c):
    the push step (write), the pull step (read), the write-then-read
    progress function, start, init, and the tree setup with its leader
    substitution. */
module Bcast {
  import opened TlShm
  import opened ShmCommon

  /** `args.src.info.count * ucc_dt_size(args.src.info.datatype)`. */
  function BcastDataSize(args: CollArgs): nat
  {
    args.srcCount * args.dtSize
  }

  /** What a tree root forwards: the user buffer on the op root, otherwise
      its own copy in shm (bcast.c:27-28). */
  function RootForwardSource(rank: Rank, isInline: bool, isOpRoot: bool): Buf
  {
    if isOpRoot then UserSrc else ShmBuf(rank, isInline)
  }

  /** What bcast_write records when it returns OK: one copy to the
      children, from the forwarding source of a tree root or from this
      rank's own shm. */
  function WriteEvents(me: Rank, tree: KnTree, seqNum: Sn, isInline: bool, isOpRoot: bool, n: nat): seq<Event>
  {
    [ChildrenCopied(tree, Trunc32(seqNum), isInline,
                    if tree.parent.None? then RootForwardSource(me, isInline, isOpRoot) else ShmBuf(me, isInline), n)]
  }

  /** What bcast_read records when it returns OK: a tree root copies the
      user source into its shm, a rank with a parent and children copies
      its parent's shm into its own, each then signals; a leaf records
      nothing. */
  function ReadEvents(me: Rank, tree: KnTree, seqNum: Sn, isInline: bool, n: nat): seq<Event>
  {
    if tree.parent.None? then
      [Copied(ShmBuf(me, isInline), UserSrc, n), ChildrenSignalled(tree, Trunc32(seqNum))]
    else if |tree.children| > 0 then
      [Copied(ShmBuf(me, isInline), ShmBuf(tree.parent.value, isInline), n), ChildrenSignalled(tree, Trunc32(seqNum))]
    else []
  }

  /** What the write-then-read step records when both levels return OK:
      the top level's write (when there is a top tree) before the base
      level's read. */
  function WriteThenReadEvents(me: Rank, tree: ShmTree, seqNum: Sn, isInline: bool, isOpRoot: bool, n: nat)
    : seq<Event>
    requires tree.base.Some?
  {
    (if tree.top.Some? then WriteEvents(me, tree.top.value, seqNum, isInline, isOpRoot, n) else [])
    + ReadEvents(me, tree.base.value, seqNum, isInline, n)
  }

  /** The copy-out of bcast.c:263-267: from the base-tree parent's shm into
      the user buffer, on a rank that has a base-tree parent. */
  function CopyOutEvents(base: KnTree, isInline: bool, n: nat): seq<Event>
  {
    if base.parent.Some? then [Copied(UserSrc, ShmBuf(base.parent.value, isInline), n)] else []
  }

  /** What wr_progress records past the segment check on a call that
      returns OK: the write-then-read step, the copy-out, and the
      completion store ci := seq_num last. */
  function TransferEvents(me: Rank, tree: ShmTree, seqNum: Sn, isInline: bool, isOpRoot: bool, n: nat): seq<Event>
    requires tree.base.Some?
  {
    WriteThenReadEvents(me, tree, seqNum, isInline, isOpRoot, n)
    + CopyOutEvents(tree.base.value, isInline, n)
    + [CiStored(me, seqNum)]
  }

  /** What wr_progress records on a call that returns OK: the op root's
      segment check first, then the transfer. */
  function WrEvents(me: Rank, root: Rank, tree: ShmTree, seqNum: Sn, isInline: bool, n: nat): seq<Event>
    requires tree.base.Some?
  {
    (if me == root then [SegReadyChecked] else []) + TransferEvents(me, tree, seqNum, isInline, me == root, n)
  }

  /** The shape of a completed wr_progress call: the op root's segment
      check comes first, then the top level's write when there is a top
      tree; the user buffer is written exactly when the rank has a base-tree
      parent, once, from that parent's shm; and the completion store is the
      last event and the only one. */
  lemma WrEventsShape(me: Rank, root: Rank, tree: ShmTree, seqNum: Sn, isInline: bool, n: nat)
    requires tree.base.Some?
    ensures var e := WrEvents(me, root, tree, seqNum, isInline, n);
            var k0 := if me == root then 1 else 0;
            && |e| > k0
            && (me == root ==> e[0] == SegReadyChecked)
            && (tree.top.Some? ==> e[k0] == WriteEvents(me, tree.top.value, seqNum, isInline, me == root, n)[0])
            && (forall k | 0 <= k < |e| && e[k].CiStored? :: k == |e| - 1)
            && e[|e| - 1] == CiStored(me, seqNum)
            && (forall k | 0 <= k < |e| && e[k].Copied? && e[k].dst == UserSrc ::
                  tree.base.value.parent.Some? && e[k] == Copied(UserSrc, ShmBuf(tree.base.value.parent.value, isInline), n))
            && (tree.base.value.parent.Some? ==> e[|e| - 2] == Copied(UserSrc, ShmBuf(tree.base.value.parent.value, isInline), n))
  {
    var pre: seq<Event> := if me == root then [SegReadyChecked] else [];
    var p := pre + WriteThenReadEvents(me, tree, seqNum, isInline, me == root, n);
    var c := CopyOutEvents(tree.base.value, isInline, n);
    var e := WrEvents(me, root, tree, seqNum, isInline, n);
    assert e == p + c + [CiStored(me, seqNum)];
    PrefixLeavesUserBuffer(pre, WriteThenReadEvents(me, tree, seqNum, isInline, me == root, n));
  }

  /** Before the copy-out, wr_progress neither writes the user buffer nor
      stores a completion. */
  lemma PrefixLeavesUserBuffer(pre: seq<Event>, w: seq<Event>)
    requires pre == [] || pre == [SegReadyChecked]
    requires forall k | 0 <= k < |w| :: !w[k].CiStored? && !(w[k].Copied? && w[k].dst == UserSrc)
    ensures forall k | 0 <= k < |pre + w| ::
              !(pre + w)[k].CiStored? && !((pre + w)[k].Copied? && (pre + w)[k].dst == UserSrc)
  {
  }

  /** ucc_tl_shm_bcast_write: the push step. A tree root forwards at once;
      anybody else forwards its own copy once its pi shows this collective's
      (32-bit) sequence number, and otherwise changes nothing. */
  method BcastWrite<S>(team: Team, seg: Segment, task: Task<S>, tree: KnTree, isInline: bool,
                       isOpRoot: bool, dataSize: nat) returns (st: Status)
    requires team.Valid() && seg.Valid() && seg.nRanks == team.size
    modifies seg
    ensures seg.Valid()
    ensures st == Ok || st == InProgress
    ensures tree.parent.None? ==> st == Ok
    ensures tree.parent.Some? ==>
              (st == Ok <==> team.cfg.nPolls > 0 && old(seg.ctrl[team.rank].pi) == Trunc32(task.seqNum))
    ensures st == Ok ==> seg.trace == old(seg.trace) + WriteEvents(team.rank, tree, task.seqNum, isInline, isOpRoot, dataSize)
    ensures st == InProgress ==> unchanged(seg)
  {
    var seqNum := Trunc32(task.seqNum);
    if tree.parent.None? {
      CopyToChildren(seg, tree, seqNum, isInline, RootForwardSource(team.rank, isInline, isOpRoot), dataSize);
      return Ok;
    }
    var seen := PollPi(seg, team.rank, seqNum, team.cfg.nPolls);
    if seen {
      CopyToChildren(seg, tree, seqNum, isInline, ShmBuf(team.rank, isInline), dataSize);
      return Ok;
    }
    return InProgress;
  }

  /** ucc_tl_shm_bcast_read: the pull step. A tree root copies the user
      buffer into its own shm and then signals; anybody else waits for its
      pi, and only if it has children copies its parent's shm into its own
      and signals them. The user buffers are never touched. */
  method BcastRead<S>(team: Team, seg: Segment, task: Task<S>, tree: KnTree, isInline: bool,
                      isOpRoot: bool, dataSize: nat) returns (st: Status)
    requires team.Valid() && seg.Valid() && seg.nRanks == team.size && TreeIn(tree, seg.nRanks)
    requires Fits(seg, task, isInline, dataSize)
    modifies seg, task`userSrc, task`userDst
    ensures seg.Valid()
    ensures task.userSrc == old(task.userSrc) && task.userDst == old(task.userDst)
    ensures st == Ok || st == InProgress
    ensures tree.parent.None? ==> st == Ok
    ensures tree.parent.Some? ==>
              (st == Ok <==> team.cfg.nPolls > 0 && old(seg.ctrl[team.rank].pi) == Trunc32(task.seqNum))
    ensures st == Ok ==> seg.trace == old(seg.trace) + ReadEvents(team.rank, tree, task.seqNum, isInline, dataSize)
    ensures tree.parent.Some? && |tree.children| == 0 ==> unchanged(seg)
    ensures st == InProgress ==> unchanged(seg)
  {
    var seqNum := Trunc32(task.seqNum);
    var me := team.rank;
    if tree.parent.None? {
      Memcpy(task, seg, ShmBuf(me, isInline), UserSrc, dataSize);
      SignalToChildren(seg, seqNum, tree);
      return Ok;
    }
    var seen := PollPi(seg, me, seqNum, team.cfg.nPolls);
    if !seen {
      return InProgress;
    }
    if |tree.children| > 0 {
      Memcpy(task, seg, ShmBuf(me, isInline), ShmBuf(tree.parent.value, isInline), dataSize);
      SignalToChildren(seg, seqNum, tree);
    }
    return Ok;
  }

  /** The two levels of the write-then-read step: the top level is pushed
      (when there is one), then the base level pulled; OK once both have
      completed. Neither touches the user buffers or stores a completion. */
  method WriteThenRead<S>(team: Team, seg: Segment, task: Task<S>, isInline: bool, isOpRoot: bool, n: nat)
    returns (st: Status)
    requires team.Valid() && seg.Valid() && seg.nRanks == team.size
    requires task.tree.base.Some? && ShmTreeIn(task.tree, team.size) && Fits(seg, task, isInline, n)
    modifies seg, task`userSrc, task`userDst
    ensures seg.Valid() && task.userSrc == old(task.userSrc) && task.userDst == old(task.userDst)
    ensures st == Ok || st == InProgress
    ensures NoCiStore(old(seg.trace), seg.trace)
    ensures st == Ok ==>
              seg.trace == old(seg.trace) + WriteThenReadEvents(team.rank, task.tree, task.seqNum, isInline, isOpRoot, n)
    ensures st == InProgress ==>
              || unchanged(seg)
              || (&& task.tree.top.Some?
                  && seg.trace == old(seg.trace) + WriteEvents(team.rank, task.tree.top.value, task.seqNum, isInline,
                                                               isOpRoot, n))
    ensures task.tree.top.Some? && task.tree.top.value.parent.Some?
            && !(team.cfg.nPolls > 0 && old(seg.ctrl[team.rank].pi) == Trunc32(task.seqNum)) ==>
              st == InProgress && unchanged(seg)
    ensures task.tree.top.None? && task.tree.base.value.parent.Some? ==>
              (st == Ok <==> team.cfg.nPolls > 0 && old(seg.ctrl[team.rank].pi) == Trunc32(task.seqNum))
  {
    ghost var t0 := seg.trace;
    if task.tree.top.Some? {
      st := BcastWrite(team, seg, task, task.tree.top.value, isInline, isOpRoot, n);
      if st != Ok {
        return;
      }
    }
    ghost var t1 := seg.trace;
    st := BcastRead(team, seg, task, task.tree.base.value, isInline, isOpRoot, n);
    NoCiStoreTrans(t0, t1, seg.trace);
  }

  /** bcast.c:263-272: a rank with a base-tree parent copies the payload
      from the parent's shm into the user buffer; then ci := seq_num and the
      task is done. */
  method CopyOutAndComplete<S>(team: Team, seg: Segment, task: Task<S>, base: KnTree, isInline: bool, n: nat)
    requires team.Valid() && seg.Valid() && seg.nRanks == team.size && TreeIn(base, team.size)
    requires !task.srcIsDst && Fits(seg, task, isInline, n)
    modifies seg, task`userSrc, task`userDst, task`status
    ensures seg.Valid() && |task.userSrc| == |old(task.userSrc)| && task.userDst == old(task.userDst)
    ensures task.status == Ok && seg.ctrl[team.rank].ci == task.seqNum
    ensures |seg.trace| > |old(seg.trace)| && old(seg.trace) <= seg.trace
    ensures seg.trace[|seg.trace| - 1] == CiStored(team.rank, task.seqNum)
    ensures base.parent.None? ==> task.userSrc == old(task.userSrc)
    ensures base.parent.Some? ==>
              task.userSrc == Region(task, seg, ShmBuf(base.parent.value, isInline))[..n] + old(task.userSrc)[n..]
    ensures seg.trace == old(seg.trace) + CopyOutEvents(base, isInline, n) + [CiStored(team.rank, task.seqNum)]
  {
    if base.parent.Some? {
      Memcpy(task, seg, UserSrc, ShmBuf(base.parent.value, isInline), n);
    }
    StoreCi(seg, team.rank, task.seqNum);
    task.status := Ok;
  }

  /** bcast.c:242-273, the part of wr_progress past the segment check: the
      write-then-read step, then the copy-out and the completion store.
      `pre` is what the call recorded before this part, from `t0` on. */
  method WrTransfer<S>(team: Team, seg: Segment, task: Task<S>, isInline: bool, isOpRoot: bool, n: nat,
                       ghost t0: seq<Event>, ghost pre: seq<Event>)
    returns (st: Status)
    requires team.Valid() && seg.Valid() && seg.nRanks == team.size
    requires task.tree.base.Some? && ShmTreeIn(task.tree, team.size) && !task.srcIsDst && Fits(seg, task, isInline, n)
    requires seg.trace == t0 + pre && NoCiStore(t0, seg.trace)
    modifies seg, task`userSrc, task`userDst, task`status
    ensures seg.Valid() && |task.userSrc| == |old(task.userSrc)| && task.userDst == old(task.userDst)
    ensures st == Ok || st == InProgress
    ensures st == Ok ==>
              && task.status == Ok && seg.ctrl[team.rank].ci == task.seqNum
              && seg.trace == t0 + (pre + TransferEvents(team.rank, task.tree, task.seqNum, isInline, isOpRoot, n))
    ensures st == Ok && task.tree.base.value.parent.None? ==> task.userSrc == old(task.userSrc)
    ensures st == Ok && task.tree.base.value.parent.Some? ==>
              var from := ShmBuf(task.tree.base.value.parent.value, isInline);
              task.userSrc == Region(task, seg, from)[..n] + old(task.userSrc)[n..]
    ensures st == InProgress ==>
              && task.status == old(task.status) && task.userSrc == old(task.userSrc)
              && NoCiStore(t0, seg.trace)
              && (|| seg.trace == t0 + pre
                  || (&& task.tree.top.Some?
                      && seg.trace == t0 + pre + WriteEvents(team.rank, task.tree.top.value, task.seqNum,
                                                             isInline, isOpRoot, n)))
  {
    ghost var t1 := seg.trace;
    st := WriteThenRead(team, seg, task, isInline, isOpRoot, n);
    NoCiStoreTrans(t0, t1, seg.trace);
    if st != Ok {
      return;
    }
    ghost var w := WriteThenReadEvents(team.rank, task.tree, task.seqNum, isInline, isOpRoot, n);
    ghost var c := CopyOutEvents(task.tree.base.value, isInline, n);
    CopyOutAndComplete(team, seg, task, task.tree.base.value, isInline, n);
    ConcatAssoc(t0, pre, w, c, [CiStored(team.rank, task.seqNum)]);
  }

  lemma ConcatAssoc(a: seq<Event>, b: seq<Event>, c: seq<Event>, d: seq<Event>, e: seq<Event>)
    ensures a + b + c + d + e == a + (b + (c + d + e))
  {
  }

  /** bcast.c:235-241: only the op root checks that the previous collective
      on the segment has completed. */
  method OpRootSegReady(seg: Segment, isOpRoot: bool) returns (ready: Status)
    requires seg.Valid()
    modifies seg
    ensures seg.Valid()
    ensures seg.trace == old(seg.trace) + if isOpRoot then [SegReadyChecked] else []
    ensures !isOpRoot ==> ready == Ok && unchanged(seg)
  {
    ready := Ok;
    if isOpRoot {
      ready := SegReady(seg);
    }
  }

  /** ucc_tl_shm_bcast_wr_progress: the op root first waits for the segment
      and, while it is not ready, returns INPROGRESS having done nothing
      else; the top level is pushed (write), the base level pulled (read); a
      non-root then copies the payload from its base-tree parent into the
      user buffer; finally ci := seq_num and the task is done. `ready` is
      the status seg_ready returned (OK on the other ranks). */
  method WrProgress<S>(team: Team, seg: Segment, task: Task<S>) returns (st: Status, ghost ready: Status)
    requires team.Valid() && seg.Valid() && seg.nRanks == team.size
    requires task.tree.base.Some? && ShmTreeIn(task.tree, team.size) && !task.srcIsDst
    requires Fits(seg, task, BcastDataSize(task.args) <= seg.maxInline, BcastDataSize(task.args))
    modifies seg, task`userSrc, task`userDst, task`status
    ensures seg.Valid() && |task.userSrc| == |old(task.userSrc)| && task.userDst == old(task.userDst)
    ensures st == Ok || st == InProgress
    ensures team.rank == task.args.root && ready != Ok ==>
              && st == InProgress && seg.trace == old(seg.trace) + [SegReadyChecked]
              && task.status == old(task.status) && task.userSrc == old(task.userSrc)
    ensures st == Ok ==>
              var n := BcastDataSize(task.args);
              && task.status == Ok
              && seg.ctrl[team.rank].ci == task.seqNum
              && seg.trace == old(seg.trace) + WrEvents(team.rank, task.args.root, task.tree, task.seqNum,
                                                        n <= seg.maxInline, n)
    ensures st == InProgress ==>
              var n := BcastDataSize(task.args);
              var pre := old(seg.trace) + if team.rank == task.args.root then [SegReadyChecked] else [];
              && task.status == old(task.status) && task.userSrc == old(task.userSrc)
              && NoCiStore(old(seg.trace), seg.trace)
              && (|| seg.trace == pre
                  || (&& task.tree.top.Some?
                      && seg.trace == pre + WriteEvents(team.rank, task.tree.top.value, task.seqNum,
                                                        n <= seg.maxInline, team.rank == task.args.root, n)))
    ensures st == Ok && task.tree.base.value.parent.None? ==> task.userSrc == old(task.userSrc)
    ensures st == Ok && task.tree.base.value.parent.Some? ==>
              var n := BcastDataSize(task.args);
              var from := ShmBuf(task.tree.base.value.parent.value, n <= seg.maxInline);
              task.userSrc == Region(task, seg, from)[..n] + old(task.userSrc)[n..]
  {
    var n := BcastDataSize(task.args);
    var isInline := n <= seg.maxInline;
    var isOpRoot := team.rank == task.args.root;
    ghost var t0 := seg.trace;
    var r := OpRootSegReady(seg, isOpRoot);
    ready := r;
    if r != Ok {
      return InProgress, ready;
    }
    ghost var pre := if isOpRoot then [SegReadyChecked] else [];
    NoCiStoreAppend(t0, pre);
    st := WrTransfer(team, seg, task, isInline, isOpRoot, n, t0, pre);
  }


  /** ucc_tl_shm_bcast_start: bumps the task's sequence number, then runs
      the progress function once, and hands the task to the scheduler only
      if that call left it in progress. */
  method BcastStart<S>(team: Team, seg: Segment, task: Task<S>) returns (st: Status, enqueued: bool)
    requires team.Valid() && seg.Valid() && seg.nRanks == team.size
    requires task.progress == Some(BcastWrProgress)
    requires task.tree.base.Some? && ShmTreeIn(task.tree, team.size) && !task.srcIsDst
    requires Fits(seg, task, BcastDataSize(task.args) <= seg.maxInline, BcastDataSize(task.args))
    modifies seg, task`seqNum, task`userSrc, task`userDst, task`status
    ensures seg.Valid() && task.seqNum == SnInc(old(task.seqNum))
    ensures enqueued ==> st == Ok && task.status == InProgress
    ensures !enqueued ==> task.status == Ok && seg.ctrl[team.rank].ci == task.seqNum
  {
    task.seqNum := SnInc(task.seqNum);
    task.status := InProgress;
    var progressed;
    ghost var ready;
    progressed, ready := WrProgress(team, seg, task);
    if progressed == InProgress {
      ProgressEnqueue();
      return Ok, true;
    }
    st := TaskComplete();
    enqueued := false;
  }

  /** ucc_tl_shm_bcast_init: takes the team's sequence number (and bumps
      it), picks the ring slot, sets up the tree, and installs a progress
      function for the WR strategy only. */
  method BcastInit<S>(team: Team, task: Task<S>, allocOk: bool)
    returns (st: Status, ghost fromCache: bool, ghost builds: seq<KnTreeCall>)
    requires team.Valid() && task.args.root < team.size
    requires team.rank in team.baseGroups[team.myGroupId].members
    modifies team`seqNum, team`treeCache, task`seqNum, task`segIndex, task`tree, task`progress
    ensures task.seqNum == old(team.seqNum) && team.seqNum == SnInc(old(team.seqNum))
    ensures task.segIndex == task.seqNum % team.nConcurrent && task.segIndex < |team.segs|
    ensures st == Ok || st == Err(NoMemory)
    ensures st != Ok ==> task.progress == old(task.progress) && task.tree == old(task.tree)
    ensures st == Ok ==>
              task.progress == if team.cfg.bcastAlg == WR then Some(BcastWrProgress) else old(task.progress)
    ensures st == Err(NoMemory) <==> !fromCache && !allocOk
    ensures st == Ok && !fromCache ==>
              && (task.tree.base.Some? <==> MyGroup(team).groupSize > 1)
              && (task.tree.top.Some? <==> TopGate(team, task.args.root))
              && |builds| == (if task.tree.base.Some? then 1 else 0) + (if task.tree.top.Some? then 1 else 0)
              && (task.tree.top.Some? ==> builds[|builds| - 1] == TopTreeCall(team, task.args.root, team.cfg.bcastTopRadix))
    ensures st == Ok && !fromCache && task.tree.base.Some? ==>
              var g := MyGroup(team);
              && builds[0] == KnTreeCall(g.groupSize, Some(BaseTreeRoot(team, task.args.root)), builds[0].rank,
                                         team.cfg.bcastBaseRadix, Bcast, g.members)
              && Some(builds[0].rank) == IndexOf(g.members, team.rank)
  {
    task.seqNum := team.seqNum;
    team.seqNum := SnInc(team.seqNum);
    task.segIndex := task.seqNum % team.nConcurrent;
    var tree: ShmTree, hit: bool;
    st, tree, hit, builds := TreeInitBcast(team, task.args.root, team.cfg.bcastBaseRadix,
                                                 team.cfg.bcastTopRadix, allocOk);
    fromCache := hit;
    if st != Ok {
      return;
    }
    task.tree := tree;
    if team.cfg.bcastAlg == WR {
      task.progress := Some(BcastWrProgress);
    }
  }

  // ---- tree setup (bcast.c:90-218) ----

  /** One k-nomial tree construction: group size, root index (None for
      UCC_RANK_INVALID), this rank's index, radix, collective type, and the
      map through which the result is renumbered to team ranks. */
  datatype KnTreeCall = KnTreeCall(size: nat, root: Option<Rank>, rank: Rank, radix: nat,
                                   coll: CollType, toTeam: seq<Rank>)

  /** ucc_tl_shm_kn_tree_init. */
  method KnTreeInit(size: nat, root: Option<Rank>, rank: Rank, radix: nat, coll: CollType)
    returns (t: KnTree)
  {
    t := *;
  }

  /** ucc_tl_shm_tree_to_team_ranks. */
  method TreeToTeamRanks(t: KnTree, toTeam: seq<Rank>) returns (r: KnTree)
  {
    r := *;
  }

  /** ucc_tl_shm_cache_tree_lookup, called with the arguments bcast.c passes. */
  method CacheTreeLookup(team: Team, baseRadix: nat, topRadix: nat, root: Rank, coll: CollType)
    returns (hit: bool, tree: ShmTree)
  {
    hit := *;
    tree := *;
  }

  /** ucc_tl_shm_cache_tree, called with the arguments bcast.c passes. */
  method CacheTree(team: Team, baseRadix: nat, topRadix: nat, root: Rank, coll: CollType, tree: ShmTree)
    modifies team`treeCache
  {
    var cache: seq<(TreeCacheKey, ShmTree)> := *;
    team.treeCache := cache;
  }

  /** The first index of x in xs. */
  function IndexOf(xs: seq<Rank>, x: Rank): (r: Option<nat>)
    ensures r.Some? ==> r.value < |xs| && xs[r.value] == x && forall j | 0 <= j < r.value :: xs[j] != x
    ensures r.None? <==> x !in xs
  {
    if |xs| == 0 then None
    else if xs[0] == x then Some(0)
    else match IndexOf(xs[1..], x)
      case None => None
      case Some(k) => Some(k + 1)
  }

  /** The search loops of bcast.c:138-143 and 166-171. */
  method FindIndex(xs: seq<Rank>, x: Rank) returns (r: Option<nat>)
    ensures r == IndexOf(xs, x)
  {
    var i := 0;
    while i < |xs|
      invariant 0 <= i <= |xs|
      invariant forall j | 0 <= j < i :: xs[j] != x
    {
      if xs[i] == x {
        return Some(i);
      }
      i := i + 1;
    }
    return None;
  }

  /** The last index whose leader lies in group g (the loop at bcast.c:186-197
      overwrites tree_root at every match). */
  function LastInGroup(leaders: seq<Rank>, groupOf: seq<nat>, g: nat): (r: Option<nat>)
    requires forall i | 0 <= i < |leaders| :: leaders[i] < |groupOf|
    ensures r.Some? ==>
              && r.value < |leaders| && groupOf[leaders[r.value]] == g
              && forall j | r.value < j < |leaders| :: groupOf[leaders[j]] != g
    ensures r.None? <==> forall j | 0 <= j < |leaders| :: groupOf[leaders[j]] != g
  {
    if |leaders| == 0 then None
    else if groupOf[leaders[|leaders| - 1]] == g then Some(|leaders| - 1)
    else LastInGroup(leaders[..|leaders| - 1], groupOf, g)
  }

  /** The temporary leaders map: the leader of the root's group is replaced
      by the root. */
  function SubstMap(leaders: seq<Rank>, groupOf: seq<nat>, root: Rank, rootGroup: nat): seq<Rank>
    requires forall i | 0 <= i < |leaders| :: leaders[i] < |groupOf|
  {
    seq(|leaders|, i requires 0 <= i < |leaders| =>
      if groupOf[leaders[i]] == rootGroup then root else leaders[i])
  }

  /** In the substitution map exactly the slots whose leader shares the
      root's group hold the root (once the root is not a leader itself), and
      every other slot keeps its leader. */
  lemma SubstMapHoldsRootExactlyAtRootGroup(leaders: seq<Rank>, groupOf: seq<nat>, root: Rank,
                                            rootGroup: nat)
    requires forall i | 0 <= i < |leaders| :: leaders[i] < |groupOf|
    requires root !in leaders
    ensures |SubstMap(leaders, groupOf, root, rootGroup)| == |leaders|
    ensures forall i | 0 <= i < |leaders| ::
              (SubstMap(leaders, groupOf, root, rootGroup)[i] == root <==> groupOf[leaders[i]] == rootGroup)
    ensures forall i | 0 <= i < |leaders| && groupOf[leaders[i]] != rootGroup ::
              SubstMap(leaders, groupOf, root, rootGroup)[i] == leaders[i]
  {
    var m := SubstMap(leaders, groupOf, root, rootGroup);
    forall i | 0 <= i < |leaders|
      ensures m[i] == root <==> groupOf[leaders[i]] == rootGroup
    {
      if groupOf[leaders[i]] != rootGroup {
        assert m[i] == leaders[i];
        assert leaders[i] in leaders;
      }
    }
  }

  /** With one leader per group, exactly one slot of the substitution map
      holds the root: the slot of the root's group leader, which is the
      slot the loop leaves in tree_root. */
  lemma SubstMapRootSlotUnique(leaders: seq<Rank>, groupOf: seq<nat>, root: Rank, rootGroup: nat)
    requires forall i | 0 <= i < |leaders| :: leaders[i] < |groupOf|
    requires root !in leaders
    requires forall i, j | 0 <= i < j < |leaders| :: groupOf[leaders[i]] != groupOf[leaders[j]]
    ensures forall i | 0 <= i < |leaders| ::
              (SubstMap(leaders, groupOf, root, rootGroup)[i] == root <==>
               LastInGroup(leaders, groupOf, rootGroup) == Some(i))
  {
    SubstMapHoldsRootExactlyAtRootGroup(leaders, groupOf, root, rootGroup);
    var last := LastInGroup(leaders, groupOf, rootGroup);
    forall i | 0 <= i < |leaders| && groupOf[leaders[i]] == rootGroup
      ensures last == Some(i)
    {
      assert last.Some?;
    }
  }

  /** This rank's index in the substituted leaders tree as bcast.c:193
      computes it: the slot of the root's group leader, for every rank that
      gets this far. */
  function SubstRankAsWritten(leaders: seq<Rank>, groupOf: seq<nat>, rootGroup: nat, groupRank: Rank): Rank
    requires forall i | 0 <= i < |leaders| :: leaders[i] < |groupOf|
  {
    match LastInGroup(leaders, groupOf, rootGroup)
    case Some(i) => i
    case None => groupRank
  }

  /** This rank's index as intended: the root takes its group leader's slot,
      every other leader keeps its own. */
  function SubstRank(isRoot: bool, leaders: seq<Rank>, groupOf: seq<nat>, rootGroup: nat,
                     groupRank: Rank): Rank
    requires forall i | 0 <= i < |leaders| :: leaders[i] < |groupOf|
  {
    match LastInGroup(leaders, groupOf, rootGroup)
    case Some(i) => if isRoot then i else groupRank
    case None => groupRank
  }

  /** With the intended index every rank that builds the substituted tree
      finds itself at its slot of the map. */
  lemma SubstRankIsOwnSlot(teamRank: Rank, root: Rank, leaders: seq<Rank>, groupOf: seq<nat>,
                           groupRank: Rank)
    requires forall i | 0 <= i < |leaders| :: leaders[i] < |groupOf|
    requires root < |groupOf| && root !in leaders
    requires teamRank == root ==> LastInGroup(leaders, groupOf, groupOf[root]).Some?
    requires teamRank != root ==>
               && groupRank < |leaders| && leaders[groupRank] == teamRank
               && groupOf[teamRank] != groupOf[root]
    ensures SubstRank(teamRank == root, leaders, groupOf, groupOf[root], groupRank) < |leaders|
    ensures SubstMap(leaders, groupOf, root, groupOf[root])
              [SubstRank(teamRank == root, leaders, groupOf, groupOf[root], groupRank)] == teamRank
  {
  }

  /** bcast.c:193 as written: four ranks in groups {0,1} and {2,3}, leaders
      0 and 2, root 1 (not a leader). Rank 2 passes the gate at bcast.c:161-162
      (its group is not the root's) and is told it sits at slot 0, which the
      map gives to the root. */
  lemma SubstRankAsWrittenMisplacesLeader()
    ensures var leaders, groupOf, root, me := [0, 2], [0, 0, 1, 1], 1, 2;
            && root !in leaders && groupOf[root] != groupOf[me] && leaders[1] == me
            && SubstMap(leaders, groupOf, root, groupOf[root])
                 [SubstRankAsWritten(leaders, groupOf, groupOf[root], 1)] != me
            && SubstMap(leaders, groupOf, root, groupOf[root])
                 [SubstRank(false, leaders, groupOf, groupOf[root], 1)] == me
  {
    var leaders: seq<Rank>, groupOf: seq<nat> := [0, 2], [0, 0, 1, 1];
    assert LastInGroup(leaders, groupOf, 0) == Some(0) by {
      assert LastInGroup(leaders[..1], groupOf, 0) == Some(0);
    }
  }

  /** The loop at bcast.c:186-197 (with the intended index): fills the
      temporary map, and finds the root's group leader's slot. */
  method SubstituteRootLeader(leaders: seq<Rank>, groupOf: seq<nat>, root: Rank, rootGroup: nat,
                              isRoot: bool, groupRank: Rank)
    returns (ranks: seq<Rank>, treeRoot: Option<nat>, rank: Rank)
    requires forall i | 0 <= i < |leaders| :: leaders[i] < |groupOf|
    ensures ranks == SubstMap(leaders, groupOf, root, rootGroup)
    ensures treeRoot == LastInGroup(leaders, groupOf, rootGroup)
    ensures rank == SubstRank(isRoot, leaders, groupOf, rootGroup, groupRank)
  {
    var a := new Rank[|leaders|];
    treeRoot := None;
    rank := groupRank;
    for i := 0 to |leaders|
      invariant forall j | 0 <= j < i :: a[j] == SubstMap(leaders, groupOf, root, rootGroup)[j]
      invariant treeRoot.Some? ==>
                  && treeRoot.value < i && groupOf[leaders[treeRoot.value]] == rootGroup
                  && forall j | treeRoot.value < j < i :: groupOf[leaders[j]] != rootGroup
      invariant treeRoot.None? ==> forall j | 0 <= j < i :: groupOf[leaders[j]] != rootGroup
      invariant rank == if isRoot && treeRoot.Some? then treeRoot.value else groupRank
    {
      if groupOf[leaders[i]] == rootGroup {
        treeRoot := Some(i);
        a[i] := root;
        if isRoot {
          rank := i;
        }
      } else {
        a[i] := leaders[i];
      }
    }
    ranks := a[..];
    LastInGroupUnique(leaders, groupOf, rootGroup, treeRoot);
  }

  /** LastInGroup is the only index with its two properties. */
  lemma LastInGroupUnique(leaders: seq<Rank>, groupOf: seq<nat>, g: nat, r: Option<nat>)
    requires forall i | 0 <= i < |leaders| :: leaders[i] < |groupOf|
    requires r.Some? ==>
               && r.value < |leaders| && groupOf[leaders[r.value]] == g
               && forall j | r.value < j < |leaders| :: groupOf[leaders[j]] != g
    requires r.None? ==> forall j | 0 <= j < |leaders| :: groupOf[leaders[j]] != g
    ensures r == LastInGroup(leaders, groupOf, g)
  {
    var l := LastInGroup(leaders, groupOf, g);
  }

  /** The base group this rank belongs to. */
  function MyGroup(team: Team): Sbgp
    reads team
    requires team.Valid()
  {
    team.baseGroups[team.myGroupId]
  }

  /** The base tree's root index (bcast.c:148-152): the root's index in its
      group when this is the root's group, index 0 otherwise. */
  function BaseTreeRoot(team: Team, root: Rank): Rank
    reads team
    requires team.Valid() && root < team.size
  {
    if team.myGroupId == team.rankGroupId[root] then team.groupRankMap[root] else 0
  }

  /** bcast.c:160-162: who builds a leaders tree. */
  predicate TopGate(team: Team, root: Rank)
    reads team
    requires team.Valid() && root < team.size
  {
    team.leaders.groupSize > 1
    && (team.rank == root || (team.rankGroupId[root] != team.myGroupId && team.leaders.enabled))
  }

  /** The leaders tree built by a rank past the gate: over the leaders map
      when the root is a leader, over the substitution map otherwise. */
  function TopTreeCall(team: Team, root: Rank, topRadix: nat): KnTreeCall
    reads team
    requires team.Valid() && root < team.size
  {
    var l := team.leaders;
    var g := team.rankGroupId[root];
    if root in l.members then
      KnTreeCall(l.groupSize, IndexOf(l.members, root), l.groupRank, topRadix, Bcast, l.members)
    else
      KnTreeCall(l.groupSize, LastInGroup(l.members, team.rankGroupId, g),
                 SubstRank(team.rank == root, l.members, team.rankGroupId, g, l.groupRank),
                 topRadix, Bcast, SubstMap(l.members, team.rankGroupId, root, g))
  }

  /** ucc_tl_shm_tree_init_bcast: a cache hit is returned as is; otherwise,
      when allocation succeeds, a base tree is built iff the group has more
      than one rank, at this rank's first index in its group, and a leaders
      tree iff the gate admits this rank; the result is cached. */
  method TreeInitBcast(team: Team, root: Rank, baseRadix: nat, topRadix: nat, allocOk: bool)
    returns (st: Status, tree: ShmTree, fromCache: bool, ghost builds: seq<KnTreeCall>)
    requires team.Valid() && root < team.size
    requires team.rank in MyGroup(team).members
    modifies team`treeCache
    ensures st == Ok || st == Err(NoMemory)
    ensures st == Err(NoMemory) <==> !fromCache && !allocOk
    ensures st != Ok || fromCache ==> builds == [] && team.treeCache == old(team.treeCache)
    ensures st == Ok && !fromCache ==>
              && (tree.base.Some? <==> MyGroup(team).groupSize > 1)
              && (tree.top.Some? <==> TopGate(team, root))
              && |builds| == (if tree.base.Some? then 1 else 0) + (if tree.top.Some? then 1 else 0)
              && (tree.top.Some? ==> builds[|builds| - 1] == TopTreeCall(team, root, topRadix))
    ensures st == Ok && !fromCache && tree.base.Some? ==>
              var g := MyGroup(team);
              && builds[0] == KnTreeCall(g.groupSize, Some(BaseTreeRoot(team, root)), builds[0].rank,
                                         baseRadix, Bcast, g.members)
              && Some(builds[0].rank) == IndexOf(g.members, team.rank)
  {
    builds := [];
    var hit, cached := CacheTreeLookup(team, baseRadix, topRadix, root, Bcast);
    if hit {
      return Ok, cached, true, [];
    }
    fromCache := false;
    if !allocOk {
      return Err(NoMemory), ShmTree(None, None), false, [];
    }
    var base: Option<KnTree> := None;
    var top: Option<KnTree> := None;
    var rootGroup := team.rankGroupId[root];
    var sbgp := MyGroup(team);
    var localRank := FindIndex(sbgp.members, team.rank);
    if sbgp.groupSize > 1 {
      var t := KnTreeInit(sbgp.groupSize, Some(BaseTreeRoot(team, root)), localRank.value, baseRadix, Bcast);
      builds := builds + [KnTreeCall(sbgp.groupSize, Some(BaseTreeRoot(team, root)), localRank.value,
                                     baseRadix, Bcast, sbgp.members)];
      t := TreeToTeamRanks(t, sbgp.members);
      base := Some(t);
    }
    var l := team.leaders;
    if l.groupSize > 1 {
      if team.rank == root || (rootGroup != team.myGroupId && l.enabled) {
        var treeRoot := FindIndex(l.members, root);
        var t;
        if treeRoot.Some? {
          t := KnTreeInit(l.groupSize, treeRoot, l.groupRank, topRadix, Bcast);
          builds := builds + [KnTreeCall(l.groupSize, treeRoot, l.groupRank, topRadix, Bcast, l.members)];
          t := TreeToTeamRanks(t, l.members);
        } else {
          var ranks, substRoot, rank := SubstituteRootLeader(l.members, team.rankGroupId, root, rootGroup,
                                                             team.rank == root, l.groupRank);
          t := KnTreeInit(l.groupSize, substRoot, rank, topRadix, Bcast);
          builds := builds + [KnTreeCall(l.groupSize, substRoot, rank, topRadix, Bcast, ranks)];
          t := TreeToTeamRanks(t, ranks);
        }
        top := Some(t);
      }
    }
    tree := ShmTree(base, top);
    CacheTree(team, baseRadix, topRadix, root, Bcast, tree);
    st := Ok;
  }
}
