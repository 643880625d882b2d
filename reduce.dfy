/** Reduce to a root over the two-level tree
    (src/components/tl/shm/reduce/reduce.c): the batched reduction of
    children into a rank's buffer, the stage machine, start and init. */
module Reduce {
  import opened TlShm
  import opened ShmCommon

  datatype ReduceStage = RedStart | RedBaseTree | RedTopTree

  function Min(a: int, b: int): int
  {
    if a <= b then a else b
  }

  /** `batch = ucc_min(radix - 1, tree->n_children - task->cur_child)`. */
  function Batch(n: nat, cur: nat, radix: nat): nat
    requires cur <= n && radix >= 1
  {
    Min(radix - 1, n - cur)
  }

  /** The shm area of each child, in order. */
  function ChildBufs(kids: seq<Rank>, isInline: bool): seq<Buf>
  {
    seq(|kids|, i requires 0 <= i < |kids| => ShmBuf(kids[i], isInline))
  }

  /** The user buffer the first batch folds in: the destination when the op
      root reduces in place, the source otherwise (reduce.c:105-108). */
  function FirstSrc(args: CollArgs, me: Rank): Buf
  {
    if args.inPlace && args.root == me then UserDst else UserSrc
  }

  /** Where a rank accumulates: the user destination on the op root, its own
      shm elsewhere (reduce.c:101-103). */
  function ReduceDst(args: CollArgs, me: Rank, isInline: bool): Buf
  {
    if args.root == me then UserDst else ShmBuf(me, isInline)
  }

  /** The accumulator input of a batch. */
  function Acc(first: bool, firstSrc: Buf, dst: Buf): Buf
  {
    if first then firstSrc else dst
  }

  /** A child's pi shows sequence number s within n_polls reads. */
  ghost predicate Ready(ctrl: seq<Ctrl>, c: Rank, s: Sn, nPolls: nat)
  {
    nPolls > 0 && c < |ctrl| && ctrl[c].pi == s
  }

  /** cur is reached from `from` by whole batches. */
  ghost predicate OnBoundary(n: nat, from: nat, cur: nat, radix: nat)
    requires radix >= 2 && from <= n && cur <= n
    decreases cur - from
  {
    from == cur
    || (from < cur && from + Batch(n, from, radix) <= cur
        && OnBoundary(n, from + Batch(n, from, radix), cur, radix))
  }

  /** The reductions posted while cur_child advances from `from` to `cur`,
      where bufs[i] is the shm area of child i: one per batch, the
      accumulator first, then the batch's children. */
  ghost function BatchReductions(bufs: seq<Buf>, from: nat, cur: nat, radix: nat, dst: Buf, acc: Buf)
    : (r: seq<Event>)
    requires radix >= 2 && from <= cur <= |bufs|
    decreases cur - from
  {
    if from == cur then []
    else
      var b := Batch(|bufs|, from, radix);
      if from + b > cur then []
      else [ReducePosted(dst, [acc] + bufs[from..from + b])] + BatchReductions(bufs, from + b, cur, radix, dst, dst)
  }

  /** One more batch extends the posted reductions by one event; only the
      very first batch takes the caller's accumulator. */
  lemma {:induction false} BatchReductionsAppend(bufs: seq<Buf>, from: nat, cur: nat, radix: nat,
                                                 dst: Buf, acc: Buf)
    requires radix >= 2 && from <= cur < |bufs| && OnBoundary(|bufs|, from, cur, radix)
    ensures cur + Batch(|bufs|, cur, radix) <= |bufs|
    ensures OnBoundary(|bufs|, from, cur + Batch(|bufs|, cur, radix), radix)
    ensures BatchReductions(bufs, from, cur + Batch(|bufs|, cur, radix), radix, dst, acc)
            == BatchReductions(bufs, from, cur, radix, dst, acc)
               + [ReducePosted(dst, [if cur == from then acc else dst] + bufs[cur..cur + Batch(|bufs|, cur, radix)])]
    decreases cur - from
  {
    if from < cur {
      BatchReductionsAppend(bufs, from + Batch(|bufs|, from, radix), cur, radix, dst, dst);
    }
  }

  /** Every posted reduction goes into dst. */
  lemma {:induction false} BatchReductionsIntoDst(bufs: seq<Buf>, from: nat, cur: nat, radix: nat,
                                                  dst: Buf, acc: Buf)
    requires radix >= 2 && from <= cur <= |bufs|
    ensures forall e | e in BatchReductions(bufs, from, cur, radix, dst, acc) :: e.ReducePosted? && e.dst == dst
    decreases cur - from
  {
    if from < cur && from + Batch(|bufs|, from, radix) <= cur {
      BatchReductionsIntoDst(bufs, from + Batch(|bufs|, from, radix), cur, radix, dst, dst);
    }
  }

  /** The children a sequence of reductions folds in, in order. */
  ghost function Folded(evs: seq<Event>): seq<Buf>
  {
    if |evs| == 0 then []
    else (if evs[0].ReducePosted? && |evs[0].srcs| > 0 then evs[0].srcs[1..] else []) + Folded(evs[1..])
  }

  /** Whole batches fold every child between `from` and `cur` exactly once
      and in order. */
  lemma {:induction false} BatchReductionsFoldEachChildOnce(bufs: seq<Buf>, from: nat, cur: nat, radix: nat,
                                                           dst: Buf, acc: Buf)
    requires radix >= 2 && from <= cur <= |bufs| && OnBoundary(|bufs|, from, cur, radix)
    ensures Folded(BatchReductions(bufs, from, cur, radix, dst, acc)) == bufs[from..cur]
    decreases cur - from
  {
    if from < cur {
      var b := Batch(|bufs|, from, radix);
      var rest := BatchReductions(bufs, from + b, cur, radix, dst, dst);
      var e := ReducePosted(dst, [acc] + bufs[from..from + b]);
      BatchReductionsFoldEachChildOnce(bufs, from + b, cur, radix, dst, dst);
      assert ([e] + rest)[1..] == rest;
      assert bufs[from..cur] == bufs[from..from + b] + bufs[from + b..cur];
    }
  }

  /** Each reduction has between two and radix inputs; the first takes the
      caller's accumulator and every later one the destination itself. */
  lemma {:induction false} BatchReductionsShape(bufs: seq<Buf>, from: nat, cur: nat, radix: nat,
                                               dst: Buf, acc: Buf)
    requires radix >= 2 && from <= cur <= |bufs| && OnBoundary(|bufs|, from, cur, radix)
    ensures forall k | 0 <= k < |BatchReductions(bufs, from, cur, radix, dst, acc)| ::
              var e := BatchReductions(bufs, from, cur, radix, dst, acc)[k];
              e.ReducePosted? && 2 <= |e.srcs| <= radix && e.srcs[0] == (if k == 0 then acc else dst)
    decreases cur - from
  {
    if from < cur {
      var b := Batch(|bufs|, from, radix);
      var rest := BatchReductions(bufs, from + b, cur, radix, dst, dst);
      var e := ReducePosted(dst, [acc] + bufs[from..from + b]);
      BatchReductionsShape(bufs, from + b, cur, radix, dst, dst);
      assert BatchReductions(bufs, from, cur, radix, dst, acc) == [e] + rest;
    }
  }

  /** ucc_tl_shm_dt_reduce: posts one reduction of srcs into dst to the
      executor and, when the executor works asynchronously, waits for it.
      The reduced values are not modelled: dst receives some bytes of its
      size and no other buffer changes. The status is the post's when that
      is not OK, and otherwise the wait's. */
  method DtReduce<S>(task: Task<S>, seg: Segment, exec: Executor, dst: Buf, srcs: seq<Buf>)
    returns (st: Status, ghost posted: Status)
    requires seg.Valid() && InSeg(seg, dst)
    modifies task`userSrc, task`userDst, seg`inlineData, seg`data, seg`trace
    ensures seg.Valid()
    ensures |Region(task, seg, dst)| == |old(Region(task, seg, dst))|
    ensures forall b | InSeg(seg, b) && Storage(task, b) != Storage(task, dst) ::
              Region(task, seg, b) == old(Region(task, seg, b))
    ensures dst != UserSrc ==> task.userSrc == old(task.userSrc)
    ensures Storage(task, dst) != UserDst ==> task.userDst == old(task.userDst)
    ensures |task.userDst| == |old(task.userDst)|
    ensures seg.trace == old(seg.trace) + [ReducePosted(dst, srcs)]
    ensures posted != Ok ==> st == posted
    ensures posted == Ok ==> st != InProgress
  {
    var before := Region(task, seg, dst);
    var result: seq<Byte> :| |result| == |before|;
    WriteRegion(task, seg, dst, result);
    seg.trace := seg.trace + [ReducePosted(dst, srcs)];
    var postSt, hasTask := ExecutorTaskPost(exec, dst, srcs);
    posted := postSt;
    if postSt != Ok {
      return postSt, postSt;
    }
    if hasTask {
      st := ExecutorTaskWait(exec);
    } else {
      st := Ok;
    }
  }

  /** The reductions an inner node posts while cur_child goes from c0 to
      cur, given first_reduce at c0. */
  ghost function Posted(args: CollArgs, me: Rank, tree: KnTree, isInline: bool, first: bool,
                        c0: nat, cur: nat): seq<Event>
    requires tree.radix >= 2 && c0 <= cur <= |tree.children|
  {
    var dst := ReduceDst(args, me, isInline);
    BatchReductions(ChildBufs(tree.children, isInline), c0, cur, tree.radix, dst, Acc(first, FirstSrc(args, me), dst))
  }

  /** A k-nomial tree level with children has radix at least 2. */
  predicate RadixOk(tree: KnTree)
  {
    |tree.children| > 0 ==> tree.radix >= 2
  }

  /** first_reduce once a level's read has completed from cur_child c0: a
      leaf leaves it, and an inner node clears it unless nothing was left
      to fold. */
  function FirstAfter(tree: KnTree, first: bool, c0: nat): bool
  {
    if |tree.children| == 0 then first else first && c0 == |tree.children|
  }

  /** What reduce_read records on a call that returns OK, entered at
      cur_child c0 with first_reduce `first`: a leaf copies its source into
      its shm where `intoShm` and stores its pi; an inner node posts the
      reductions of every batch left and, with a parent, stores its pi. */
  ghost function LevelEvents(args: CollArgs, me: Rank, tree: KnTree, isInline: bool, intoShm: bool, first: bool,
                             c0: nat, seqNum: Sn, n: nat): seq<Event>
    requires RadixOk(tree) && c0 <= |tree.children|
  {
    if |tree.children| == 0 then
      (if intoShm then [Copied(ShmBuf(me, isInline), UserSrc, n)] else []) + [PiStored(me, seqNum)]
    else
      Posted(args, me, tree, isInline, first, c0, |tree.children|)
      + (if tree.parent.Some? then [PiStored(me, seqNum)] else [])
  }

  /** From any cur_child, whole batches end exactly at the last child. */
  lemma {:induction false} OnBoundaryToEnd(n: nat, from: nat, radix: nat)
    requires radix >= 2 && from <= n
    ensures OnBoundary(n, from, n, radix)
    decreases n - from
  {
    if from < n {
      OnBoundaryToEnd(n, from + Batch(n, from, radix), radix);
    }
  }

  lemma {:induction false} FoldedAppend(a: seq<Event>, b: seq<Event>)
    ensures Folded(a + b) == Folded(a) + Folded(b)
    decreases |a|
  {
    if |a| > 0 {
      var h := if a[0].ReducePosted? && |a[0].srcs| > 0 then a[0].srcs[1..] else [];
      assert (a + b)[0] == a[0] && (a + b)[1..] == a[1..] + b;
      FoldedAppend(a[1..], b);
      assert Folded(a + b) == h + Folded(a[1..] + b);
      assert Folded(a) == h + Folded(a[1..]);
    } else {
      assert a + b == b;
    }
  }

  /** Events that fold no child. */
  lemma FoldedNone(e: seq<Event>)
    requires forall k | 0 <= k < |e| :: !e[k].ReducePosted?
    ensures Folded(e) == []
    decreases |e|
  {
    if |e| > 0 {
      FoldedNone(e[1..]);
    }
  }

  /** A level's read that completes folds every child from cur_child on
      exactly once and in order. */
  lemma LevelFoldsRemainingChildren(args: CollArgs, me: Rank, tree: KnTree, isInline: bool, intoShm: bool,
                                    first: bool, c0: nat, seqNum: Sn, n: nat)
    requires RadixOk(tree) && c0 <= |tree.children|
    ensures Folded(LevelEvents(args, me, tree, isInline, intoShm, first, c0, seqNum, n))
            == ChildBufs(tree.children, isInline)[c0..]
  {
    if |tree.children| == 0 {
      var cp: seq<Event> := if intoShm then [Copied(ShmBuf(me, isInline), UserSrc, n)] else [];
      FoldedNone(cp + [PiStored(me, seqNum)]);
    } else {
      var dst := ReduceDst(args, me, isInline);
      var acc := Acc(first, FirstSrc(args, me), dst);
      var p := Posted(args, me, tree, isInline, first, c0, |tree.children|);
      var tail: seq<Event> := if tree.parent.Some? then [PiStored(me, seqNum)] else [];
      OnBoundaryToEnd(|tree.children|, c0, tree.radix);
      BatchReductionsFoldEachChildOnce(ChildBufs(tree.children, isInline), c0, |tree.children|, tree.radix, dst, acc);
      FoldedNone(tail);
      FoldedAppend(p, tail);
    }
  }

  /** A level's read that completes reduces only into this rank's
      destination, stores no completion, and stores pi (last) exactly when
      the rank is a leaf or has a parent. */
  lemma LevelSignalsParentLast(args: CollArgs, me: Rank, tree: KnTree, isInline: bool, intoShm: bool,
                               first: bool, c0: nat, seqNum: Sn, n: nat)
    requires RadixOk(tree) && c0 <= |tree.children|
    ensures var e := LevelEvents(args, me, tree, isInline, intoShm, first, c0, seqNum, n);
            && (forall k | 0 <= k < |e| && e[k].ReducePosted? :: e[k].dst == ReduceDst(args, me, isInline))
            && (forall k | 0 <= k < |e| :: !e[k].CiStored?)
            && ((|tree.children| == 0 || tree.parent.Some?) <==> PiStored(me, seqNum) in e)
            && (PiStored(me, seqNum) in e ==> e[|e| - 1] == PiStored(me, seqNum))
  {
    if |tree.children| > 0 {
      var dst := ReduceDst(args, me, isInline);
      var acc := Acc(first, FirstSrc(args, me), dst);
      BatchReductionsIntoDst(ChildBufs(tree.children, isInline), c0, |tree.children|, tree.radix, dst, acc);
    }
  }

  /** reduce.c:69-80: a leaf copies its input into its own shm at the base
      level (or when there is no base tree) and signals its parent. */
  method ReduceLeaf<S>(team: Team, seg: Segment, task: Task<S>, intoShm: bool, isInline: bool, n: nat)
    returns (st: Status)
    requires team.Valid() && seg.Valid() && seg.nRanks == team.size && Fits(seg, task, isInline, n)
    modifies seg, task`userSrc, task`userDst
    ensures seg.Valid() && task.userSrc == old(task.userSrc) && |task.userDst| == |old(task.userDst)|
    ensures st == Ok && seg.ctrl[team.rank].pi == task.seqNum
    ensures seg.trace == old(seg.trace) + (if intoShm then [Copied(ShmBuf(team.rank, isInline), UserSrc, n)] else [])
                                        + [PiStored(team.rank, task.seqNum)]
  {
    if intoShm {
      Memcpy(task, seg, ShmBuf(team.rank, isInline), UserSrc, n);
    }
    StorePi(seg, team.rank, task.seqNum);
    return Ok;
  }

  /** reduce.c:100-119: the batch starting at cur_child (`cur`) is ready in
      srcs[1..batch]; the accumulator goes in srcs[0], first_reduce is
      cleared, the batch is reduced into this rank's destination `dst`, and
      on success cur_child moves past the batch. `c0` and `first0` are
      cur_child and first_reduce when the scan began. */
  method FoldBatch<S>(seg: Segment, task: Task<S>, bufs: seq<Buf>, radix: nat, exec: Executor,
                      srcs: array<Buf>, dst: Buf, firstSrc: Buf, cur: nat, ghost c0: nat, ghost first0: bool,
                      ghost t0: seq<Event>)
    returns (st: Status)
    requires seg.Valid() && InSeg(seg, dst) && dst != UserSrc
    requires radix >= 2 && srcs.Length == radix && c0 <= cur < |bufs| && OnBoundary(|bufs|, c0, cur, radix)
    requires seg.trace == t0 + BatchReductions(bufs, c0, cur, radix, dst, Acc(first0, firstSrc, dst))
    requires forall k | 1 <= k <= Batch(|bufs|, cur, radix) :: srcs[k] == bufs[cur + k - 1]
    requires task.curChild == cur && task.firstReduce == (first0 && cur == c0)
    modifies srcs, seg`inlineData, seg`data, seg`trace, task`firstReduce, task`curChild, task`status,
             task`userSrc, task`userDst
    ensures seg.Valid() && task.userSrc == old(task.userSrc) && |task.userDst| == |old(task.userDst)|
    ensures !task.firstReduce
    ensures task.status == if st == Ok then old(task.status) else st
    ensures task.curChild == if st == Ok then cur + Batch(|bufs|, cur, radix) else cur
    ensures cur + Batch(|bufs|, cur, radix) <= |bufs|
    ensures OnBoundary(|bufs|, c0, cur + Batch(|bufs|, cur, radix), radix)
    ensures seg.trace == t0 + BatchReductions(bufs, c0, cur + Batch(|bufs|, cur, radix), radix, dst,
                                              Acc(first0, firstSrc, dst))
  {
    var batch := Batch(|bufs|, cur, radix);
    srcs[0] := if task.firstReduce then firstSrc else dst;
    assert srcs[..batch + 1] == [if cur == c0 then Acc(first0, firstSrc, dst) else dst] + bufs[cur..cur + batch];
    task.firstReduce := false;
    BatchReductionsAppend(bufs, c0, cur, radix, dst, Acc(first0, firstSrc, dst));
    ghost var posted;
    st, posted := DtReduce(task, seg, exec, dst, srcs[..batch + 1]);
    if st != Ok {
      task.status := st;
      return;
    }
    task.curChild := cur + batch;
  }

  /** reduce.c:84-99 for the children of the batch that starts at cur: each
      child in turn is polled and, once ready, its shm area is put in
      srcs[num_ready]; the scan stops at the first child that is not ready.
      The result is num_ready. */
  method PollBatch(seg: Segment, kids: seq<Rank>, cur: nat, batch: nat, seqNum: Sn, nPolls: nat,
                   isInline: bool, srcs: array<Buf>) returns (numReady: nat)
    requires seg.Valid() && forall j | 0 <= j < |kids| :: kids[j] < seg.nRanks
    requires cur + batch <= |kids| && batch < srcs.Length
    modifies srcs
    ensures numReady <= batch
    ensures forall j | cur <= j < cur + numReady :: Ready(seg.ctrl, kids[j], seqNum, nPolls)
    ensures numReady < batch ==> !Ready(seg.ctrl, kids[cur + numReady], seqNum, nPolls)
    ensures forall k | 1 <= k <= numReady :: srcs[k] == ShmBuf(kids[cur + k - 1], isInline)
  {
    numReady := 0;
    while numReady < batch
      invariant numReady <= batch
      invariant forall j | cur <= j < cur + numReady :: Ready(seg.ctrl, kids[j], seqNum, nPolls)
      invariant forall k | 1 <= k <= numReady :: srcs[k] == ShmBuf(kids[cur + k - 1], isInline)
    {
      var child := kids[cur + numReady];
      var ready := PollPi(seg, child, seqNum, nPolls);
      if !ready {
        return;
      }
      numReady := numReady + 1;
      srcs[numReady] := ShmBuf(child, isInline);
    }
  }

  /** Where the posted reductions end when the scan stops at cur_child
      `cur`: past the batch whose reduction `failed`, at cur otherwise. */
  function ScanEnd(n: nat, cur: nat, radix: nat, failed: bool): nat
    requires cur <= n && radix >= 1
  {
    if failed && cur < n then cur + Batch(n, cur, radix) else cur
  }

  /** reduce.c:82-121: an inner node scans its children from cur_child
      (`c0`, first_reduce being `first0`) and, batch by batch, folds the
      ready ones into `dst`; it stops at the first child that is not ready,
      leaving cur_child at the start of that child's batch. A status other
      than OK from the reduction is stored in the task and returned, and
      `failed` says the scan ended that way. The source's single loop
      over the children is written as a loop over the batches around
      PollBatch, with the same polls in the same order and the same exits. */
  method ScanChildren<S>(seg: Segment, task: Task<S>, kids: seq<Rank>, radix: nat, isInline: bool, seqNum: Sn,
                         nPolls: nat, dst: Buf, firstSrc: Buf, exec: Executor, c0: nat, ghost first0: bool)
    returns (st: Status, ghost failed: bool)
    requires seg.Valid() && InSeg(seg, dst) && dst != UserSrc
    requires forall j | 0 <= j < |kids| :: kids[j] < seg.nRanks
    requires radix >= 2 && c0 <= |kids| && task.curChild == c0 && task.firstReduce == first0
    modifies seg`inlineData, seg`data, seg`trace, task`curChild, task`firstReduce, task`status,
             task`userSrc, task`userDst
    ensures seg.Valid() && task.userSrc == old(task.userSrc) && |task.userDst| == |old(task.userDst)|
    ensures task.status == if failed then st else old(task.status)
    ensures failed ==> st != Ok
    ensures !failed ==> st == Ok || st == InProgress
    ensures c0 <= task.curChild <= |kids| && OnBoundary(|kids|, c0, task.curChild, radix)
    ensures task.firstReduce == (first0 && task.curChild == c0 && !failed)
    ensures st == Ok <==> task.curChild == |kids|
    ensures ScanEnd(|kids|, task.curChild, radix, failed) <= |kids|
    ensures seg.trace == old(seg.trace)
              + BatchReductions(ChildBufs(kids, isInline), c0, ScanEnd(|kids|, task.curChild, radix, failed), radix,
                                dst, Acc(first0, firstSrc, dst))
    ensures st == Ok ==> forall j | c0 <= j < |kids| :: Ready(seg.ctrl, kids[j], seqNum, nPolls)
    ensures !failed && st == InProgress ==>
              exists i | task.curChild <= i < task.curChild + Batch(|kids|, task.curChild, radix) ::
                !Ready(seg.ctrl, kids[i], seqNum, nPolls)
  {
    var n := |kids|;
    var srcs := new Buf[radix];
    var bufs := ChildBufs(kids, isInline);
    ghost var t0 := seg.trace;
    failed := false;
    var cur := c0;
    while cur < n
      invariant c0 <= cur <= n && task.curChild == cur
      invariant OnBoundary(n, c0, cur, radix)
      invariant forall j | c0 <= j < cur :: Ready(seg.ctrl, kids[j], seqNum, nPolls)
      invariant seg.Valid() && task.userSrc == old(task.userSrc) && |task.userDst| == |old(task.userDst)|
      invariant seg.trace == t0 + BatchReductions(bufs, c0, cur, radix, dst, Acc(first0, firstSrc, dst))
      invariant task.firstReduce == (first0 && cur == c0)
      invariant task.status == old(task.status)
      decreases n - cur
    {
      var batch := Min(radix - 1, n - cur);
      var numReady := PollBatch(seg, kids, cur, batch, seqNum, nPolls, isInline, srcs);
      if numReady < batch {
        return InProgress, false;
      }
      st := FoldBatch(seg, task, bufs, radix, exec, srcs, dst, firstSrc, cur, c0, first0, t0);
      if st != Ok {
        return st, true;
      }
      cur := task.curChild;
    }
    return Ok, false;
  }

  /** reduce.c:82-126: the scan of ScanChildren into this rank's
      destination, then, once every batch is folded, the signal to the
      parent (if any). */
  method ReduceChildren<S>(team: Team, seg: Segment, task: Task<S>, tree: KnTree, isInline: bool,
                           exec: Executor) returns (st: Status, ghost failed: bool)
    requires team.Valid() && seg.Valid() && seg.nRanks == team.size && TreeIn(tree, seg.nRanks)
    requires |tree.children| > 0 && tree.radix >= 2 && task.curChild <= |tree.children|
    modifies seg`ctrl, seg`inlineData, seg`data, seg`trace, task`curChild, task`firstReduce, task`status,
             task`userSrc, task`userDst
    ensures seg.Valid() && task.userSrc == old(task.userSrc) && |task.userDst| == |old(task.userDst)|
    ensures task.status == if failed then st else old(task.status)
    ensures failed ==> st != Ok
    ensures !failed ==> st == Ok || st == InProgress
    ensures old(task.curChild) <= task.curChild <= |tree.children|
    ensures OnBoundary(|tree.children|, old(task.curChild), task.curChild, tree.radix)
    ensures task.firstReduce == (old(task.firstReduce) && task.curChild == old(task.curChild) && !failed)
    ensures st == Ok <==> task.curChild == |tree.children|
    ensures ScanEnd(|tree.children|, task.curChild, tree.radix, failed) <= |tree.children|
    ensures seg.trace == old(seg.trace)
              + Posted(task.args, team.rank, tree, isInline, old(task.firstReduce), old(task.curChild),
                       ScanEnd(|tree.children|, task.curChild, tree.radix, failed))
              + (if st == Ok && tree.parent.Some? then [PiStored(team.rank, task.seqNum)] else [])
    ensures st == Ok ==>
              forall j | old(task.curChild) <= j < |tree.children| ::
                Ready(old(seg.ctrl), tree.children[j], task.seqNum, team.cfg.nPolls)
    ensures !failed && st == InProgress ==>
              exists i | task.curChild <= i < task.curChild + Batch(|tree.children|, task.curChild, tree.radix) ::
                !Ready(old(seg.ctrl), tree.children[i], task.seqNum, team.cfg.nPolls)
  {
    var me := team.rank;
    st, failed := ScanChildren(seg, task, tree.children, tree.radix, isInline, task.seqNum, team.cfg.nPolls,
                       ReduceDst(task.args, me, isInline), FirstSrc(task.args, me), exec,
                       task.curChild, task.firstReduce);
    if st == Ok && tree.parent.Some? {
      StorePi(seg, me, task.seqNum);
    }
  }

  /** ucc_tl_shm_reduce_read: one tree level of the reduction, as a leaf
      (ReduceLeaf) or as an inner node (ReduceChildren). `isBaseTree` says
      whether `tree` is the task's base tree; `failed` says a reduction
      returned something other than OK. */
  method ReduceRead<S>(team: Team, seg: Segment, task: Task<S>, tree: KnTree, isBaseTree: bool,
                       isInline: bool, count: nat, exec: Executor) returns (st: Status, ghost failed: bool)
    requires team.Valid() && seg.Valid() && seg.nRanks == team.size && TreeIn(tree, seg.nRanks)
    requires RadixOk(tree) && task.curChild <= |tree.children|
    requires Fits(seg, task, isInline, count * task.args.dtSize)
    modifies seg, task`curChild, task`firstReduce, task`status, task`userSrc, task`userDst
    ensures seg.Valid() && task.userSrc == old(task.userSrc) && |task.userDst| == |old(task.userDst)|
    ensures task.status == if failed then st else old(task.status)
    ensures failed ==> st != Ok
    ensures !failed ==> st == Ok || st == InProgress
    ensures old(task.curChild) <= task.curChild <= |tree.children|
    ensures st == Ok ==>
              && task.curChild == |tree.children|
              && task.firstReduce == FirstAfter(tree, old(task.firstReduce), old(task.curChild))
              && seg.trace == old(seg.trace)
                   + LevelEvents(task.args, team.rank, tree, isInline, isBaseTree || task.tree.base.None?,
                                 old(task.firstReduce), old(task.curChild), task.seqNum, count * task.args.dtSize)
    ensures |tree.children| == 0 ==> st == Ok && seg.ctrl[team.rank].pi == task.seqNum
    ensures |tree.children| > 0 ==>
              && (st != Ok ==> task.curChild < |tree.children|)
              && ScanEnd(|tree.children|, task.curChild, tree.radix, failed) <= |tree.children|
              && seg.trace == old(seg.trace)
                   + Posted(task.args, team.rank, tree, isInline, old(task.firstReduce), old(task.curChild),
                            ScanEnd(|tree.children|, task.curChild, tree.radix, failed))
                   + (if st == Ok && tree.parent.Some? then [PiStored(team.rank, task.seqNum)] else [])
    ensures NoCiStore(old(seg.trace), seg.trace)
  {
    if |tree.children| == 0 {
      st := ReduceLeaf(team, seg, task, isBaseTree || task.tree.base.None?, isInline, count * task.args.dtSize);
      failed := false;
    } else {
      ghost var c0, first0 := task.curChild, task.firstReduce;
      st, failed := ReduceChildren(team, seg, task, tree, isInline, exec);
      var dst := ReduceDst(task.args, team.rank, isInline);
      ghost var posted := Posted(task.args, team.rank, tree, isInline, first0, c0,
                                 ScanEnd(|tree.children|, task.curChild, tree.radix, failed));
      BatchReductionsIntoDst(ChildBufs(tree.children, isInline), c0,
                             ScanEnd(|tree.children|, task.curChild, tree.radix, failed), tree.radix, dst,
                             Acc(first0, FirstSrc(task.args, team.rank), dst));
      ghost var tail := if st == Ok && tree.parent.Some? then [PiStored(team.rank, task.seqNum)] else [];
      NoCiStoreAppend(old(seg.trace), posted + tail);
    }
  }

  // ---- the stage machine ----

  /** The stage transitions of reduce_progress. */
  predicate NextStage(t: ShmTree, a: ReduceStage, b: ReduceStage)
  {
    match a
    case RedStart => b == (if t.base.Some? then RedBaseTree else RedTopTree)
    case RedBaseTree => t.top.Some? && b == RedTopTree
    case RedTopTree => false
  }

  /** The stages after which the reduction is complete. */
  predicate FinalStage(t: ShmTree, s: ReduceStage)
  {
    s == RedTopTree || (s == RedBaseTree && t.top.None?)
  }

  /** A sequence of stages that follows the transitions. */
  predicate StagePath(t: ShmTree, path: seq<ReduceStage>)
  {
    |path| >= 1 && forall k | 0 <= k < |path| - 1 :: NextStage(t, path[k], path[k + 1])
  }

  lemma StagePathExtend(t: ShmTree, path: seq<ReduceStage>, s: ReduceStage)
    requires StagePath(t, path) && NextStage(t, path[|path| - 1], s)
    ensures StagePath(t, path + [s]) && (path + [s])[0] == path[0]
  {
  }

  lemma StagePathPrepend(t: ShmTree, s: ReduceStage, path: seq<ReduceStage>)
    requires StagePath(t, path) && NextStage(t, s, path[0])
    ensures StagePath(t, [s] + path) && ([s] + path)[|path|] == path[|path| - 1]
  {
    var p := [s] + path;
    forall k | 0 <= k < |p| - 1 ensures NextStage(t, p[k], p[k + 1]) {
      if k > 0 {
        assert p[k] == path[k - 1] && p[k + 1] == path[k];
      }
    }
  }

  /** The full stage order for a tree pair. */
  function ReduceStages(t: ShmTree): seq<ReduceStage>
  {
    if t.base.Some? && t.top.Some? then [RedStart, RedBaseTree, RedTopTree]
    else if t.base.Some? then [RedStart, RedBaseTree]
    else [RedStart, RedTopTree]
  }

  /** Every run from START follows the full stage order. */
  lemma {:induction false} StagePathFollowsOrder(t: ShmTree, path: seq<ReduceStage>, j: nat)
    requires StagePath(t, path) && path[0] == RedStart && j < |path|
    ensures j < |ReduceStages(t)| && forall k | 0 <= k <= j :: path[k] == ReduceStages(t)[k]
  {
    if j > 0 {
      StagePathFollowsOrder(t, path, j - 1);
      assert NextStage(t, path[j - 1], path[j]);
    }
  }

  /** A complete run from START visits base tree then top tree, leaving out
      the level that does not exist. */
  lemma CompleteStagePaths(t: ShmTree, path: seq<ReduceStage>)
    requires StagePath(t, path) && path[0] == RedStart && FinalStage(t, path[|path| - 1])
    ensures path == ReduceStages(t)
  {
    StagePathFollowsOrder(t, path, |path| - 1);
  }

  /** The tree this stage reads, as reduce_progress dereferences it. */
  predicate StageHasTree(t: ShmTree, s: ReduceStage)
  {
    match s
    case RedStart => t.base.Some? || t.top.Some?
    case RedBaseTree => t.base.Some?
    case RedTopTree => t.top.Some?
  }

  /** k-nomial trees with children have radix at least 2, and both levels
      name team ranks. */
  predicate TreesUsable(t: ShmTree, n: nat)
  {
    && ShmTreeIn(t, n)
    && (t.base.Some? && |t.base.value.children| > 0 ==> t.base.value.radix >= 2)
    && (t.top.Some? && |t.top.value.children| > 0 ==> t.top.value.radix >= 2)
  }

  /** What reduce_progress needs of a task in the ring between calls. */
  predicate Resumable(task: Task<ReduceStage>)
    reads task`status, task`stage, task`tree, task`curChild, task`firstReduce
  {
    && task.status == InProgress
    && StageHasTree(task.tree, task.stage) && (task.tree.base.None? ==> task.tree.top.Some?)
    && (task.stage == RedStart ==> task.curChild == 0 && task.firstReduce)
    && (task.stage == RedBaseTree ==> task.curChild <= |task.tree.base.value.children|)
    && (task.stage == RedTopTree ==> task.curChild <= |task.tree.top.value.children|)
  }

  /** The element count reduce_progress uses: the destination count on the
      op root, the source count elsewhere. */
  function ReduceCount(args: CollArgs, me: Rank): nat
  {
    if args.root == me then args.dstCount else args.srcCount
  }

  /** The levels reduce_progress reads from stage s on are k-nomial trees
      and s's level exists, cur_child (`c0`) being within it. */
  predicate LevelsWf(t: ShmTree, s: ReduceStage, c0: nat)
  {
    && (t.base.Some? ==> RadixOk(t.base.value)) && (t.top.Some? ==> RadixOk(t.top.value))
    && StageHasTree(t, s)
    && (s == RedStart ==> c0 == 0)
    && (s == RedBaseTree ==> c0 <= |t.base.value.children|)
    && (s == RedTopTree ==> c0 <= |t.top.value.children|)
  }

  /** What reduce_progress records from stage s up to, not including, the
      completion store, on a run whose calls all return OK: from START the
      segment check, then the base level's read (copying a leaf's source
      into its shm) and the top level's, entered at cur_child 0 with the
      first_reduce the base level left. */
  ghost function ReduceEvents(args: CollArgs, me: Rank, t: ShmTree, s: ReduceStage, isInline: bool, first: bool,
                              c0: nat, seqNum: Sn, n: nat): seq<Event>
    requires LevelsWf(t, s, c0)
    decreases if s == RedStart then 1 else 0
  {
    match s
    case RedStart =>
      [SegReadyChecked] + ReduceEvents(args, me, t, FirstLevel(t), isInline, first, 0, seqNum, n)
    case RedBaseTree =>
      LevelEvents(args, me, t.base.value, isInline, true, first, c0, seqNum, n)
      + (if t.top.Some?
         then LevelEvents(args, me, t.top.value, isInline, false, FirstAfter(t.base.value, first, c0), 0, seqNum, n)
         else [])
    case RedTopTree => LevelEvents(args, me, t.top.value, isInline, t.base.None?, first, c0, seqNum, n)
  }

  /** The shm areas of a level's children, none for a missing level. */
  function LevelBufs(level: Option<KnTree>, isInline: bool): seq<Buf>
  {
    if level.Some? then ChildBufs(level.value.children, isInline) else []
  }

  /** The children reduce_progress still has to fold from stage s, in order. */
  function ChildrenLeft(t: ShmTree, s: ReduceStage, c0: nat, isInline: bool): seq<Buf>
    requires LevelsWf(t, s, c0)
  {
    match s
    case RedStart => LevelBufs(t.base, isInline) + LevelBufs(t.top, isInline)
    case RedBaseTree => ChildBufs(t.base.value.children, isInline)[c0..] + LevelBufs(t.top, isInline)
    case RedTopTree => ChildBufs(t.top.value.children, isInline)[c0..]
  }

  /** From the base level: its children from cur_child on, then every
      child of the top level. */
  lemma BaseLevelFoldsThenTop(args: CollArgs, me: Rank, t: ShmTree, isInline: bool, first: bool, c0: nat,
                              seqNum: Sn, n: nat)
    requires LevelsWf(t, RedBaseTree, c0)
    ensures Folded(ReduceEvents(args, me, t, RedBaseTree, isInline, first, c0, seqNum, n))
            == ChildBufs(t.base.value.children, isInline)[c0..] + LevelBufs(t.top, isInline)
  {
    var b := LevelEvents(args, me, t.base.value, isInline, true, first, c0, seqNum, n);
    LevelFoldsRemainingChildren(args, me, t.base.value, isInline, true, first, c0, seqNum, n);
    if t.top.Some? {
      var f1 := FirstAfter(t.base.value, first, c0);
      LevelFoldsRemainingChildren(args, me, t.top.value, isInline, false, f1, 0, seqNum, n);
      FoldedAppend(b, LevelEvents(args, me, t.top.value, isInline, false, f1, 0, seqNum, n));
    } else {
      assert b + [] == b;
    }
  }

  /** A run of reduce_progress that completes folds every child still to
      be folded, of the base level and then of the top level, exactly once
      and in order, after checking the segment when it starts. */
  lemma ReductionFoldsEveryChild(args: CollArgs, me: Rank, t: ShmTree, s: ReduceStage, isInline: bool,
                                 first: bool, c0: nat, seqNum: Sn, n: nat)
    requires LevelsWf(t, s, c0)
    ensures var e := ReduceEvents(args, me, t, s, isInline, first, c0, seqNum, n);
            && Folded(e) == ChildrenLeft(t, s, c0, isInline)
            && (s == RedStart ==> e[0] == SegReadyChecked)
    decreases if s == RedStart then 1 else 0
  {
    if s == RedStart {
      var s1 := FirstLevel(t);
      ReductionFoldsEveryChild(args, me, t, s1, isInline, first, 0, seqNum, n);
      FoldedAppend([SegReadyChecked], ReduceEvents(args, me, t, s1, isInline, first, 0, seqNum, n));
      FoldedNone([SegReadyChecked]);
    } else if s == RedBaseTree {
      BaseLevelFoldsThenTop(args, me, t, isInline, first, c0, seqNum, n);
    } else {
      LevelFoldsRemainingChildren(args, me, t.top.value, isInline, t.base.None?, first, c0, seqNum, n);
    }
  }

  /** Every reduction of such a run goes into this rank's destination, and
      the run stores no completion before the final one. */
  lemma ReductionPostsIntoDst(args: CollArgs, me: Rank, t: ShmTree, s: ReduceStage, isInline: bool,
                              first: bool, c0: nat, seqNum: Sn, n: nat)
    requires LevelsWf(t, s, c0)
    ensures var e := ReduceEvents(args, me, t, s, isInline, first, c0, seqNum, n);
            && (forall k | 0 <= k < |e| && e[k].ReducePosted? :: e[k].dst == ReduceDst(args, me, isInline))
            && (forall k | 0 <= k < |e| :: !e[k].CiStored?)
    decreases if s == RedStart then 1 else 0
  {
    if s == RedStart {
      ReductionPostsIntoDst(args, me, t, FirstLevel(t), isInline, first, 0, seqNum, n);
    } else if s == RedBaseTree {
      LevelSignalsParentLast(args, me, t.base.value, isInline, true, first, c0, seqNum, n);
      if t.top.Some? {
        LevelSignalsParentLast(args, me, t.top.value, isInline, false, FirstAfter(t.base.value, first, c0), 0,
                               seqNum, n);
      }
    } else {
      LevelSignalsParentLast(args, me, t.top.value, isInline, t.base.None?, first, c0, seqNum, n);
    }
  }

  /** REDUCE_STAGE_BASE_TREE (reduce.c:169-177): the base level's read; a
      status other than OK is stored in the task (SHMCHECK_GOTO) and the
      stage is kept; on OK cur_child restarts and the stage moves to the top
      level when there is one. */
  method BaseTreeStage(team: Team, seg: Segment, task: Task<ReduceStage>, isInline: bool, count: nat)
    returns (st: Status)
    requires team.Valid() && seg.Valid() && seg.nRanks == team.size
    requires task.stage == RedBaseTree && task.status == InProgress && TreesUsable(task.tree, team.size)
    requires task.tree.base.Some? && task.curChild <= |task.tree.base.value.children| && task.executor.Some?
    requires Fits(seg, task, isInline, count * task.args.dtSize)
    modifies seg, task`stage, task`curChild, task`firstReduce, task`status, task`userSrc, task`userDst
    ensures seg.Valid() && task.userSrc == old(task.userSrc) && |task.userDst| == |old(task.userDst)| && NoCiStore(old(seg.trace), seg.trace)
    ensures st != Ok ==>
              task.status == st && task.stage == RedBaseTree && task.curChild <= |task.tree.base.value.children|
    ensures task.status == InProgress && st != Ok ==> Resumable(task)
    ensures st == Ok ==>
              && task.status == InProgress && task.curChild == 0
              && task.stage == (if task.tree.top.Some? then RedTopTree else RedBaseTree)
              && task.firstReduce == FirstAfter(task.tree.base.value, old(task.firstReduce), old(task.curChild))
              && seg.trace == old(seg.trace)
                   + LevelEvents(task.args, team.rank, task.tree.base.value, isInline, true, old(task.firstReduce),
                                 old(task.curChild), task.seqNum, count * task.args.dtSize)
  {
    var tree := task.tree;
    ghost var failed;
    st, failed := ReduceRead(team, seg, task, tree.base.value, true, isInline, count, task.executor.value);
    if st != Ok {
      task.status := st;
      return;
    }
    task.curChild := 0;
    if tree.top.Some? {
      task.stage := RedTopTree;
    }
  }

  /** REDUCE_STAGE_TOP_TREE (reduce.c:178-181): the top level's read; a
      status other than OK is stored in the task. A leaf here copies its
      source into its shm only when there is no base tree. */
  method TopTreeStage(team: Team, seg: Segment, task: Task<ReduceStage>, isInline: bool, count: nat)
    returns (st: Status)
    requires team.Valid() && seg.Valid() && seg.nRanks == team.size
    requires task.stage == RedTopTree && task.status == InProgress && TreesUsable(task.tree, team.size)
    requires task.tree.top.Some? && task.curChild <= |task.tree.top.value.children| && task.executor.Some?
    requires Fits(seg, task, isInline, count * task.args.dtSize)
    modifies seg, task`curChild, task`firstReduce, task`status, task`userSrc, task`userDst
    ensures seg.Valid() && NoCiStore(old(seg.trace), seg.trace)
    ensures task.userSrc == old(task.userSrc) && |task.userDst| == |old(task.userDst)|
    ensures st != Ok ==> task.status == st && task.curChild <= |task.tree.top.value.children|
    ensures task.status == InProgress ==> Resumable(task)
    ensures st == Ok ==>
              && task.status == InProgress && task.curChild == |task.tree.top.value.children|
              && seg.trace == old(seg.trace)
                   + LevelEvents(task.args, team.rank, task.tree.top.value, isInline, task.tree.base.None?,
                                 old(task.firstReduce), old(task.curChild), task.seqNum, count * task.args.dtSize)
  {
    var tree := task.tree;
    ghost var failed;
    st, failed := ReduceRead(team, seg, task, tree.top.value, false, isInline, count, task.executor.value);
    if st != Ok {
      task.status := st;
    }
  }

  /** The levels of reduce_progress after START: the base level's stage
      falls through to the top level's on OK. The result is OK when the
      last level's read completed, having recorded ReduceEvents. */
  method TreeStages(team: Team, seg: Segment, task: Task<ReduceStage>, isInline: bool, count: nat)
    returns (st: Status, ghost path: seq<ReduceStage>)
    requires team.Valid() && seg.Valid() && seg.nRanks == team.size
    requires Resumable(task) && task.stage != RedStart && TreesUsable(task.tree, team.size)
    requires task.executor.Some? && Fits(seg, task, isInline, count * task.args.dtSize)
    modifies seg, task`stage, task`curChild, task`firstReduce, task`status, task`userSrc, task`userDst
    ensures seg.Valid() && NoCiStore(old(seg.trace), seg.trace) && task.stage != RedStart
    ensures StagePath(task.tree, path) && path[0] == old(task.stage) && path[|path| - 1] == task.stage
    ensures st != Ok ==> task.status == st
    ensures task.status == InProgress && st != Ok ==> Resumable(task)
    ensures st == Ok ==>
              && task.status == InProgress && FinalStage(task.tree, task.stage)
              && LevelsWf(task.tree, old(task.stage), old(task.curChild))
              && seg.trace == old(seg.trace)
                   + ReduceEvents(task.args, team.rank, task.tree, old(task.stage), isInline, old(task.firstReduce),
                                  old(task.curChild), task.seqNum, count * task.args.dtSize)
  {
    ghost var t0 := seg.trace;
    path := [task.stage];
    if task.stage == RedBaseTree {
      st := BaseTreeStage(team, seg, task, isInline, count);
      if st != Ok || task.stage == RedBaseTree {
        return;
      }
      StagePathExtend(task.tree, path, task.stage);
      path := path + [task.stage];
    }
    ghost var t1 := seg.trace;
    st := TopTreeStage(team, seg, task, isInline, count);
    NoCiStoreTrans(t0, t1, seg.trace);
  }

  /** REDUCE_STAGE_START (reduce.c:157-165): the segment check; on OK the
      base level when there is a base tree, the top level otherwise. */
  method StartStage(seg: Segment, task: Task<ReduceStage>) returns (st: Status)
    requires seg.Valid() && task.stage == RedStart
    modifies seg, task`stage, task`status
    ensures seg.Valid() && seg.trace == old(seg.trace) + [SegReadyChecked]
    ensures st != Ok ==> task.status == st && task.stage == RedStart
    ensures st == Ok ==>
              task.status == old(task.status) && task.stage == FirstLevel(task.tree)
  {
    st := CheckSegReady(seg, task.tree, 1);
    if st != Ok {
      task.status := st;
      return;
    }
    task.stage := FirstLevel(task.tree);
  }

  /** reduce_progress from a level's stage: the levels, then on completion
      ci := seq_num (no rewind) and status OK (reduce.c:185-189). */
  method LevelsThenComplete(team: Team, seg: Segment, task: Task<ReduceStage>, isInline: bool, count: nat,
                            ghost t0: seq<Event>, ghost pre: seq<Event>)
    returns (ghost path: seq<ReduceStage>)
    requires team.Valid() && seg.Valid() && seg.nRanks == team.size && seg.trace == t0 + pre
    requires Resumable(task) && task.stage != RedStart && TreesUsable(task.tree, team.size)
    requires task.executor.Some? && Fits(seg, task, isInline, count * task.args.dtSize)
    modifies seg, task`stage, task`curChild, task`firstReduce, task`status, task`userSrc, task`userDst
    ensures seg.Valid() && task.stage != RedStart
    ensures StagePath(task.tree, path) && path[0] == old(task.stage) && path[|path| - 1] == task.stage
    ensures task.status == InProgress ==> Resumable(task) && NoCiStore(old(seg.trace), seg.trace)
    ensures task.status == Ok ==>
              && FinalStage(task.tree, task.stage)
              && seg.ctrl[team.rank].ci == task.seqNum
              && LevelsWf(task.tree, old(task.stage), old(task.curChild))
              && seg.trace == t0
                   + (pre + ReduceEvents(task.args, team.rank, task.tree, old(task.stage), isInline,
                                         old(task.firstReduce), old(task.curChild), task.seqNum, count * task.args.dtSize))
                   + [CiStored(team.rank, task.seqNum)]
  {
    var st;
    st, path := TreeStages(team, seg, task, isInline, count);
    if st != Ok {
      return;
    }
    ConcatAssoc(t0, pre, ReduceEvents(task.args, team.rank, task.tree, old(task.stage), isInline, old(task.firstReduce),
                                      old(task.curChild), task.seqNum, count * task.args.dtSize));
    StoreCi(seg, team.rank, task.seqNum);
    task.status := Ok;
  }

  lemma ConcatAssoc(a: seq<Event>, b: seq<Event>, c: seq<Event>)
    ensures a + b + c == a + (b + c)
  {
  }

  /** The level START moves to. */
  function FirstLevel(t: ShmTree): ReduceStage
  {
    if t.base.Some? then RedBaseTree else RedTopTree
  }

  /** reduce_progress entered at START: the segment check, then the
      levels and the completion. */
  method FromStart(team: Team, seg: Segment, task: Task<ReduceStage>, isInline: bool, count: nat)
    returns (ghost path: seq<ReduceStage>)
    requires team.Valid() && seg.Valid() && seg.nRanks == team.size
    requires Resumable(task) && task.stage == RedStart && TreesUsable(task.tree, team.size)
    requires task.executor.Some? && Fits(seg, task, isInline, count * task.args.dtSize)
    modifies seg, task`stage, task`curChild, task`firstReduce, task`status, task`userSrc, task`userDst
    ensures seg.Valid()
    ensures StagePath(task.tree, path) && path[0] == RedStart && path[|path| - 1] == task.stage
    ensures task.status == InProgress ==> Resumable(task) && NoCiStore(old(seg.trace), seg.trace)
    ensures task.status == Ok ==>
              && FinalStage(task.tree, task.stage)
              && seg.ctrl[team.rank].ci == task.seqNum
              && LevelsWf(task.tree, FirstLevel(task.tree), 0)
              && seg.trace == old(seg.trace)
                   + ([SegReadyChecked]
                      + ReduceEvents(task.args, team.rank, task.tree, FirstLevel(task.tree), isInline,
                                     old(task.firstReduce), 0, task.seqNum, count * task.args.dtSize))
                   + [CiStored(team.rank, task.seqNum)]
    ensures task.stage == RedStart ==> seg.trace == old(seg.trace) + [SegReadyChecked]
  {
    ghost var t0 := seg.trace;
    var st := StartStage(seg, task);
    if st != Ok {
      path := [RedStart];
      return;
    }
    NoCiStoreAppend(t0, [SegReadyChecked]);
    assert task.stage == FirstLevel(task.tree) && task.curChild == 0 && Resumable(task);
    var rest := LevelsThenComplete(team, seg, task, isInline, count, t0, [SegReadyChecked]);
    StagePathPrepend(task.tree, RedStart, rest);
    path := [RedStart] + rest;
    if task.status == InProgress {
      NoCiStoreTrans(t0, t0 + [SegReadyChecked], seg.trace);
    }
  }

  /** ucc_tl_shm_reduce_progress. START waits for the segment and moves to
      the base level when there is a base tree, to the top level otherwise;
      the base level moves to the top level (restarting cur_child) when
      there is a top tree; each level is re-entered until its read returns
      OK. On completion ci := seq_num (no rewind) and status OK. */
  method Progress(team: Team, seg: Segment, task: Task<ReduceStage>) returns (ghost path: seq<ReduceStage>)
    requires team.Valid() && seg.Valid() && seg.nRanks == team.size
    requires Resumable(task) && TreesUsable(task.tree, team.size) && task.executor.Some?
    requires var n := ReduceCount(task.args, team.rank) * task.args.dtSize;
             Fits(seg, task, n <= seg.maxInline, n)
    modifies seg, task`stage, task`curChild, task`firstReduce, task`status, task`userSrc, task`userDst
    ensures seg.Valid()
    ensures StagePath(task.tree, path) && path[0] == old(task.stage) && path[|path| - 1] == task.stage
    ensures task.status == InProgress ==> Resumable(task) && NoCiStore(old(seg.trace), seg.trace)
    ensures task.status == Ok ==>
              && FinalStage(task.tree, task.stage)
              && seg.ctrl[team.rank].ci == task.seqNum
              && LevelsWf(task.tree, old(task.stage), old(task.curChild))
              && var n := ReduceCount(task.args, team.rank) * task.args.dtSize;
                 seg.trace == old(seg.trace)
                   + ReduceEvents(task.args, team.rank, task.tree, old(task.stage), n <= seg.maxInline,
                                  old(task.firstReduce), old(task.curChild), task.seqNum, n)
                   + [CiStored(team.rank, task.seqNum)]
    ensures old(task.stage) == RedStart && task.stage == RedStart ==>
              seg.trace == old(seg.trace) + [SegReadyChecked]
  {
    var count := ReduceCount(task.args, team.rank);
    var isInline := count * task.args.dtSize <= seg.maxInline;
    if task.stage == RedStart {
      path := FromStart(team, seg, task, isInline, count);
    } else {
      ghost var lv := ReduceEvents(task.args, team.rank, task.tree, task.stage, isInline, task.firstReduce,
                                   task.curChild, task.seqNum, count * task.args.dtSize);
      assert [] + lv == lv;
      path := LevelsThenComplete(team, seg, task, isInline, count, seg.trace, []);
    }
  }

  /** team->perf_params_reduce: the team's selector for this collective. */
  method PerfParamsReduce(team: Team) returns (p: PerfParams)
  {
    p := *;
  }

  /** ucc_tl_shm_reduce_start: resets the stage, sets up a REDUCE tree for
      the op root with the radices and base_tree_only the team's selector
      picked (`params`), gets an executor, and enqueues the task in
      progress; a tree or executor failure is returned before enqueueing. */
  method Start(team: Team, task: Task<ReduceStage>)
    returns (st: Status, enqueued: bool, ghost params: PerfParams, ghost key: TreeCacheKey)
    modifies team`treeCache, task`stage, task`curChild, task`firstReduce, task`tree, task`executor, task`status,
             task`segReadySeqNum
    ensures task.stage == RedStart
    ensures key == TreeCacheKey(params.baseRadix, params.topRadix, task.args.root, Reduce, params.baseTreeOnly)
    ensures enqueued ==> task.status == InProgress && task.executor.Some?
    ensures !enqueued ==> st != Ok && task.status == old(task.status)
  {
    task.stage := RedStart;
    SetTaskParamsAtStart(task);
    var p := PerfParamsReduce(team);
    params := p;
    var tree;
    st, tree, key := TreeInit(team, task.args.root, p.baseRadix, p.topRadix, Reduce, p.baseTreeOnly);
    if st != Ok {
      return st, false, params, key;
    }
    task.tree := tree;
    SetSegReadySeqNum(task);
    var exec;
    st, exec := GetExecutor();
    if st != Ok {
      return st, false, params, key;
    }
    task.executor := Some(exec);
    task.status := InProgress;
    st := ProgressQueueEnqueue();
    enqueued := true;
  }

  /** ucc_tl_shm_reduce_init: AVG is not supported; otherwise a task is
      taken from the pool (NO_MEMORY if there is none) and gets this
      collective's progress function. */
  method Init(args: CollArgs, userSrc: seq<Byte>, userDst: seq<Byte>, taskAvailable: bool)
    returns (st: Status, task: Option<Task<ReduceStage>>)
    ensures args.op == Avg ==> st == Err(NotSupported)
    ensures args.op != Avg && !taskAvailable ==> st == Err(NoMemory)
    ensures st == Ok <==> args.op != Avg && taskAvailable
    ensures st != Ok ==> task.None?
    ensures st == Ok ==>
              && task.Some? && fresh(task.value) && task.value.args == args
              && task.value.progress == Some(ReduceProgress)
  {
    if args.op == Avg {
      return Err(NotSupported), None;
    }
    if !taskAvailable {
      return Err(NoMemory), None;
    }
    var t := new Task(args, RedStart, userSrc, userDst);
    t.progress := Some(ReduceProgress);
    return Ok, Some(t);
  }
}
