/** Types of the shared-memory transport layer: sequence numbers, status codes,
    broadcast strategies, control records, trees, cache keys, performance
    parameters and the shared segment itself (src/components/tl/shm/tl_shm.h). */
module TlShm {

  datatype Option<+T> = None | Some(value: T)

  /** ucc_tl_shm_sn_t is uint64_t: all sequence arithmetic wraps modulo 2^64. */
  const SN_MOD: int := 0x1_0000_0000_0000_0000
  type Sn = x: int | 0 <= x < SN_MOD

  /** uint32_t, the width bcast.c uses for its local copy of the sequence number. */
  const U32_MOD: int := 0x1_0000_0000

  type Byte = x: int | 0 <= x < 256

  /** ucc_rank_t; UCC_RANK_INVALID is modelled as None where it can occur. */
  type Rank = nat

  /** `seq_num++` on an unsigned 64-bit counter. */
  function SnInc(s: Sn): Sn { (s + 1) % SN_MOD }

  /** `seq_num - 1` on an unsigned 64-bit counter. */
  function SnDec(s: Sn): Sn { (s + SN_MOD - 1) % SN_MOD }

  /** `uint32_t seq_num = task->seq_num`. */
  function Trunc32(s: Sn): (r: nat)
    ensures r < U32_MOD
    ensures s < U32_MOD ==> r == s
  {
    s % U32_MOD
  }

  /** The rewind that ends an allreduce or a barrier undoes the bump between
      its two halves, also across the 2^64 wrap-around. */
  lemma SnRewindUndoesBump(s: Sn)
    ensures SnDec(SnInc(s)) == s
    ensures SnInc(SnDec(s)) == s
    ensures SnInc(s) != s
  {
    if s == SN_MOD - 1 {
      assert SnInc(s) == 0;
    } else {
      assert SnInc(s) == s + 1;
    }
    if s == 0 {
      assert SnDec(s) == SN_MOD - 1;
    }
  }

  /** ucc_status_t, restricted to the codes the core produces or propagates. */
  datatype ErrCode = NoMemory | NotSupported | InvalidParam | NoMessage | Failed(code: int)
  datatype Status = Ok | InProgress | Err(code: ErrCode)

  /** The four broadcast progress strategies; the first letter is the top
      level (leaders tree), the second the base level (group tree), W = the
      parent writes into its children (push), R = each child reads from its
      parent (pull). */
  datatype BcastAlg = WW | WR | RR | RW

  /** BCAST_LAST: one past the last strategy, a bound and not a strategy. */
  const BCAST_LAST: nat := 4

  function AlgIndex(a: BcastAlg): (i: nat)
    ensures i < BCAST_LAST
  {
    match a
    case WW => 0
    case WR => 1
    case RR => 2
    case RW => 3
  }

  function AlgOfIndex(i: nat): (r: Option<BcastAlg>)
    ensures r.Some? <==> i < BCAST_LAST
  {
    if i == 0 then Some(WW)
    else if i == 1 then Some(WR)
    else if i == 2 then Some(RR)
    else if i == 3 then Some(RW)
    else None
  }

  /** The enum values and the strategies are in one-to-one correspondence
      below BCAST_LAST. */
  lemma AlgIndexRoundTrip(a: BcastAlg, i: nat)
    ensures AlgOfIndex(AlgIndex(a)) == Some(a)
    ensures i < BCAST_LAST ==> AlgIndex(AlgOfIndex(i).value) == i
  {
  }

  /** The top-level broadcast pushes (allreduce.c:83). */
  predicate TopWrites(a: BcastAlg) { a == WW || a == WR }

  /** The base-level broadcast pushes (allreduce.c:96). */
  predicate BaseWrites(a: BcastAlg) { a == WW || a == RW }

  function AlgOfDirections(topWrites: bool, baseWrites: bool): BcastAlg
  {
    if topWrites then (if baseWrites then WW else WR)
    else (if baseWrites then RW else RR)
  }

  /** A strategy is exactly a choice of direction per level. */
  lemma AlgIsDirectionPair(a: BcastAlg, top: bool, base: bool)
    ensures AlgOfDirections(TopWrites(a), BaseWrites(a)) == a
    ensures TopWrites(AlgOfDirections(top, base)) == top
    ensures BaseWrites(AlgOfDirections(top, base)) == base
  {
  }

  /** ucc_coll_type_t. */
  datatype CollType =
    | Allgather | Allgatherv | Allreduce | Alltoall | Alltoallv | Barrier
    | Bcast | Fanin | Fanout | Gather | Gatherv | Reduce | ReduceScatter
    | ReduceScatterv | Scatter | Scatterv

  /** UCC_TL_SHM_SUPPORTED_COLLS, a mask modelled as a set. */
  predicate Supported(c: CollType)
  {
    c in {Bcast, Reduce, Barrier, Fanin, Fanout, Allreduce}
  }

  /** ucc_reduction_op_t; only AVG is treated specially by this layer. */
  datatype ReduceOp = Sum | Prod | Max | Min | Avg | OtherOp(code: nat)

  /** The four counters of ucc_tl_shm_ctrl_t. Its trailing inline data area
      is kept in Segment.inlineData. */
  datatype Ctrl = Ctrl(pi: Sn, pi2: Sn, ci: Sn, rr: Sn)

  /** ucc_kn_tree_t as seen from one rank. */
  datatype KnTree = KnTree(parent: Option<Rank>, children: seq<Rank>, radix: nat)

  /** ucc_tl_shm_tree_t: each half may be absent independently. */
  datatype ShmTree = ShmTree(base: Option<KnTree>, top: Option<KnTree>)

  /** ucc_tl_shm_tree_cache_key_t. */
  datatype TreeCacheKey = TreeCacheKey(baseRadix: Rank, topRadix: Rank, root: Rank,
                                       collType: CollType, baseTreeOnly: int)

  /** ucc_tl_shm_perf_params_t. */
  datatype PerfParams = PerfParams(baseTreeOnly: int, baseRadix: Rank, topRadix: Rank)

  datatype SegLayout = Contig | Socket | Mixed
  datatype GroupMode = ByNuma | BySocket | ByAuto

  /** The fields of ucc_tl_shm_lib_config_t this core reads. */
  datatype LibConfig = LibConfig(
    maxConcurrent: nat, dataSize: nat, ctrlSize: nat,
    bcastBaseRadix: nat, bcastTopRadix: nat,
    reduceBaseRadix: nat, reduceTopRadix: nat,
    faninBaseRadix: nat, faninTopRadix: nat,
    fanoutBaseRadix: nat, fanoutTopRadix: nat,
    barrierBaseRadix: nat, barrierTopRadix: nat,
    maxTreesCached: nat, nPolls: nat, baseTreeOnly: int, setPerfParams: nat,
    layout: SegLayout, bcastAlg: BcastAlg, groupMode: GroupMode)

  /** The buffers a data movement can name: the user's source and
      destination (as the task's args point to them) and, per rank, the inline
      area of its control record or its data block. */
  datatype Buf = UserSrc | UserDst | InlineOf(r: Rank) | BlockOf(r: Rank)

  /** The region of a rank's shm a payload of this size lives in. */
  function ShmBuf(r: Rank, isInline: bool): Buf
  {
    if isInline then InlineOf(r) else BlockOf(r)
  }

  /** Calls into code outside the model and writes of shared counters, in the
      order the rank performs them. */
  datatype Event =
    | Copied(dst: Buf, src: Buf, n: nat)
    | PiStored(r: Rank, pi: Sn)
    | CiStored(r: Rank, ci: Sn)
    | ChildrenCopied(tree: KnTree, seqNum: nat, isInline: bool, from: Buf, n: nat)
    | ChildrenSignalled(tree: KnTree, seqNum: nat)
    | FaninSignalled(tree: KnTree)
    | FanoutSignalled(tree: KnTree)
    | SegReadyChecked
    | ReducePosted(dst: Buf, srcs: seq<Buf>)

  /** ucc_tl_shm_seg_t: one control record and one data block per team rank. */
  class Segment {
    const nRanks: nat
    const maxInline: nat
    const blockSize: nat
    var ctrl: seq<Ctrl>
    var inlineData: seq<seq<Byte>>
    var data: seq<seq<Byte>>
    ghost var trace: seq<Event>

    ghost predicate Valid()
      reads this
    {
      && |ctrl| == nRanks && |inlineData| == nRanks && |data| == nRanks
      && (forall r | 0 <= r < nRanks :: |inlineData[r]| == maxInline)
      && (forall r | 0 <= r < nRanks :: |data[r]| == blockSize)
    }

    constructor (n: nat, maxInline: nat, blockSize: nat)
      ensures Valid() && nRanks == n && this.maxInline == maxInline && this.blockSize == blockSize
      ensures trace == []
      ensures forall r | 0 <= r < n :: ctrl[r] == Ctrl(0, 0, 0, 0)
    {
      nRanks, this.maxInline, this.blockSize := n, maxInline, blockSize;
      ctrl := seq(n, _ => Ctrl(0, 0, 0, 0));
      inlineData := seq(n, _ => seq(maxInline, _ => 0));
      data := seq(n, _ => seq(blockSize, _ => 0));
      trace := [];
    }
  }

  /** A collective's arguments (ucc_coll_args_t), as far as this layer reads them. */
  datatype CollArgs = CollArgs(root: Rank, srcCount: nat, dstCount: nat, dtSize: nat,
                               op: ReduceOp, inPlace: bool, persistent: bool)

  /** The progress functions a task can carry. */
  datatype ProgressFn = BcastWrProgress | ReduceProgress | AllreduceProgress
                      | BarrierProgress | FanoutProgress

  /** ucc_ee_executor_t: the external reduction engine, an opaque handle. */
  class Executor {
    constructor () { }
  }

  /** ucc_tl_shm_task_t, generic in the stage enum of its collective. */
  class Task<S> {
    const args: CollArgs
    var stage: S
    var seqNum: Sn
    var curChild: nat
    var firstReduce: bool
    var status: Status
    /** Set once `args->src.info.buffer = args->dst.info.buffer` has run:
        from then on the source names the destination's storage. */
    var srcIsDst: bool
    var userSrc: seq<Byte>
    var userDst: seq<Byte>
    var tree: ShmTree
    var progressAlg: BcastAlg
    var segIndex: nat
    var progress: Option<ProgressFn>
    var executor: Option<Executor>
    /** task->root, the rank allreduce treats as the op root. */
    var root: Rank
    var segReadySeqNum: Sn
    /** task->allreduce.reduce_tree and task->allreduce.bcast_tree. */
    var reduceTree: ShmTree
    var bcastTree: ShmTree

    constructor (args: CollArgs, stage: S, userSrc: seq<Byte>, userDst: seq<Byte>)
      ensures this.args == args && this.stage == stage
      ensures this.userSrc == userSrc && this.userDst == userDst
      ensures !srcIsDst && curChild == 0 && firstReduce && status == InProgress
      ensures progress == None && executor == None
    {
      this.args, this.stage := args, stage;
      this.userSrc, this.userDst := userSrc, userDst;
      srcIsDst, curChild, firstReduce, status := false, 0, true, InProgress;
      seqNum, tree, progressAlg, segIndex, progress := 0, ShmTree(None, None), WW, 0, None;
      executor, root, segReadySeqNum := None, 0, 0;
      reduceTree, bcastTree := ShmTree(None, None), ShmTree(None, None);
    }
  }

  /** A subgroup (ucc_sbgp_t): its size, its member map, this rank's index
      in it, and whether this rank belongs to it. */
  datatype Sbgp = Sbgp(groupSize: nat, members: seq<Rank>, groupRank: Rank, enabled: bool)

  /** ucc_tl_shm_team_t, as far as this core reads or updates it. */
  class Team {
    const rank: Rank
    const size: nat
    const cfg: LibConfig
    const nConcurrent: nat
    const segs: seq<Segment>
    const myGroupId: nat
    const baseGroups: seq<Sbgp>
    const leaders: Sbgp
    const rankGroupId: seq<nat>
    const groupRankMap: seq<Rank>
    var seqNum: Sn
    var treeCache: seq<(TreeCacheKey, ShmTree)>

    ghost predicate Valid()
      reads this
    {
      && rank < size && |rankGroupId| == size && |groupRankMap| == size
      && 0 < nConcurrent == |segs|
      && myGroupId < |baseGroups|
      && |baseGroups[myGroupId].members| == baseGroups[myGroupId].groupSize
      && |leaders.members| == leaders.groupSize
      && (forall i | 0 <= i < |leaders.members| :: leaders.members[i] < size)
      && (forall i | 0 <= i < |baseGroups[myGroupId].members| :: baseGroups[myGroupId].members[i] < size)
    }

    constructor (rank: Rank, size: nat, cfg: LibConfig, segs: seq<Segment>, myGroupId: nat,
                 baseGroups: seq<Sbgp>, leaders: Sbgp, rankGroupId: seq<nat>, groupRankMap: seq<Rank>)
      ensures this.rank == rank && this.size == size && this.cfg == cfg && this.segs == segs
      ensures nConcurrent == |segs| && this.myGroupId == myGroupId && this.baseGroups == baseGroups
      ensures this.leaders == leaders && this.rankGroupId == rankGroupId
      ensures this.groupRankMap == groupRankMap && seqNum == 0 && treeCache == []
    {
      this.rank, this.size, this.cfg, this.segs := rank, size, cfg, segs;
      nConcurrent := |segs|;
      this.myGroupId, this.baseGroups, this.leaders := myGroupId, baseGroups, leaders;
      this.rankGroupId, this.groupRankMap := rankGroupId, groupRankMap;
      seqNum, treeCache := 0, [];
    }
  }
}
