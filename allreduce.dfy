/** Allreduce as a reduction to rank 0 followed by a broadcast from it, over
    two tree pairs (src/components/tl/shm/allreduce/allreduce.c): the stage
    machine, start and init. The `goto next_stage` back to the switch is the
    loop of RunStages and one pass through the switch is Step; after the
    switch come the copy-out and the waits for the children's completion. */
module Allreduce {
  import opened TlShm
  import opened ShmCommon
  import Reduce
  import Bcast

  datatype AllreduceStage =
    | ArStart | BaseTreeReduce | TopTreeReduce | BaseTreeBcast | TopTreeBcast | BcastBaseCi | BcastTopCi

  /** The stages of the reduction half, run with the START sequence number. */
  predicate IsReduceStage(s: AllreduceStage)
  {
    s == ArStart || s == BaseTreeReduce || s == TopTreeReduce
  }

  /** The stages saved while waiting for children to finish reading. */
  predicate IsCiStage(s: AllreduceStage)
  {
    s == BcastBaseCi || s == BcastTopCi
  }

  /** What a stage of the switch does: the segment check, a reduction over
      one level of the reduce tree (`isBase` for its base level), or a
      broadcast over one level by push (write) or pull (read). */
  datatype Action = SegCheck | ReduceLevel(tree: KnTree, isBase: bool) | WriteLevel(tree: KnTree) | ReadLevel(tree: KnTree)

  /** The bcast tree has the levels the switch moves to: the top level
      after a top-level reduction, the base level after a base-only one. */
  predicate TreesLinked(rt: ShmTree, bt: ShmTree)
  {
    && (rt.base.Some? || rt.top.Some?)
    && (rt.top.Some? ==> bt.top.Some?)
    && (rt.top.None? ==> bt.base.Some?)
  }

  /** The tree level the stage dereferences exists. */
  predicate StageHasTree(rt: ShmTree, bt: ShmTree, s: AllreduceStage)
  {
    match s
    case ArStart => rt.base.Some? || rt.top.Some?
    case BaseTreeReduce => rt.base.Some?
    case TopTreeReduce => rt.top.Some?
    case TopTreeBcast => bt.top.Some?
    case BaseTreeBcast => bt.base.Some?
    case BcastTopCi => bt.top.Some?
    case BcastBaseCi => bt.base.Some?
  }

  /** The switch's order: the stage after `s` once its call returned OK, or
      None where it breaks out to the copy-out. */
  function NextStage(rt: ShmTree, bt: ShmTree, s: AllreduceStage): Option<AllreduceStage>
  {
    match s
    case ArStart => Some(if rt.base.Some? then BaseTreeReduce else TopTreeReduce)
    case BaseTreeReduce => Some(if rt.top.Some? then TopTreeReduce else BaseTreeBcast)
    case TopTreeReduce => Some(TopTreeBcast)
    case TopTreeBcast => if bt.base.Some? then Some(BaseTreeBcast) else None
    case BaseTreeBcast => None
    case BcastTopCi => None
    case BcastBaseCi => None
  }

  function StagesLeft(s: AllreduceStage): nat
  {
    match s
    case ArStart => 4
    case BaseTreeReduce => 3
    case TopTreeReduce => 2
    case TopTreeBcast => 1
    case BaseTreeBcast => 0
    case BcastTopCi => 0
    case BcastBaseCi => 0
  }

  /** The sequence number a stage runs with: the START value while
      reducing, one more from the broadcast on. */
  function SeqAt(s0: Sn, s: AllreduceStage): Sn
  {
    if IsReduceStage(s) then s0 else SnInc(s0)
  }

  /** allreduce.c:83-89: the top level is pushed for WW and WR, pulled
      otherwise. */
  function TopAction(alg: BcastAlg, t: KnTree): Action
  {
    if alg == WW || alg == WR then WriteLevel(t) else ReadLevel(t)
  }

  /** allreduce.c:96-102: the base level is pushed for WW and RW, pulled
      otherwise. */
  function BaseAction(alg: BcastAlg, t: KnTree): Action
  {
    if alg == WW || alg == RW then WriteLevel(t) else ReadLevel(t)
  }

  function StageAction(alg: BcastAlg, rt: ShmTree, bt: ShmTree, s: AllreduceStage): Action
    requires StageHasTree(rt, bt, s) && !IsCiStage(s)
  {
    match s
    case ArStart => SegCheck
    case BaseTreeReduce => ReduceLevel(rt.base.value, true)
    case TopTreeReduce => ReduceLevel(rt.top.value, false)
    case TopTreeBcast => TopAction(alg, bt.top.value)
    case BaseTreeBcast => BaseAction(alg, bt.base.value)
  }

  /** Following the switch's order from `s`, every stage has its tree, and
      the run reaches `e`. */
  predicate Reaches(rt: ShmTree, bt: ShmTree, s: AllreduceStage, e: AllreduceStage)
    decreases StagesLeft(s)
  {
    && StageHasTree(rt, bt, s) && !IsCiStage(s)
    && (s == e || (NextStage(rt, bt, s).Some? && StagesLeft(NextStage(rt, bt, s).value) < StagesLeft(s)
                   && Reaches(rt, bt, NextStage(rt, bt, s).value, e)))
  }

  /** The actions of the stages from `s` up to, not including, `e`. */
  function ActionsBefore(alg: BcastAlg, rt: ShmTree, bt: ShmTree, s: AllreduceStage, e: AllreduceStage)
    : seq<Action>
    requires Reaches(rt, bt, s, e)
    decreases StagesLeft(s)
  {
    if s == e then [] else [StageAction(alg, rt, bt, s)] + ActionsBefore(alg, rt, bt, NextStage(rt, bt, s).value, e)
  }

  /** Moving on from `e` extends the run by the action of `e`. */
  lemma {:induction false} ReachesNext(alg: BcastAlg, rt: ShmTree, bt: ShmTree, s: AllreduceStage,
                                       e: AllreduceStage, n: AllreduceStage)
    requires TreesLinked(rt, bt) && Reaches(rt, bt, s, e) && NextStage(rt, bt, e) == Some(n)
    ensures Reaches(rt, bt, s, n)
    ensures ActionsBefore(alg, rt, bt, s, n) == ActionsBefore(alg, rt, bt, s, e) + [StageAction(alg, rt, bt, e)]
    decreases StagesLeft(s)
  {
    if s == e {
      assert Reaches(rt, bt, n, n);
    } else {
      ReachesNext(alg, rt, bt, NextStage(rt, bt, s).value, e, n);
    }
  }

  /** A run of the switch from `s` that ended in `e` took the actions
      `acts`: those of the stages before `e`, then that of `e`. */
  predicate Ran(alg: BcastAlg, rt: ShmTree, bt: ShmTree, s: AllreduceStage, e: AllreduceStage, acts: seq<Action>)
  {
    Reaches(rt, bt, s, e) && acts == ActionsBefore(alg, rt, bt, s, e) + [StageAction(alg, rt, bt, e)]
  }

  /** Every action of a complete switch run, in order: the segment check,
      the reduction over the base then the top level, then the broadcast
      over the top level (after a top-level reduction) and the base level,
      each level only where it exists. */
  function AllreduceActions(alg: BcastAlg, rt: ShmTree, bt: ShmTree): seq<Action>
    requires TreesLinked(rt, bt)
  {
    [SegCheck] + ReduceActions(rt) + BcastActions(alg, rt, bt)
  }

  /** The reduction half: the base level, then the top level. */
  function ReduceActions(rt: ShmTree): seq<Action>
  {
    (if rt.base.Some? then [ReduceLevel(rt.base.value, true)] else [])
    + (if rt.top.Some? then [ReduceLevel(rt.top.value, false)] else [])
  }

  /** The broadcast half: the top level after a top-level reduction, and
      the base level where the bcast tree has one. */
  function BcastActions(alg: BcastAlg, rt: ShmTree, bt: ShmTree): seq<Action>
    requires TreesLinked(rt, bt)
  {
    if rt.top.Some?
    then [TopAction(alg, bt.top.value)] + (if bt.base.Some? then [BaseAction(alg, bt.base.value)] else [])
    else [BaseAction(alg, bt.base.value)]
  }

  /** A run from START that broke out of the switch made exactly the
      actions of AllreduceActions. */
  lemma CompleteRun(alg: BcastAlg, rt: ShmTree, bt: ShmTree, e: AllreduceStage)
    requires TreesLinked(rt, bt) && Reaches(rt, bt, ArStart, e) && NextStage(rt, bt, e).None?
    ensures e == (if rt.top.Some? && bt.base.None? then TopTreeBcast else BaseTreeBcast)
    ensures ActionsBefore(alg, rt, bt, ArStart, e) + [StageAction(alg, rt, bt, e)] == AllreduceActions(alg, rt, bt)
  {
    var first := if rt.base.Some? then BaseTreeReduce else TopTreeReduce;
    assert Reaches(rt, bt, first, e);
    if rt.top.Some? {
      if rt.base.Some? {
        assert Reaches(rt, bt, TopTreeReduce, e);
      }
      TopRunTail(alg, rt, bt, e);
    } else {
      assert Reaches(rt, bt, BaseTreeBcast, e);
    }
  }

  /** The part of a complete run from the top-level reduction on. */
  lemma TopRunTail(alg: BcastAlg, rt: ShmTree, bt: ShmTree, e: AllreduceStage)
    requires TreesLinked(rt, bt) && rt.top.Some? && Reaches(rt, bt, TopTreeReduce, e) && NextStage(rt, bt, e).None?
    ensures e == (if bt.base.Some? then BaseTreeBcast else TopTreeBcast)
    ensures ActionsBefore(alg, rt, bt, TopTreeReduce, e) + [StageAction(alg, rt, bt, e)]
            == [ReduceLevel(rt.top.value, false)] + BcastActions(alg, rt, bt)
  {
    assert Reaches(rt, bt, TopTreeBcast, e);
    if bt.base.Some? {
      assert Reaches(rt, bt, BaseTreeBcast, e);
    }
  }

  /** The sequence number changes on exactly one transition of the switch,
      from the last reduction level to the first broadcast level, and there
      by one. */
  lemma {:induction false} OneBumpPerRun(rt: ShmTree, bt: ShmTree, s0: Sn, s: AllreduceStage)
    requires NextStage(rt, bt, s).Some?
    ensures var n := NextStage(rt, bt, s).value;
            && (SeqAt(s0, s) != SeqAt(s0, n) <==> IsReduceStage(s) && !IsReduceStage(n))
            && (SeqAt(s0, s) != SeqAt(s0, n) ==> SeqAt(s0, n) == SnInc(SeqAt(s0, s)))
  {
    SnRewindUndoesBump(s0);
  }

  // ---- what the stages record ----

  /** What the records of an action depend on besides the action: this
      rank, the arguments, the reduce tree, the START sequence number, where
      the payload lives, whether this rank is the op root, and the payload
      size. */
  datatype Ctx = Ctx(me: Rank, args: CollArgs, rt: ShmTree, s0: Sn, isInline: bool, isOpRoot: bool, n: nat)

  /** A reduction entered at cur_child c0 reads a k-nomial level with at
      least c0 children. */
  predicate ActionWf(act: Action, c0: nat)
  {
    act.ReduceLevel? ==> Reduce.RadixOk(act.tree) && c0 <= |act.tree.children|
  }

  /** What an action records when its call returns OK, entered with
      first_reduce `first` and cur_child c0: the segment check; the level's
      reduce_read with the START sequence number, a leaf copying its source
      into its shm on the base level or when there is no base level; the
      level's bcast_write or bcast_read with the bumped sequence number. */
  ghost function ActionEvents(c: Ctx, act: Action, first: bool, c0: nat): seq<Event>
    requires ActionWf(act, c0)
  {
    match act
    case SegCheck => [SegReadyChecked]
    case ReduceLevel(t, isBase) =>
      Reduce.LevelEvents(c.args, c.me, t, c.isInline, isBase || c.rt.base.None?, first, c0, c.s0, c.n)
    case WriteLevel(t) => Bcast.WriteEvents(c.me, t, SnInc(c.s0), c.isInline, c.isOpRoot, c.n)
    case ReadLevel(t) => Bcast.ReadEvents(c.me, t, SnInc(c.s0), c.isInline, c.n)
  }

  /** first_reduce once an action returned OK. */
  function ActionFirst(act: Action, first: bool, c0: nat): bool
  {
    if act.ReduceLevel? then Reduce.FirstAfter(act.tree, first, c0) else first
  }

  /** The cur_child the next action of a run is entered at: the saved one
      for the first action, 0 once a stage has completed. */
  function C0At(acts: seq<Action>, c0: nat): nat
  {
    if acts == [] then c0 else 0
  }

  /** Every action of a run is well formed where the run enters it. */
  predicate ActsWf(acts: seq<Action>, c0: nat)
    decreases |acts|
  {
    acts == [] || (ActsWf(acts[..|acts| - 1], c0) && ActionWf(acts[|acts| - 1], C0At(acts[..|acts| - 1], c0)))
  }

  /** What a run of actions records when every call returns OK, the first
      entered with first_reduce `first` and cur_child c0: the records of
      all but the last, then the last's, entered where they leave off. */
  ghost function ActsEvents(c: Ctx, acts: seq<Action>, first: bool, c0: nat): seq<Event>
    requires ActsWf(acts, c0)
    decreases |acts|
  {
    if acts == [] then []
    else
      var pre := acts[..|acts| - 1];
      ActsEvents(c, pre, first, c0) + ActionEvents(c, acts[|acts| - 1], ActsFirst(pre, first, c0), C0At(pre, c0))
  }

  /** first_reduce after a run of actions. */
  function ActsFirst(acts: seq<Action>, first: bool, c0: nat): bool
    decreases |acts|
  {
    if acts == [] then first
    else
      var pre := acts[..|acts| - 1];
      ActionFirst(acts[|acts| - 1], ActsFirst(pre, first, c0), C0At(pre, c0))
  }

  /** Only a reduction depends on the cur_child it is entered at. */
  lemma OnlyReductionsUseCurChild(c: Ctx, a: Action, first: bool, k: nat, k2: nat)
    requires !a.ReduceLevel?
    ensures ActionWf(a, k) && ActionWf(a, k2)
    ensures ActionEvents(c, a, first, k) == ActionEvents(c, a, first, k2)
    ensures ActionFirst(a, first, k) == ActionFirst(a, first, k2)
  {
  }

  /** One more action extends a run's records by that action's, entered
      with the first_reduce the run left; only a reduction depends on the
      cur_child it is entered at. */
  lemma AppendAction(c: Ctx, acts: seq<Action>, a: Action, first: bool, c0: nat, k: nat)
    requires ActsWf(acts, c0) && ActionWf(a, k) && (a.ReduceLevel? ==> k == C0At(acts, c0))
    ensures ActsWf(acts + [a], c0)
    ensures ActsEvents(c, acts + [a], first, c0)
              == ActsEvents(c, acts, first, c0) + ActionEvents(c, a, ActsFirst(acts, first, c0), k)
    ensures ActsFirst(acts + [a], first, c0) == ActionFirst(a, ActsFirst(acts, first, c0), k)
  {
    var k1 := C0At(acts, c0);
    if !a.ReduceLevel? {
      OnlyReductionsUseCurChild(c, a, ActsFirst(acts, first, c0), k, k1);
    }
    var w := acts + [a];
    assert w[..|w| - 1] == acts && w[|w| - 1] == a;
  }

  /** A broadcast level records the copy to its children exactly when the
      strategy pushes it (the first letter names the top level, the second
      the base level), once, for that level and stamped with the 32-bit
      copy of the bumped sequence number. Either way it writes no buffer
      but this rank's own shm and posts no reduction and no pi or ci. */
  lemma BcastLevelRecords(c: Ctx, alg: BcastAlg, t: KnTree, isTop: bool, first: bool, c0: nat)
    ensures var act := if isTop then TopAction(alg, t) else BaseAction(alg, t);
            var pushed := if isTop then TopWrites(alg) else BaseWrites(alg);
            var e := ActionEvents(c, act, first, c0);
            && ((exists i | 0 <= i < |e| :: e[i].ChildrenCopied?) <==> pushed)
            && (pushed ==> |e| == 1 && e[0].tree == t && e[0].seqNum == Trunc32(SnInc(c.s0)) && e[0].n == c.n)
            && (forall i | 0 <= i < |e| && e[i].Copied? :: e[i].dst == ShmBuf(c.me, c.isInline))
            && (forall i | 0 <= i < |e| :: !e[i].ReducePosted? && !e[i].PiStored? && !e[i].CiStored?)
  {
    var act := if isTop then TopAction(alg, t) else BaseAction(alg, t);
    var e := ActionEvents(c, act, first, c0);
    if act.WriteLevel? {
      assert e == Bcast.WriteEvents(c.me, t, SnInc(c.s0), c.isInline, c.isOpRoot, c.n);
      assert e[0].ChildrenCopied?;
    } else {
      assert e == Bcast.ReadEvents(c.me, t, SnInc(c.s0), c.isInline, c.n);
      assert forall i | 0 <= i < |e| :: !e[i].ChildrenCopied?;
    }
  }

  /** A broadcast level appended to a run adds records that fold nothing and
      leaves first_reduce. */
  lemma BcastLevelAppends(c: Ctx, pre: seq<Action>, x: Action, first: bool)
    requires ActsWf(pre, 0) && (x.WriteLevel? || x.ReadLevel?)
    ensures ActsWf(pre + [x], 0)
    ensures ActsEvents(c, pre + [x], first, 0) == ActsEvents(c, pre, first, 0) + ActionEvents(c, x, ActsFirst(pre, first, 0), 0)
    ensures Reduce.Folded(ActsEvents(c, pre + [x], first, 0)) == Reduce.Folded(ActsEvents(c, pre, first, 0))
    ensures ActsFirst(pre + [x], first, 0) == ActsFirst(pre, first, 0)
  {
    var f := ActsFirst(pre, first, 0);
    AppendAction(c, pre, x, first, 0, 0);
    var ex := ActionEvents(c, x, f, 0);
    if x.WriteLevel? {
      assert ex == Bcast.WriteEvents(c.me, x.tree, SnInc(c.s0), c.isInline, c.isOpRoot, c.n);
    } else {
      assert ex == Bcast.ReadEvents(c.me, x.tree, SnInc(c.s0), c.isInline, c.n);
    }
    Reduce.FoldedNone(ex);
    Reduce.FoldedAppend(ActsEvents(c, pre, first, 0), ex);
  }

  /** The broadcast half adds records after the run before it and folds
      nothing. */
  lemma BcastHalfFoldsNothing(c: Ctx, alg: BcastAlg, rt: ShmTree, bt: ShmTree, pre: seq<Action>, first: bool)
    requires TreesLinked(rt, bt) && ActsWf(pre, 0)
    ensures ActsWf(pre + BcastActions(alg, rt, bt), 0)
    ensures var e0 := ActsEvents(c, pre, first, 0);
            var e := ActsEvents(c, pre + BcastActions(alg, rt, bt), first, 0);
            && |e0| <= |e| && e[..|e0|] == e0 && Reduce.Folded(e) == Reduce.Folded(e0)
  {
    var x := if rt.top.Some? then TopAction(alg, bt.top.value) else BaseAction(alg, bt.base.value);
    if rt.top.Some? && bt.base.Some? {
      TwoBcastLevels(c, pre, x, BaseAction(alg, bt.base.value), first);
      assert pre + BcastActions(alg, rt, bt) == pre + [x] + [BaseAction(alg, bt.base.value)];
    } else {
      BcastLevelAppends(c, pre, x, first);
      var e0 := ActsEvents(c, pre, first, 0);
      assert (e0 + ActionEvents(c, x, ActsFirst(pre, first, 0), 0))[..|e0|] == e0;
      assert pre + BcastActions(alg, rt, bt) == pre + [x];
    }
  }

  lemma TwoBcastLevels(c: Ctx, pre: seq<Action>, x: Action, y: Action, first: bool)
    requires ActsWf(pre, 0) && (x.WriteLevel? || x.ReadLevel?) && (y.WriteLevel? || y.ReadLevel?)
    ensures ActsWf(pre + [x] + [y], 0)
    ensures var e0 := ActsEvents(c, pre, first, 0);
            var e := ActsEvents(c, pre + [x] + [y], first, 0);
            && |e0| <= |e| && e[..|e0|] == e0 && Reduce.Folded(e) == Reduce.Folded(e0)
  {
    BcastLevelAppends(c, pre, x, first);
    BcastLevelAppends(c, pre + [x], y, first);
    var e0 := ActsEvents(c, pre, first, 0);
    var f := ActsFirst(pre, first, 0);
    var ex, ey := ActionEvents(c, x, f, 0), ActionEvents(c, y, f, 0);
    assert ActsEvents(c, pre + [x] + [y], first, 0) == e0 + ex + ey;
    assert (e0 + ex + ey)[..|e0|] == e0;
  }

  /** The segment check is recorded first. */
  lemma SegCheckFirst(c: Ctx)
    ensures ActsWf([SegCheck], 0) && ActsEvents(c, [SegCheck], true, 0) == [SegReadyChecked]
    ensures ActsFirst([SegCheck], true, 0) == true && C0At([SegCheck], 0) == 0
  {
    AppendAction(c, [], SegCheck, true, 0, 0);
    assert [] + [SegCheck] == [SegCheck];
  }

  /** After the segment check, one reduction level. */
  lemma OneLevelHalf(c: Ctx, t: KnTree, isBase: bool)
    requires Reduce.RadixOk(t)
    ensures ActsWf([SegCheck, ReduceLevel(t, isBase)], 0)
    ensures ActsEvents(c, [SegCheck, ReduceLevel(t, isBase)], true, 0)
              == [SegReadyChecked] + Reduce.LevelEvents(c.args, c.me, t, c.isInline, isBase || c.rt.base.None?, true, 0, c.s0, c.n)
    ensures ActsFirst([SegCheck, ReduceLevel(t, isBase)], true, 0) == Reduce.FirstAfter(t, true, 0)
  {
    SegCheckFirst(c);
    AppendAction(c, [SegCheck], ReduceLevel(t, isBase), true, 0, 0);
    assert [SegCheck] + [ReduceLevel(t, isBase)] == [SegCheck, ReduceLevel(t, isBase)];
  }

  /** After the segment check, the base level then the top level. */
  lemma TwoLevelHalf(c: Ctx, b: KnTree, t: KnTree)
    requires Reduce.RadixOk(b) && Reduce.RadixOk(t)
    ensures ActsWf([SegCheck, ReduceLevel(b, true), ReduceLevel(t, false)], 0)
    ensures ActsEvents(c, [SegCheck, ReduceLevel(b, true), ReduceLevel(t, false)], true, 0)
              == [SegReadyChecked]
                 + (Reduce.LevelEvents(c.args, c.me, b, c.isInline, true, true, 0, c.s0, c.n)
                    + Reduce.LevelEvents(c.args, c.me, t, c.isInline, c.rt.base.None?, Reduce.FirstAfter(b, true, 0), 0, c.s0, c.n))
  {
    var two := [SegCheck, ReduceLevel(b, true)];
    OneLevelHalf(c, b, true);
    AppendAction(c, two, ReduceLevel(t, false), true, 0, 0);
    assert two + [ReduceLevel(t, false)] == [SegCheck, ReduceLevel(b, true), ReduceLevel(t, false)];
    var e1 := [SegReadyChecked];
    var lb := Reduce.LevelEvents(c.args, c.me, b, c.isInline, true, true, 0, c.s0, c.n);
    var lt := Reduce.LevelEvents(c.args, c.me, t, c.isInline, c.rt.base.None?, Reduce.FirstAfter(b, true, 0), 0, c.s0, c.n);
    assert e1 + lb + lt == e1 + (lb + lt);
  }

  /** The reduction half records exactly what reduce_progress records from
      its START. */
  lemma ReduceHalfRecords(c: Ctx, rt: ShmTree)
    requires c.rt == rt && Reduce.LevelsWf(rt, Reduce.RedStart, 0)
    ensures ActsWf([SegCheck] + ReduceActions(rt), 0)
    ensures ActsEvents(c, [SegCheck] + ReduceActions(rt), true, 0)
              == Reduce.ReduceEvents(c.args, c.me, rt, Reduce.RedStart, c.isInline, true, 0, c.s0, c.n)
  {
    if rt.base.Some? && rt.top.Some? {
      TwoLevelHalf(c, rt.base.value, rt.top.value);
      assert [SegCheck] + ReduceActions(rt) == [SegCheck, ReduceLevel(rt.base.value, true), ReduceLevel(rt.top.value, false)];
    } else if rt.base.Some? {
      OneLevelHalf(c, rt.base.value, true);
      assert [SegCheck] + ReduceActions(rt) == [SegCheck, ReduceLevel(rt.base.value, true)];
      var lb := Reduce.LevelEvents(c.args, c.me, rt.base.value, c.isInline, true, true, 0, c.s0, c.n);
      assert lb + [] == lb;
    } else {
      OneLevelHalf(c, rt.top.value, false);
      assert [SegCheck] + ReduceActions(rt) == [SegCheck, ReduceLevel(rt.top.value, false)];
    }
  }

  /** A complete run from START records what reduce_progress records from
      its START over the reduce tree (the segment check, then the base and
      the top level's reads), then the broadcast levels'; over the whole
      run every child of the reduce tree's base and then its top level is
      folded in exactly once and in order. */
  lemma AllreduceRunRecords(c: Ctx, alg: BcastAlg, bt: ShmTree)
    requires TreesLinked(c.rt, bt) && Reduce.LevelsWf(c.rt, Reduce.RedStart, 0)
    ensures ActsWf(AllreduceActions(alg, c.rt, bt), 0)
    ensures var e := ActsEvents(c, AllreduceActions(alg, c.rt, bt), true, 0);
            var r := Reduce.ReduceEvents(c.args, c.me, c.rt, Reduce.RedStart, c.isInline, true, 0, c.s0, c.n);
            && |r| <= |e| && e[..|r|] == r
            && Reduce.Folded(e) == Reduce.LevelBufs(c.rt.base, c.isInline) + Reduce.LevelBufs(c.rt.top, c.isInline)
  {
    var red := [SegCheck] + ReduceActions(c.rt);
    ReduceHalfRecords(c, c.rt);
    BcastHalfFoldsNothing(c, alg, c.rt, bt, red, true);
    Reduce.ReductionFoldsEveryChild(c.args, c.me, c.rt, Reduce.RedStart, c.isInline, true, 0, c.s0, c.n);
  }

  // ---- waiting for the children to finish reading (allreduce.c:145-183) ----

  /** allreduce.c:157-158: the top level waits when it was pulled and this
      rank has children there. */
  predicate TopCiWait(alg: BcastAlg, bt: ShmTree)
  {
    bt.top.Some? && |bt.top.value.children| > 0 && (alg == RW || alg == RR)
  }

  /** allreduce.c:171-172: the same for the base level. */
  predicate BaseCiWait(alg: BcastAlg, bt: ShmTree)
  {
    bt.base.Some? && |bt.base.value.children| > 0 && (alg == WR || alg == RR)
  }

  /** A level is waited on exactly when it was broadcast by pull and this
      rank has children there to pull from it. */
  lemma CiWaitOnlyAfterPull(alg: BcastAlg, bt: ShmTree)
    ensures TopCiWait(alg, bt) <==>
              bt.top.Some? && |bt.top.value.children| > 0 && TopAction(alg, bt.top.value).ReadLevel?
    ensures BaseCiWait(alg, bt) <==>
              bt.base.Some? && |bt.base.value.children| > 0 && BaseAction(alg, bt.base.value).ReadLevel?
  {
  }

  /** Every child has completed the collective before this one: its ci is
      at least seq_num - 1, compared unsigned. */
  predicate Consumed(ctrl: seq<Ctrl>, kids: seq<Rank>, s: Sn)
    requires forall i | 0 <= i < |kids| :: kids[i] < |ctrl|
  {
    forall i | 0 <= i < |kids| :: ctrl[kids[i]].ci >= SnDec(s)
  }

  /** allreduce.c:161-167 (and 175-181): the scan of the children's ci,
      giving up at the first child behind. */
  method ChildrenConsumed(seg: Segment, kids: seq<Rank>, seqNum: Sn) returns (pass: bool)
    requires seg.Valid() && forall i | 0 <= i < |kids| :: kids[i] < seg.nRanks
    ensures pass <==> Consumed(seg.ctrl, kids, seqNum)
  {
    var i := 0;
    while i < |kids|
      invariant 0 <= i <= |kids|
      invariant forall j | 0 <= j < i :: seg.ctrl[kids[j]].ci >= SnDec(seqNum)
    {
      if seg.ctrl[kids[i]].ci < SnDec(seqNum) {
        return false;
      }
      i := i + 1;
    }
    return true;
  }

  /** The two waits, entered at the saved stage: from BCAST_TOP_CI the top
      scan and then the base level, from BCAST_BASE_CI only the base scan,
      from the copy-out only the base level. The stage of a scan that gave
      up stays saved. */
  method CiWaits(seg: Segment, task: Task<AllreduceStage>, bt: ShmTree) returns (pass: bool)
    requires seg.Valid() && ShmTreeIn(bt, seg.nRanks)
    requires task.stage == BcastTopCi ==> bt.top.Some?
    requires task.stage == BcastBaseCi ==> bt.base.Some?
    modifies task`stage
    ensures var topScanned := old(task.stage) == BcastTopCi;
            var baseScanned := old(task.stage) == BcastBaseCi || BaseCiWait(task.progressAlg, bt);
            && (pass <==> (topScanned ==> Consumed(seg.ctrl, bt.top.value.children, task.seqNum))
                          && (baseScanned ==> Consumed(seg.ctrl, bt.base.value.children, task.seqNum)))
            && task.stage == (if topScanned && !Consumed(seg.ctrl, bt.top.value.children, task.seqNum)
                              then BcastTopCi
                              else if baseScanned then BcastBaseCi else old(task.stage))
  {
    if task.stage == BcastTopCi {
      pass := ChildrenConsumed(seg, bt.top.value.children, task.seqNum);
      if !pass {
        return;
      }
    }
    if task.stage != BcastBaseCi && BaseCiWait(task.progressAlg, bt) {
      task.stage := BcastBaseCi;
    }
    if task.stage == BcastBaseCi {
      pass := ChildrenConsumed(seg, bt.base.value.children, task.seqNum);
      return;
    }
    pass := true;
  }

  // ---- copy-out (allreduce.c:112-143) ----

  /** Where a rank other than the op root finds the result: its own shm
      after a base level pushed (WW, RW); for RR its base parent's, or,
      without one, its top parent's; for WR its base parent's, or its own
      when it has none. None where the code would read the record of
      UCC_RANK_INVALID or dereference a missing top tree. */
  function CopyOutSource(alg: BcastAlg, bt: ShmTree, me: Rank, isInline: bool): Option<Buf>
  {
    if alg == WW || alg == RW then Some(ShmBuf(me, isInline))
    else if alg == RR then
      if bt.base.Some? && bt.base.value.parent.Some? then Some(ShmBuf(bt.base.value.parent.value, isInline))
      else if bt.top.Some? && bt.top.value.parent.Some? then Some(ShmBuf(bt.top.value.parent.value, isInline))
      else None
    else if bt.base.Some? && bt.base.value.parent.Some? then Some(ShmBuf(bt.base.value.parent.value, isInline))
    else Some(ShmBuf(me, isInline))
  }

  /** The source is this rank's own shm exactly when the base level was
      pushed into it, or the bcast is WR and this rank has no base parent
      to pull from; otherwise it is a parent's shm. */
  lemma CopyOutFromOwnShm(alg: BcastAlg, bt: ShmTree, me: Rank, isInline: bool)
    requires CopyOutSource(alg, bt, me, isInline).Some?
    ensures var src := CopyOutSource(alg, bt, me, isInline).value;
            && (BaseWrites(alg) ==> src == ShmBuf(me, isInline))
            && (alg == WR && (bt.base.None? || bt.base.value.parent.None?) ==> src == ShmBuf(me, isInline))
            && (!BaseWrites(alg) && bt.base.Some? && bt.base.value.parent.Some? ==>
                  src == ShmBuf(bt.base.value.parent.value, isInline))
  {
  }

  /** What the copy-out records: on a rank other than the op root, the copy
      of the result from the buffer CopyOutSource picks into the user's
      destination; nothing on the op root. */
  function ResultCopy(alg: BcastAlg, bt: ShmTree, me: Rank, root: Rank, isInline: bool, n: nat): seq<Event>
  {
    if me != root && CopyOutSource(alg, bt, me, isInline).Some?
    then [Copied(UserDst, CopyOutSource(alg, bt, me, isInline).value, n)]
    else []
  }

  /** The first n bytes of the user destination are those of the buffer
      the copy-out reads. */
  ghost predicate Delivered(task: Task<AllreduceStage>, seg: Segment, alg: BcastAlg, bt: ShmTree, me: Rank,
                            isInline: bool, n: nat)
    reads task`srcIsDst, task`userSrc, task`userDst, seg`inlineData, seg`data
    requires |seg.inlineData| == |seg.data| == seg.nRanks && ShmTreeIn(bt, seg.nRanks) && me < seg.nRanks
    requires CopyOutSource(alg, bt, me, isInline).Some?
  {
    var src := CopyOutSource(alg, bt, me, isInline).value;
    n <= |task.userDst| && n <= |Region(task, seg, src)| && task.userDst[..n] == Region(task, seg, src)[..n]
  }

  /** The copy of the result into the user's destination, from the buffer
      the code picks. */
  method CopyOut(seg: Segment, task: Task<AllreduceStage>, bt: ShmTree, me: Rank, isInline: bool, n: nat)
    requires seg.Valid() && ShmTreeIn(bt, seg.nRanks) && me < seg.nRanks
    requires CopyOutSource(task.progressAlg, bt, me, isInline).Some?
    requires (if isInline then n <= seg.maxInline else n <= seg.blockSize) && n <= |task.userDst|
    modifies task`userSrc, task`userDst, seg`inlineData, seg`data, seg`trace
    ensures seg.Valid() && task.userSrc == old(task.userSrc) && |task.userDst| == |old(task.userDst)|
    ensures var src := CopyOutSource(task.progressAlg, bt, me, isInline).value;
            && task.userDst == old(Region(task, seg, src))[..n] + old(task.userDst)[n..]
            && Region(task, seg, src) == old(Region(task, seg, src))
            && seg.trace == old(seg.trace) + [Copied(UserDst, src, n)]
  {
    var alg := task.progressAlg;
    var src: Buf;
    if alg == WW || alg == RW {
      src := ShmBuf(me, isInline);
    } else {
      var parent: Rank;
      if alg == RR {
        parent := if bt.base.Some? && bt.base.value.parent.Some? then bt.base.value.parent.value
                  else bt.top.value.parent.value;
      } else {
        parent := if bt.base.Some? && bt.base.value.parent.Some? then bt.base.value.parent.value else me;
      }
      src := ShmBuf(parent, isInline);
    }
    Memcpy(task, seg, UserDst, src, n);
  }

  // ---- the switch ----

  /** What allreduce_progress needs of a task saved between calls: the
      stage's tree exists, the sequence number and the tree the task
      points to match the half it is in, the source names the destination
      from the broadcast on, cur_child is within the level being reduced,
      and a saved wait is one the code sets. */
  predicate Saved(task: Task<AllreduceStage>, rt: ShmTree, bt: ShmTree, s0: Sn)
    reads task`status, task`stage, task`seqNum, task`tree, task`srcIsDst, task`curChild, task`firstReduce,
          task`progressAlg
  {
    && task.status == InProgress
    && StageHasTree(rt, bt, task.stage)
    && task.seqNum == SeqAt(s0, task.stage)
    && task.tree == (if IsReduceStage(task.stage) then rt else bt)
    && (!IsReduceStage(task.stage) ==> task.srcIsDst)
    && (task.stage == ArStart ==> task.curChild == 0 && task.firstReduce)
    && (task.stage == BaseTreeReduce ==> task.curChild <= |rt.base.value.children|)
    && (task.stage == TopTreeReduce ==> task.curChild <= |rt.top.value.children|)
    && (task.stage == BcastTopCi ==> TopCiWait(task.progressAlg, bt))
    && (task.stage == BcastBaseCi ==> BaseCiWait(task.progressAlg, bt))
  }

  /** The team, segment, trees and buffers the progress function runs on:
      ranks of the team, k-nomial radices of at least 2, an executor for
      the reduction, and n bytes that fit the user buffers and the shm area. */
  ghost predicate Usable(team: Team, seg: Segment, task: Task<AllreduceStage>, rt: ShmTree, bt: ShmTree, n: nat)
    reads team, seg, task`executor, task`userSrc, task`userDst
  {
    && team.Valid() && seg.Valid() && seg.nRanks == team.size
    && Reduce.TreesUsable(rt, team.size) && ShmTreeIn(bt, team.size) && TreesLinked(rt, bt)
    && task.executor.Some?
    && n <= |task.userSrc| && n <= |task.userDst| && (n <= seg.maxInline || n <= seg.blockSize)
  }

  /** START (allreduce.c:45-59): the segment check over the reduce tree;
      on OK the base reduction when there is a base tree, else the top one,
      and an in-place rank other than the op root points its source at its
      destination. */
  method StartStage(team: Team, seg: Segment, task: Task<AllreduceStage>, rt: ShmTree, bt: ShmTree,
                    ghost s0: Sn, isOpRoot: bool)
    returns (st: Status)
    requires seg.Valid() && task.stage == ArStart && Saved(task, rt, bt, s0) && TreesLinked(rt, bt)
    modifies seg, task`stage, task`status, task`srcIsDst
    ensures seg.Valid() && seg.trace == old(seg.trace) + [SegReadyChecked]
    ensures st != Ok ==> task.status == st && task.stage == ArStart && task.srcIsDst == old(task.srcIsDst)
    ensures st == Ok ==>
              && task.status == InProgress && task.stage == NextStage(rt, bt, ArStart).value
              && task.srcIsDst == (old(task.srcIsDst) || (task.args.inPlace && !isOpRoot))
  {
    st := ReduceSegReady(seg, task.segReadySeqNum, rt);
    if st != Ok {
      task.status := st;
      return;
    }
    if rt.base.Some? {
      task.stage := BaseTreeReduce;
    } else {
      task.stage := TopTreeReduce;
    }
    if task.args.inPlace && !isOpRoot {
      task.srcIsDst := true;
    }
  }

  /** ucc_tl_shm_reduce_read over one level of the reduce tree, with a
      status other than OK stored in the task (SHMCHECK_GOTO). */
  method ReduceLevelRead(team: Team, seg: Segment, task: Task<AllreduceStage>, rt: ShmTree, bt: ShmTree,
                         level: KnTree, isBase: bool, isInline: bool, n: nat)
    returns (st: Status)
    requires Usable(team, seg, task, rt, bt, n) && TreeIn(level, team.size)
    requires |level.children| > 0 ==> level.radix >= 2
    requires task.curChild <= |level.children| && task.status == InProgress && task.tree == rt
    requires n == AllreduceDataSize(task.args) && (if isInline then n <= seg.maxInline else n <= seg.blockSize)
    modifies seg, task`curChild, task`firstReduce, task`status, task`userSrc, task`userDst
    ensures Usable(team, seg, task, rt, bt, n) && NoCiStore(old(seg.trace), seg.trace)
    ensures task.userSrc == old(task.userSrc) && |task.userDst| == |old(task.userDst)|
    ensures task.status == if st == Ok then InProgress else st
    ensures task.curChild <= |level.children|
    ensures st == Ok ==>
              && task.curChild == |level.children|
              && task.firstReduce == Reduce.FirstAfter(level, old(task.firstReduce), old(task.curChild))
              && seg.trace == old(seg.trace)
                   + Reduce.LevelEvents(task.args, team.rank, level, isInline, isBase || rt.base.None?,
                                        old(task.firstReduce), old(task.curChild), task.seqNum, n)
  {
    ghost var failed;
    st, failed := Reduce.ReduceRead(team, seg, task, level, isBase, isInline, task.args.dstCount, task.executor.value);
    if st != Ok {
      task.status := st;
    }
  }

  /** BASE_TREE_REDUCE (allreduce.c:60-72): the base level's reduce_read;
      on OK cur_child restarts and the run moves to the top level when there
      is one, otherwise the source is pointed at the destination, the run
      moves to the broadcast on the bcast tree and seq_num is bumped. */
  method BaseReduceStage(team: Team, seg: Segment, task: Task<AllreduceStage>, rt: ShmTree, bt: ShmTree,
                         ghost s0: Sn, isInline: bool, n: nat)
    returns (st: Status)
    requires task.stage == BaseTreeReduce
    requires Usable(team, seg, task, rt, bt, n) && Saved(task, rt, bt, s0)
    requires n == AllreduceDataSize(task.args) && (if isInline then n <= seg.maxInline else n <= seg.blockSize)
    modifies seg, task`stage, task`seqNum, task`curChild, task`firstReduce, task`status, task`srcIsDst,
             task`tree, task`userSrc, task`userDst
    ensures Usable(team, seg, task, rt, bt, n) && NoCiStore(old(seg.trace), seg.trace)
    ensures task.userSrc == old(task.userSrc) && |task.userDst| == |old(task.userDst)|
    ensures st != Ok ==>
              && task.status == st && task.stage == old(task.stage) && task.srcIsDst == old(task.srcIsDst)
              && (st == InProgress ==> Saved(task, rt, bt, s0))
    ensures st == Ok ==>
              && Saved(task, rt, bt, s0) && task.stage == NextStage(rt, bt, old(task.stage)).value
              && task.srcIsDst == (old(task.srcIsDst) || !IsReduceStage(task.stage))
              && task.curChild == 0
              && task.firstReduce == Reduce.FirstAfter(rt.base.value, old(task.firstReduce), old(task.curChild))
              && seg.trace == old(seg.trace)
                   + Reduce.LevelEvents(task.args, team.rank, rt.base.value, isInline, true,
                                        old(task.firstReduce), old(task.curChild), s0, n)
  {
    st := ReduceLevelRead(team, seg, task, rt, bt, rt.base.value, true, isInline, n);
    if st != Ok {
      return;
    }
    task.curChild := 0;
    if rt.top.Some? {
      task.stage := TopTreeReduce;
      return;
    }
    task.srcIsDst := true;
    task.stage := BaseTreeBcast;
    task.tree := bt;
    task.seqNum := SnInc(task.seqNum);
  }

  /** TOP_TREE_REDUCE (allreduce.c:73-81): the top level's reduce_read; on
      OK the source is pointed at the destination, the run moves to the
      top level's broadcast on the bcast tree and seq_num is bumped. */
  method TopReduceStage(team: Team, seg: Segment, task: Task<AllreduceStage>, rt: ShmTree, bt: ShmTree,
                         ghost s0: Sn, isInline: bool, n: nat)
    returns (st: Status)
    requires task.stage == TopTreeReduce
    requires Usable(team, seg, task, rt, bt, n) && Saved(task, rt, bt, s0)
    requires n == AllreduceDataSize(task.args) && (if isInline then n <= seg.maxInline else n <= seg.blockSize)
    modifies seg, task`stage, task`seqNum, task`curChild, task`firstReduce, task`status, task`srcIsDst,
             task`tree, task`userSrc, task`userDst
    ensures Usable(team, seg, task, rt, bt, n) && NoCiStore(old(seg.trace), seg.trace)
    ensures task.userSrc == old(task.userSrc) && |task.userDst| == |old(task.userDst)|
    ensures st != Ok ==>
              && task.status == st && task.stage == old(task.stage) && task.srcIsDst == old(task.srcIsDst)
              && (st == InProgress ==> Saved(task, rt, bt, s0))
    ensures st == Ok ==>
              && Saved(task, rt, bt, s0) && task.stage == NextStage(rt, bt, old(task.stage)).value
              && task.srcIsDst == (old(task.srcIsDst) || !IsReduceStage(task.stage))
              && task.curChild == |rt.top.value.children|
              && task.firstReduce == Reduce.FirstAfter(rt.top.value, old(task.firstReduce), old(task.curChild))
              && seg.trace == old(seg.trace)
                   + Reduce.LevelEvents(task.args, team.rank, rt.top.value, isInline, rt.base.None?,
                                        old(task.firstReduce), old(task.curChild), s0, n)
  {
    st := ReduceLevelRead(team, seg, task, rt, bt, rt.top.value, false, isInline, n);
    if st != Ok {
      return;
    }
    task.srcIsDst := true;
    task.stage := TopTreeBcast;
    task.tree := bt;
    task.seqNum := SnInc(task.seqNum);
  }

  /** TOP_TREE_BCAST and BASE_TREE_BCAST (allreduce.c:82-103): the level's
      push or pull as the strategy says; on OK the top level moves to the
      base level when there is one, and otherwise the switch breaks out. */
  method BcastStage(team: Team, seg: Segment, task: Task<AllreduceStage>, rt: ShmTree, bt: ShmTree,
                    ghost s0: Sn, isInline: bool, isOpRoot: bool, n: nat)
    returns (st: Status, more: bool, ghost act: Action)
    requires task.stage == TopTreeBcast || task.stage == BaseTreeBcast
    requires Usable(team, seg, task, rt, bt, n) && Saved(task, rt, bt, s0)
    requires if isInline then n <= seg.maxInline else n <= seg.blockSize
    modifies seg, task`stage, task`status, task`userSrc, task`userDst
    ensures seg.Valid() && NoCiStore(old(seg.trace), seg.trace)
    ensures task.userSrc == old(task.userSrc) && task.userDst == old(task.userDst)
    ensures act == StageAction(task.progressAlg, rt, bt, old(task.stage))
    ensures st != Ok ==> task.status == st && task.stage == old(task.stage) && st == InProgress
    ensures st == Ok ==>
              && task.status == InProgress
              && (more <==> NextStage(rt, bt, old(task.stage)).Some?)
              && task.stage == (if more then NextStage(rt, bt, old(task.stage)).value else old(task.stage))
              && seg.trace == old(seg.trace)
                   + ActionEvents(Ctx(team.rank, task.args, rt, s0, isInline, isOpRoot, n), act,
                                  task.firstReduce, task.curChild)
  {
    var alg := task.progressAlg;
    var top := task.stage == TopTreeBcast;
    var level := if top then bt.top.value else bt.base.value;
    var push := if top then alg == WW || alg == WR else alg == WW || alg == RW;
    ghost var t0 := seg.trace;
    if push {
      st := Bcast.BcastWrite(team, seg, task, level, isInline, isOpRoot, n);
      act := WriteLevel(level);
      NoCiStoreAppend(t0, seg.trace[|t0|..]);
      assert seg.trace == t0 + seg.trace[|t0|..];
    } else {
      st := Bcast.BcastRead(team, seg, task, level, isInline, isOpRoot, n);
      act := ReadLevel(level);
      NoCiStoreAppend(t0, seg.trace[|t0|..]);
      assert seg.trace == t0 + seg.trace[|t0|..];
    }
    if st != Ok {
      task.status := st;
      return st, false, act;
    }
    more := top && bt.base.Some?;
    if more {
      task.stage := BaseTreeBcast;
    }
  }

  /** One pass through the switch of allreduce_progress: the stage's
      call; a status other than OK left in the task with the stage saved;
      on OK the next stage, or `more == false` where the switch breaks out.
      The source is pointed at the destination only here: at START for an
      in-place rank other than the op root, and on the switch from the
      reduction to the broadcast. `act` is what the stage did. */
  method Step(team: Team, seg: Segment, task: Task<AllreduceStage>, rt: ShmTree, bt: ShmTree,
              ghost s0: Sn, isInline: bool, isOpRoot: bool, n: nat)
    returns (st: Status, more: bool, ghost act: Action)
    requires !IsCiStage(task.stage) && Usable(team, seg, task, rt, bt, n) && Saved(task, rt, bt, s0)
    requires n == AllreduceDataSize(task.args) && isInline == (n <= seg.maxInline)
    modifies seg, task`stage, task`seqNum, task`curChild, task`firstReduce, task`status, task`srcIsDst,
             task`tree, task`userSrc, task`userDst
    ensures Usable(team, seg, task, rt, bt, n) && NoCiStore(old(seg.trace), seg.trace)
    ensures task.userSrc == old(task.userSrc) && |task.userDst| == |old(task.userDst)|
    ensures act == StageAction(task.progressAlg, rt, bt, old(task.stage)) && ActionWf(act, old(task.curChild))
    ensures task.srcIsDst == (old(task.srcIsDst)
                              || (st == Ok && old(task.stage) == ArStart && task.args.inPlace && !isOpRoot)
                              || (st == Ok && IsReduceStage(old(task.stage)) && !IsReduceStage(task.stage)))
    ensures st != Ok ==> task.status == st && task.stage == old(task.stage)
    ensures task.status == InProgress ==> Saved(task, rt, bt, s0)
    ensures st == Ok ==>
              && task.status == InProgress
              && (more <==> NextStage(rt, bt, old(task.stage)).Some?)
              && task.stage == (if more then NextStage(rt, bt, old(task.stage)).value else old(task.stage))
              && seg.trace == old(seg.trace)
                   + ActionEvents(Ctx(team.rank, task.args, rt, s0, isInline, isOpRoot, n), act,
                                  old(task.firstReduce), old(task.curChild))
              && task.firstReduce == ActionFirst(act, old(task.firstReduce), old(task.curChild))
              && (IsReduceStage(task.stage) ==> task.curChild == 0)
  {
    ghost var t0 := seg.trace;
    act := StageAction(task.progressAlg, rt, bt, task.stage);
    if task.stage == ArStart {
      st := StartStage(team, seg, task, rt, bt, s0, isOpRoot);
      NoCiStoreAppend(t0, [SegReadyChecked]);
      more := true;
    } else if task.stage == BaseTreeReduce {
      st := BaseReduceStage(team, seg, task, rt, bt, s0, isInline, n);
      more := true;
    } else if task.stage == TopTreeReduce {
      st := TopReduceStage(team, seg, task, rt, bt, s0, isInline, n);
      more := true;
    } else {
      st, more, act := BcastStage(team, seg, task, rt, bt, s0, isInline, isOpRoot, n);
    }
  }

  /** The switch of allreduce_progress from a saved stage of it: each
      stage runs until its call returns something other than OK (left in
      the task, the stage saved), or the switch breaks out after the last
      broadcast level. `acts` are the actions the stages took, `last` the
      stage the run ended in. */
  method RunStages(team: Team, seg: Segment, task: Task<AllreduceStage>, rt: ShmTree, bt: ShmTree,
                   ghost s0: Sn, isInline: bool, isOpRoot: bool, n: nat)
    returns (done: bool, ghost acts: seq<Action>, ghost last: AllreduceStage)
    requires !IsCiStage(task.stage) && Usable(team, seg, task, rt, bt, n) && Saved(task, rt, bt, s0)
    requires n == AllreduceDataSize(task.args) && isInline == (n <= seg.maxInline)
    modifies seg, task`stage, task`seqNum, task`curChild, task`firstReduce, task`status, task`srcIsDst,
             task`tree, task`userSrc, task`userDst
    ensures Usable(team, seg, task, rt, bt, n) && NoCiStore(old(seg.trace), seg.trace) && task.stage == last
    ensures task.userSrc == old(task.userSrc) && |task.userDst| == |old(task.userDst)|
    ensures Ran(task.progressAlg, rt, bt, old(task.stage), last, acts) && ActsWf(acts, old(task.curChild))
    ensures done ==> Saved(task, rt, bt, s0) && NextStage(rt, bt, last).None?
    ensures done ==>
              seg.trace == old(seg.trace)
                + ActsEvents(Ctx(team.rank, task.args, rt, s0, isInline, isOpRoot, n), acts,
                             old(task.firstReduce), old(task.curChild))
    ensures !done ==> task.status != Ok && (task.status == InProgress ==> Saved(task, rt, bt, s0))
  {
    ghost var from := task.stage;
    ghost var t0 := seg.trace;
    ghost var alg := task.progressAlg;
    ghost var c := Ctx(team.rank, task.args, rt, s0, isInline, isOpRoot, n);
    ghost var f0, k0 := task.firstReduce, task.curChild;
    ghost var past: seq<Action> := [];
    AppendNothing(t0);
    while true
      invariant Usable(team, seg, task, rt, bt, n) && Saved(task, rt, bt, s0) && !IsCiStage(task.stage)
      invariant task.userSrc == old(task.userSrc) && |task.userDst| == |old(task.userDst)|
      invariant NoCiStore(t0, seg.trace) && Reaches(rt, bt, from, task.stage)
      invariant past == ActionsBefore(alg, rt, bt, from, task.stage) && ActsWf(past, k0)
      invariant seg.trace == t0 + ActsEvents(c, past, f0, k0) && task.firstReduce == ActsFirst(past, f0, k0)
      invariant IsReduceStage(task.stage) ==> task.curChild == C0At(past, k0)
      decreases StagesLeft(task.stage)
    {
      ghost var cur := task.stage;
      ghost var t1 := seg.trace;
      var st, more, act := RecordedStep(team, seg, task, rt, bt, s0, isInline, isOpRoot, n, c, past, f0, k0, t0);
      NoCiStoreTrans(t0, t1, seg.trace);
      acts := past + [act];
      last := cur;
      if st != Ok || !more {
        done := st == Ok;
        break;
      }
      ReachesNext(alg, rt, bt, from, cur, task.stage);
      past := acts;
    }
  }

  /** One pass through the switch in a run whose earlier stages took
      `past`: Step, and on OK the run's records grown by this stage's, with
      first_reduce and cur_child where the next stage enters. */
  method RecordedStep(team: Team, seg: Segment, task: Task<AllreduceStage>, rt: ShmTree, bt: ShmTree,
                      ghost s0: Sn, isInline: bool, isOpRoot: bool, n: nat, ghost c: Ctx,
                      ghost past: seq<Action>, ghost f0: bool, ghost k0: nat, ghost t0: seq<Event>)
    returns (st: Status, more: bool, ghost act: Action)
    requires !IsCiStage(task.stage) && Usable(team, seg, task, rt, bt, n) && Saved(task, rt, bt, s0)
    requires n == AllreduceDataSize(task.args) && isInline == (n <= seg.maxInline)
    requires c == Ctx(team.rank, task.args, rt, s0, isInline, isOpRoot, n)
    requires ActsWf(past, k0) && (IsReduceStage(task.stage) ==> task.curChild == C0At(past, k0))
    requires seg.trace == t0 + ActsEvents(c, past, f0, k0) && task.firstReduce == ActsFirst(past, f0, k0)
    modifies seg, task`stage, task`seqNum, task`curChild, task`firstReduce, task`status, task`srcIsDst,
             task`tree, task`userSrc, task`userDst
    ensures Usable(team, seg, task, rt, bt, n) && NoCiStore(old(seg.trace), seg.trace)
    ensures task.userSrc == old(task.userSrc) && |task.userDst| == |old(task.userDst)|
    ensures act == StageAction(task.progressAlg, rt, bt, old(task.stage)) && ActsWf(past + [act], k0)
    ensures st != Ok ==> task.status == st && task.stage == old(task.stage)
    ensures task.status == InProgress ==> Saved(task, rt, bt, s0)
    ensures st == Ok ==>
              && task.status == InProgress
              && (more <==> NextStage(rt, bt, old(task.stage)).Some?)
              && task.stage == (if more then NextStage(rt, bt, old(task.stage)).value else old(task.stage))
              && seg.trace == t0 + ActsEvents(c, past + [act], f0, k0)
              && task.firstReduce == ActsFirst(past + [act], f0, k0)
              && (IsReduceStage(task.stage) ==> task.curChild == C0At(past + [act], k0))
  {
    ghost var t1 := seg.trace;
    ghost var k1 := task.curChild;
    ghost var atReduce := IsReduceStage(task.stage);
    st, more, act := Step(team, seg, task, rt, bt, s0, isInline, isOpRoot, n);
    assert act.ReduceLevel? ==> atReduce;
    RunExtends(c, past, act, f0, k0, k1, t0, t1, seg.trace, atReduce);
  }

  lemma AppendNothing(a: seq<Event>)
    ensures a + [] == a
  {
  }

  /** The bookkeeping of one completed stage: the run's records grow by
      the stage's. */
  lemma RunExtends(c: Ctx, past: seq<Action>, act: Action, f0: bool, k0: nat, k1: nat,
                   t0: seq<Event>, t1: seq<Event>, t2: seq<Event>, atReduce: bool)
    requires ActsWf(past, k0) && ActionWf(act, k1)
    requires act.ReduceLevel? ==> atReduce
    requires atReduce ==> k1 == C0At(past, k0)
    requires t1 == t0 + ActsEvents(c, past, f0, k0)
    ensures ActsWf(past + [act], k0)
    ensures t2 == t1 + ActionEvents(c, act, ActsFirst(past, f0, k0), k1) ==> t2 == t0 + ActsEvents(c, past + [act], f0, k0)
    ensures ActsFirst(past + [act], f0, k0) == ActionFirst(act, ActsFirst(past, f0, k0), k1)
  {
    AppendAction(c, past, act, f0, k0, k1);
    Reduce.ConcatAssoc(t0, ActsEvents(c, past, f0, k0), ActionEvents(c, act, ActsFirst(past, f0, k0), k1));
  }

  /** The entry into the TOP_CI stage after the copy-out, where the
      top-level wait applies. */
  method EnterTopCi(task: Task<AllreduceStage>, rt: ShmTree, bt: ShmTree, ghost s0: Sn)
    requires !IsReduceStage(task.stage) && !IsCiStage(task.stage) && Saved(task, rt, bt, s0)
    modifies task`stage
    ensures task.stage == (if TopCiWait(task.progressAlg, bt) then BcastTopCi else old(task.stage))
    ensures Saved(task, rt, bt, s0)
  {
    if TopCiWait(task.progressAlg, bt) {
      task.stage := BcastTopCi;
    }
  }

  /** allreduce.c:112-160 up to the first wait: on every rank but the op
      root, the copy of the result into the user's destination (the op
      root keeps its buffer), then the entry into TOP_CI where it applies. */
  method DeliverResult(seg: Segment, task: Task<AllreduceStage>, rt: ShmTree, bt: ShmTree, ghost s0: Sn,
                       me: Rank, isInline: bool, n: nat)
    requires seg.Valid() && ShmTreeIn(bt, seg.nRanks) && me < seg.nRanks
    requires me != task.root ==> CopyOutSource(task.progressAlg, bt, me, isInline).Some?
    requires (if isInline then n <= seg.maxInline else n <= seg.blockSize) && n <= |task.userDst|
    requires !IsReduceStage(task.stage) && !IsCiStage(task.stage) && Saved(task, rt, bt, s0)
    modifies task`userSrc, task`userDst, task`stage, seg`inlineData, seg`data, seg`trace
    ensures seg.Valid() && task.userSrc == old(task.userSrc) && |task.userDst| == |old(task.userDst)|
    ensures task.stage == (if TopCiWait(task.progressAlg, bt) then BcastTopCi else old(task.stage))
    ensures Saved(task, rt, bt, s0)
    ensures seg.trace == old(seg.trace) + ResultCopy(task.progressAlg, bt, me, task.root, isInline, n)
    ensures NoCiStore(old(seg.trace), seg.trace)
    ensures me == task.root ==> task.userDst == old(task.userDst)
    ensures me != task.root ==>
              var src := CopyOutSource(task.progressAlg, bt, me, isInline).value;
              && Delivered(task, seg, task.progressAlg, bt, me, isInline, n)
              && Region(task, seg, src) == old(Region(task, seg, src))
  {
    if me != task.root {
      ghost var t1 := seg.trace;
      var src := CopyOutSource(task.progressAlg, bt, me, isInline).value;
      CopyOut(seg, task, bt, me, isInline, n);
      NoCiStoreAppend(t1, [Copied(UserDst, src, n)]);
    } else {
      AppendNothing(seg.trace);
    }
    EnterTopCi(task, rt, bt, s0);
  }

  /** The switch of allreduce_progress from a stage before the ci waits,
      and on breaking out of it the copy of the result into the user buffer
      on every rank but the op root; then the TOP_CI stage is entered where
      its wait applies. */
  method Switch(team: Team, seg: Segment, task: Task<AllreduceStage>, rt: ShmTree, bt: ShmTree, ghost s0: Sn,
                isInline: bool, isOpRoot: bool, n: nat)
    returns (done: bool, ghost acts: seq<Action>, ghost last: AllreduceStage, ghost pre: seq<Event>)
    requires n == AllreduceDataSize(task.args) && isInline == (n <= seg.maxInline)
    requires isOpRoot == (team.rank == task.root)
    requires Usable(team, seg, task, rt, bt, n)
    requires !isOpRoot ==> CopyOutSource(task.progressAlg, bt, team.rank, isInline).Some?
    requires !IsCiStage(task.stage) && Saved(task, rt, bt, s0)
    modifies seg, task`stage, task`seqNum, task`curChild, task`firstReduce, task`status, task`srcIsDst,
             task`tree, task`userSrc, task`userDst
    ensures seg.Valid() && NoCiStore(old(seg.trace), seg.trace) && |task.userDst| == |old(task.userDst)|
    ensures Ran(task.progressAlg, rt, bt, old(task.stage), last, acts) && ActsWf(acts, old(task.curChild))
    ensures !done ==> task.stage == last && task.status != Ok && (task.status == InProgress ==> Saved(task, rt, bt, s0))
    ensures done ==>
              && Saved(task, rt, bt, s0) && NextStage(rt, bt, last).None?
              && task.stage == (if TopCiWait(task.progressAlg, bt) then BcastTopCi else last)
              && seg.trace == old(seg.trace) + pre
              && pre == CallEvents(Ctx(team.rank, task.args, rt, s0, isInline, isOpRoot, n), task.progressAlg, bt,
                                   task.root, false, acts, old(task.firstReduce), old(task.curChild))
              && (!isOpRoot ==> Delivered(task, seg, task.progressAlg, bt, team.rank, isInline, n))
  {
    ghost var t0, f0, k0 := seg.trace, task.firstReduce, task.curChild;
    pre := [];
    done, acts, last := RunStages(team, seg, task, rt, bt, s0, isInline, isOpRoot, n);
    if !done {
      return;
    }
    ghost var t1 := seg.trace;
    DeliverResult(seg, task, rt, bt, s0, team.rank, isInline, n);
    NoCiStoreTrans(t0, t1, seg.trace);
    ghost var rc := ResultCopy(task.progressAlg, bt, team.rank, task.root, isInline, n);
    ghost var c := Ctx(team.rank, task.args, rt, s0, isInline, isOpRoot, n);
    pre := ActsEvents(c, acts, f0, k0) + rc;
    Reduce.ConcatAssoc(t0, ActsEvents(c, acts, f0, k0), rc);
  }

  /** What completion leaves: the control area `checked` the waits saw
      with this rank's ci set to the sequence number the collective ran
      with (seq_num - 1, seq_num having been bumped once), and the children
      of every level waited on found to have consumed it; `topWaited` says
      the top level's wait passed in this call. */
  ghost predicate CiComplete(seg: Segment, task: Task<AllreduceStage>, bt: ShmTree, me: Rank, s0: Sn,
                             checked: seq<Ctrl>, topWaited: bool)
    reads seg`ctrl, task`seqNum, task`progressAlg
  {
    && task.seqNum == SnInc(s0) && me < |checked| && ShmTreeIn(bt, |checked|)
    && seg.ctrl == checked[me := checked[me].(ci := s0)]
    && (topWaited ==> bt.top.Some? && Consumed(checked, bt.top.value.children, task.seqNum))
    && (BaseCiWait(task.progressAlg, bt) ==> Consumed(checked, bt.base.value.children, task.seqNum))
  }

  /** The completion of allreduce_progress after the switch: the waits on
      the children's ci of the levels that were pulled (a level that is not
      yet consumed leaves the task in its ci stage), then ci := seq_num - 1,
      the sequence number this collective ran with, and status OK.
      `checked` is the control area the waits saw. */
  method Complete(team: Team, seg: Segment, task: Task<AllreduceStage>, rt: ShmTree, bt: ShmTree, ghost s0: Sn)
    returns (ghost checked: seq<Ctrl>)
    requires team.Valid() && seg.Valid() && seg.nRanks == team.size && ShmTreeIn(bt, team.size)
    requires !IsReduceStage(task.stage) && Saved(task, rt, bt, s0)
    modifies seg`ctrl, seg`trace, task`stage, task`status
    ensures seg.Valid() && (task.status == InProgress || task.status == Ok)
    ensures !IsCiStage(task.stage) ==> task.stage == old(task.stage)
    ensures task.status == InProgress ==>
              seg.trace == old(seg.trace) && IsCiStage(task.stage) && Saved(task, rt, bt, s0)
    ensures task.status == Ok ==>
              && CiComplete(seg, task, bt, team.rank, s0, checked, old(task.stage) == BcastTopCi)
              && seg.trace == old(seg.trace) + [CiStored(team.rank, s0)]
  {
    checked := seg.ctrl;
    var pass := CiWaits(seg, task, bt);
    if !pass {
      return;
    }
    checked := seg.ctrl;
    SnRewindUndoesBump(s0);
    StoreCi(seg, team.rank, SnDec(task.seqNum));
    task.status := Ok;
  }

  /** A trace `t0 + pre` grown by one last event. */
  lemma CiAppended(t0: seq<Event>, pre: seq<Event>, t2: seq<Event>, t3: seq<Event>, ci: Event)
    requires t2 == t0 + pre && t3 == t2 + [ci]
    ensures t3 == t0 + pre + [ci] && |t3| > 0 && t3[..|t3| - 1] == t2 && t3[|t3| - 1] == ci
  {
    assert t3[..|t3| - 1] == t2;
  }

  /** `data_size`: `args->dst.info.count * ucc_dt_size(args->dst.info.datatype)`. */
  function AllreduceDataSize(args: CollArgs): nat
  {
    args.dstCount * args.dtSize
  }

  /** What one call of allreduce_progress records before its ci store:
      from a stage of the switch, the records of the stages it took and the
      copy-out; from a saved wait, nothing. */
  ghost function CallEvents(c: Ctx, alg: BcastAlg, bt: ShmTree, root: Rank, fromWait: bool,
                            acts: seq<Action>, first: bool, c0: nat): seq<Event>
    requires !fromWait ==> ActsWf(acts, c0)
  {
    if fromWait then [] else ActsEvents(c, acts, first, c0) + ResultCopy(alg, bt, c.me, root, c.isInline, c.n)
  }

  /** allreduce_progress from a stage of the switch: the switch and the
      copy-out, then the waits and the completion. */
  method SwitchThenComplete(team: Team, seg: Segment, task: Task<AllreduceStage>, rt: ShmTree, bt: ShmTree,
                            ghost s0: Sn, isInline: bool, isOpRoot: bool, n: nat)
    returns (ghost acts: seq<Action>, ghost last: AllreduceStage, ghost checked: seq<Ctrl>, ghost pre: seq<Event>)
    requires n == AllreduceDataSize(task.args) && isInline == (n <= seg.maxInline)
    requires isOpRoot == (team.rank == task.root)
    requires Usable(team, seg, task, rt, bt, n)
    requires !isOpRoot ==> CopyOutSource(task.progressAlg, bt, team.rank, isInline).Some?
    requires !IsCiStage(task.stage) && Saved(task, rt, bt, s0)
    modifies seg, task`stage, task`seqNum, task`curChild, task`firstReduce, task`status, task`srcIsDst,
             task`tree, task`userSrc, task`userDst
    ensures seg.Valid()
    ensures task.status == InProgress ==> Saved(task, rt, bt, s0)
    ensures task.status != Ok ==> NoCiStore(old(seg.trace), seg.trace)
    ensures Ran(task.progressAlg, rt, bt, old(task.stage), last, acts) && ActsWf(acts, old(task.curChild))
    ensures !IsCiStage(task.stage) ==> task.stage == last
    ensures task.status == Ok || IsCiStage(task.stage) ==> NextStage(rt, bt, last).None?
    ensures task.status == Ok ==>
              && CiComplete(seg, task, bt, team.rank, s0, checked, TopCiWait(task.progressAlg, bt))
              && |seg.trace| > 0 && seg.trace[|seg.trace| - 1] == CiStored(team.rank, s0)
              && NoCiStore(old(seg.trace), seg.trace[..|seg.trace| - 1])
              && seg.trace == old(seg.trace) + pre + [CiStored(team.rank, s0)]
              && pre == CallEvents(Ctx(team.rank, task.args, rt, s0, isInline, isOpRoot, n), task.progressAlg, bt,
                                   task.root, false, acts, old(task.firstReduce), old(task.curChild))
              && (!isOpRoot ==> Delivered(task, seg, task.progressAlg, bt, team.rank, isInline, n))
  {
    ghost var t0 := seg.trace;
    ghost var f0, k0 := task.firstReduce, task.curChild;
    checked := seg.ctrl;
    var done;
    done, acts, last, pre := Switch(team, seg, task, rt, bt, s0, isInline, isOpRoot, n);
    if !done {
      return;
    }
    ghost var t2 := seg.trace;
    checked := Complete(team, seg, task, rt, bt, s0);
    if task.status == Ok {
      CiAppended(t0, pre, t2, seg.trace, CiStored(team.rank, s0));
    } else {
      NoCiStoreTrans(t0, t2, seg.trace);
    }
  }

  /** ucc_tl_shm_allreduce_progress. From a stage of the switch: the
      switch, then (on ranks other than the op root) the copy-out, then the
      waits; from a saved wait, that wait and what follows it. At the end
      ci := seq_num - 1, the sequence number the task had at START, and
      status OK. `s0` is that START sequence number; `checked` are the
      control records the waits read; `pre` are the events recorded before
      the ci store. */
  method Progress(team: Team, seg: Segment, task: Task<AllreduceStage>, ghost s0: Sn)
    returns (ghost acts: seq<Action>, ghost last: AllreduceStage, ghost checked: seq<Ctrl>, ghost pre: seq<Event>)
    requires var n := AllreduceDataSize(task.args);
             && Usable(team, seg, task, task.reduceTree, task.bcastTree, n)
             && (team.rank != task.root ==> CopyOutSource(task.progressAlg, task.bcastTree, team.rank,
                                                          n <= seg.maxInline).Some?)
    requires Saved(task, task.reduceTree, task.bcastTree, s0)
    modifies seg, task`stage, task`seqNum, task`curChild, task`firstReduce, task`status, task`srcIsDst,
             task`tree, task`userSrc, task`userDst
    ensures seg.Valid()
    ensures task.status == InProgress ==> Saved(task, task.reduceTree, task.bcastTree, s0)
    ensures task.status != Ok ==> NoCiStore(old(seg.trace), seg.trace)
    ensures !IsCiStage(old(task.stage)) ==>
              && Ran(task.progressAlg, task.reduceTree, task.bcastTree, old(task.stage), last, acts)
              && (!IsCiStage(task.stage) ==> task.stage == last)
              && (task.status == Ok || IsCiStage(task.stage) ==>
                    NextStage(task.reduceTree, task.bcastTree, last).None?)
    ensures IsCiStage(old(task.stage)) ==> acts == []
    ensures !IsCiStage(old(task.stage)) ==> ActsWf(acts, old(task.curChild))
    ensures task.status == Ok ==>
              && CiComplete(seg, task, task.bcastTree, team.rank, s0, checked,
                            old(task.stage) == BcastTopCi
                            || (!IsCiStage(old(task.stage)) && TopCiWait(task.progressAlg, task.bcastTree)))
              && |seg.trace| > 0 && seg.trace[|seg.trace| - 1] == CiStored(team.rank, s0)
              && NoCiStore(old(seg.trace), seg.trace[..|seg.trace| - 1])
    ensures task.status == Ok ==> seg.trace == old(seg.trace) + pre + [CiStored(team.rank, s0)]
    ensures var n := AllreduceDataSize(task.args);
            task.status == Ok ==>
              pre == CallEvents(Ctx(team.rank, task.args, task.reduceTree, s0, n <= seg.maxInline, team.rank == task.root, n),
                                task.progressAlg, task.bcastTree, task.root, IsCiStage(old(task.stage)), acts,
                                old(task.firstReduce), old(task.curChild))
    ensures var n := AllreduceDataSize(task.args);
            task.status == Ok && !IsCiStage(old(task.stage)) && team.rank != task.root ==>
              Delivered(task, seg, task.progressAlg, task.bcastTree, team.rank, n <= seg.maxInline, n)
  {
    var rt, bt := task.reduceTree, task.bcastTree;
    var n := AllreduceDataSize(task.args);
    var isInline, isOpRoot := n <= seg.maxInline, team.rank == task.root;
    if !IsCiStage(task.stage) {
      acts, last, checked, pre := SwitchThenComplete(team, seg, task, rt, bt, s0, isInline, isOpRoot, n);
    } else {
      ghost var t0 := seg.trace;
      acts, last, pre := [], task.stage, [];
      checked := Complete(team, seg, task, rt, bt, s0);
      if task.status == Ok {
        AppendNothing(t0);
        CiAppended(t0, pre, t0, seg.trace, CiStored(team.rank, s0));
      }
    }
  }

  /** ucc_tl_shm_allreduce_start: records the segment-ready sequence number
      and enqueues the task in progress. */
  method Start(task: Task<AllreduceStage>) returns (st: Status)
    modifies task`segReadySeqNum, task`status
    ensures task.status == InProgress
  {
    SetSegReadySeqNum(task);
    task.status := InProgress;
    st := ProgressQueueEnqueue();
  }

  /** team->perf_params_bcast: the team's selector, which also sets the
      task's broadcast strategy. */
  method PerfParamsBcast(team: Team) returns (p: PerfParams, alg: BcastAlg)
  {
    p, alg := *, *;
  }

  /** ucc_tl_shm_allreduce_init: persistent requests and AVG are not
      supported, before any task is taken; the lack of a task is NO_MEMORY.
      Otherwise the root is 0, the strategy and the bcast tree's parameters
      come from the bcast selector and the reduce tree's from the reduce
      selector; the bcast tree and then the reduce tree are set up for root
      0, and the first failure is returned; the task points at the reduce
      tree. `keys` are the cache keys of the tree setups attempted. */
  method Init(team: Team, args: CollArgs, userSrc: seq<Byte>, userDst: seq<Byte>, taskAvailable: bool)
    returns (st: Status, task: Option<Task<AllreduceStage>>, ghost keys: seq<TreeCacheKey>)
    modifies team`treeCache
    ensures args.persistent || args.op == Avg ==> st == Err(NotSupported) && task.None? && keys == []
    ensures !args.persistent && args.op != Avg && !taskAvailable ==> st == Err(NoMemory) && task.None? && keys == []
    ensures st == Ok ==> !args.persistent && args.op != Avg && taskAvailable && |keys| == 2
    ensures !args.persistent && args.op != Avg && taskAvailable ==>
              && 1 <= |keys| <= 2
              && keys[0].root == 0 && keys[0].collType == CollType.Bcast
              && (|keys| == 2 ==> keys[1].root == 0 && keys[1].collType == CollType.Reduce)
    ensures st == Ok ==>
              && task.Some? && fresh(task.value) && task.value.args == args && task.value.root == 0
              && task.value.progress == Some(AllreduceProgress) && task.value.stage == ArStart
              && task.value.tree == task.value.reduceTree
              && task.value.curChild == 0 && task.value.firstReduce
  {
    keys := [];
    if args.persistent || args.op == Avg {
      return Err(NotSupported), None, keys;
    }
    if !taskAvailable {
      return Err(NoMemory), None, keys;
    }
    var t := new Task(args, ArStart, userSrc, userDst);
    t.root := 0;
    var bp, alg := PerfParamsBcast(team);
    t.progressAlg := alg;
    var rp := Reduce.PerfParamsReduce(team);
    t.progress := Some(AllreduceProgress);
    t.stage := ArStart;
    var tree;
    ghost var k;
    st, tree, k := TreeInit(team, t.root, bp.baseRadix, bp.topRadix, CollType.Bcast, bp.baseTreeOnly);
    keys := [k];
    if st != Ok {
      return st, None, keys;
    }
    t.bcastTree := tree;
    st, tree, k := TreeInit(team, t.root, rp.baseRadix, rp.topRadix, CollType.Reduce, rp.baseTreeOnly);
    keys := keys + [k];
    if st != Ok {
      return st, None, keys;
    }
    t.reduceTree := tree;
    t.tree := t.reduceTree;
    return Ok, Some(t), keys;
  }
}
