/**
  What executing a planned cycle does to the depths: it conserves the total, stays on
  the right side of the target on both ends, and closes the deficits.
 */
module RebalanceExecution {
  import opened Wrappers
  import opened Rebalance
  import opened RebalanceLaws
  import opened RebalanceCycle

  type Balances = map<ChainId, int>

  // ----- Execution of ops -----

  /** `m` wei leave the source chain and arrive on the destination chain. */
  function Transfer(d: Balances, op: Op, m: int): Balances
    requires op.source in d && op.dest in d
  {
    var debited := d[op.source := d[op.source] - m];
    debited[op.dest := debited[op.dest] + m]
  }

  predicate Endpoints(d: Balances, ops: seq<Op>) {
    forall i | 0 <= i < |ops| :: ops[i].source in d && ops[i].dest in d
  }

  /**
    `moved[i]` is what op `i` really moved: its amount, nothing when it was skipped, or the
    sum of its first chunks when a later chunk failed.
   */
  predicate Executable(ops: seq<Op>, moved: seq<nat>) {
    |moved| == |ops| && forall i | 0 <= i < |ops| :: moved[i] <= ops[i].amount
  }

  function Execute(d: Balances, ops: seq<Op>, moved: seq<nat>): Balances
    requires Endpoints(d, ops) && |moved| == |ops|
  {
    if ops == [] then d
    else Execute(Transfer(d, ops[0], moved[0]), ops[1..], moved[1..])
  }

  function OutMoved(ops: seq<Op>, moved: seq<nat>, c: ChainId): nat
    requires |moved| == |ops|
  {
    if ops == [] then 0
    else (if ops[0].source == c then moved[0] else 0) + OutMoved(ops[1..], moved[1..], c)
  }

  function InMoved(ops: seq<Op>, moved: seq<nat>, c: ChainId): nat
    requires |moved| == |ops|
  {
    if ops == [] then 0
    else (if ops[0].dest == c then moved[0] else 0) + InMoved(ops[1..], moved[1..], c)
  }

  lemma {:induction false} ExecuteNet(d: Balances, ops: seq<Op>, moved: seq<nat>, c: ChainId)
    requires Endpoints(d, ops) && |moved| == |ops|
    ensures Execute(d, ops, moved).Keys == d.Keys
    ensures c in d ==> Execute(d, ops, moved)[c] == d[c] - OutMoved(ops, moved, c) + InMoved(ops, moved, c)
  {
    if ops != [] {
      ExecuteNet(Transfer(d, ops[0], moved[0]), ops[1..], moved[1..], c);
    }
  }

  /** Whatever ops are executed, in whatever amounts, the total is unchanged. */
  lemma {:induction false} ExecuteConserves(order: seq<ChainId>, d: Balances, ops: seq<Op>, moved: seq<nat>)
    requires Enumerates(order, d) && Endpoints(d, ops) && |moved| == |ops|
    ensures Execute(d, ops, moved).Keys == d.Keys
    ensures SumOf(order, Execute(d, ops, moved)) == SumOf(order, d)
  {
    if ops != [] {
      var op, m := ops[0], moved[0];
      var debited := d[op.source := d[op.source] - m];
      SumOfUpdate(order, d, op.source, d[op.source] - m);
      SumOfUpdate(order, debited, op.dest, debited[op.dest] + m);
      ExecuteConserves(order, Transfer(d, op, m), ops[1..], moved[1..]);
    }
  }

  lemma {:induction false} MovedWithinOps(ops: seq<Op>, moved: seq<nat>, c: ChainId)
    requires Executable(ops, moved)
    ensures OutMoved(ops, moved, c) <= OutOf(ops, c)
    ensures InMoved(ops, moved, c) <= Into(ops, c)
  {
    if ops != [] {
      MovedWithinOps(ops[1..], moved[1..], c);
    }
  }

  lemma {:induction false} OpWithinItsChains(ops: seq<Op>, i: nat)
    requires i < |ops|
    ensures ops[i].amount <= OutOf(ops, ops[i].source)
    ensures ops[i].amount <= Into(ops, ops[i].dest)
  {
    if i > 0 {
      OpWithinItsChains(ops[1..], i - 1);
    }
  }

  function FullAmounts(ops: seq<Op>): (r: seq<nat>)
    ensures |r| == |ops| && forall i | 0 <= i < |ops| :: r[i] == ops[i].amount
  {
    if ops == [] then [] else [ops[0].amount] + FullAmounts(ops[1..])
  }

  lemma {:induction false} FullAmountsMoveAll(ops: seq<Op>, c: ChainId)
    ensures OutMoved(ops, FullAmounts(ops), c) == OutOf(ops, c)
    ensures InMoved(ops, FullAmounts(ops), c) == Into(ops, c)
    ensures Sum(FullAmounts(ops)) == Moved(ops)
  {
    if ops != [] {
      assert FullAmounts(ops)[1..] == FullAmounts(ops[1..]);
      FullAmountsMoveAll(ops[1..], c);
    }
  }

  // ----- Sums of a function over the chains -----

  ghost function SumF(order: seq<ChainId>, f: ChainId -> int): int {
    if order == [] then 0 else SumF(order[..|order| - 1], f) + f(order[|order| - 1])
  }

  lemma {:induction false} SumFAdds(order: seq<ChainId>, f: ChainId -> int, g: ChainId -> int, h: ChainId -> int)
    requires forall c | c in order :: f(c) == g(c) + h(c)
    ensures SumF(order, f) == SumF(order, g) + SumF(order, h)
  {
    if order != [] {
      assert order[|order| - 1] in order;
      SumFAdds(order[..|order| - 1], f, g, h);
    }
  }

  lemma {:induction false} SumFIndicator(order: seq<ChainId>, f: ChainId -> int, at: ChainId, v: int)
    requires Distinct(order)
    requires forall c | c in order :: f(c) == if c == at then v else 0
    ensures SumF(order, f) == if at in order then v else 0
  {
    if order != [] {
      var init, last := order[..|order| - 1], order[|order| - 1];
      assert last in order;
      assert order == init + [last];
      SumFIndicator(init, f, at, v);
    }
  }

  lemma {:induction false} SumFOfMap(order: seq<ChainId>, m: Balances, f: ChainId -> int, off: int)
    requires forall c | c in order :: c in m && f(c) == m[c] - off
    ensures SumF(order, f) == SumOf(order, m) - off * |order|
  {
    if order != [] {
      var init, last := order[..|order| - 1], order[|order| - 1];
      assert last in order;
      SumFOfMap(init, m, f, off);
      assert off * |order| == off * |init| + off;
    }
  }

  /** Everything moved arrives on some chain. */
  lemma {:induction false} SumInMoved(order: seq<ChainId>, ops: seq<Op>, moved: seq<nat>)
    requires Distinct(order) && |moved| == |ops|
    requires forall i | 0 <= i < |ops| :: ops[i].dest in order
    ensures SumF(order, (c: ChainId) => InMoved(ops, moved, c)) == Sum(moved)
  {
    var f := (c: ChainId) => InMoved(ops, moved, c);
    if ops == [] {
      SumFIndicator(order, f, 0, 0);
    } else {
      var head := (c: ChainId) => if ops[0].dest == c then moved[0] else 0;
      var rest := (c: ChainId) => InMoved(ops[1..], moved[1..], c);
      SumInMoved(order, ops[1..], moved[1..]);
      SumFIndicator(order, head, ops[0].dest, moved[0]);
      SumFAdds(order, f, head, rest);
    }
  }

  // ----- Gaps and excesses -----

  function Gap(d: Balances, c: ChainId, target: nat): nat {
    if c in d && d[c] < target then target - d[c] else 0
  }

  function Excess(d: Balances, c: ChainId, target: nat): nat {
    if c in d && d[c] > target then d[c] - target else 0
  }

  ghost function TotalGap(order: seq<ChainId>, d: Balances, target: nat): int {
    SumF(order, (c: ChainId) => Gap(d, c, target))
  }

  lemma {:induction false} EntriesAppend(es: seq<Entry>, e: Entry, c: ChainId)
    ensures Total(es + [e]) == Total(es) + e.amount
    ensures AmountOf(es + [e], c) == AmountOf(es, c) + (if e.chain == c then e.amount else 0)
  {
    if es == [] {
      assert es + [e] == [e];
    } else {
      EntriesAppend(es[1..], e, c);
      assert (es + [e])[1..] == es[1..] + [e];
    }
  }

  lemma {:induction false} SurplusesAppend(order: seq<ChainId>, d: Depths, target: nat, c: ChainId)
    requires order != [] && forall k | k in order :: k in d
    ensures var init, last := order[..|order| - 1], order[|order| - 1];
            && Total(Surpluses(order, d, target)) == Total(Surpluses(init, d, target)) + Excess(d, last, target)
            && AmountOf(Surpluses(order, d, target), c)
               == AmountOf(Surpluses(init, d, target), c) + (if last == c then Excess(d, last, target) else 0)
  {
    var init, last := order[..|order| - 1], order[|order| - 1];
    var sur := Surpluses(init, d, target);
    assert sur + [] == sur;
    EntriesAppend(sur, Entry(last, Excess(d, last, target)), c);
  }

  lemma {:induction false} DeficitsAppend(order: seq<ChainId>, d: Depths, target: nat, c: ChainId)
    requires order != [] && forall k | k in order :: k in d
    ensures var init, last := order[..|order| - 1], order[|order| - 1];
            && Total(Deficits(order, d, target)) == Total(Deficits(init, d, target)) + Gap(d, last, target)
            && AmountOf(Deficits(order, d, target), c)
               == AmountOf(Deficits(init, d, target), c) + (if last == c then Gap(d, last, target) else 0)
  {
    var init, last := order[..|order| - 1], order[|order| - 1];
    var def := Deficits(init, d, target);
    assert def + [] == def;
    EntriesAppend(def, Entry(last, Gap(d, last, target)), c);
  }

  /** The surplus and deficit lists hold exactly the excess and the gap of every chain. */
  lemma {:induction false} SplitAmounts(order: seq<ChainId>, d: Depths, target: nat, c: ChainId)
    requires Distinct(order) && forall k | k in order :: k in d
    ensures AmountOf(Surpluses(order, d, target), c) == if c in order then Excess(d, c, target) else 0
    ensures AmountOf(Deficits(order, d, target), c) == if c in order then Gap(d, c, target) else 0
  {
    if order != [] {
      var init, last := order[..|order| - 1], order[|order| - 1];
      assert c in order <==> c in init || c == last by {
        assert order == init + [last];
      }
      assert last !in init;
      SplitAmounts(init, d, target, c);
      SurplusesAppend(order, d, target, c);
      DeficitsAppend(order, d, target, c);
    }
  }

  lemma {:induction false} SplitTotals(order: seq<ChainId>, d: Depths, target: nat)
    requires forall k | k in order :: k in d
    ensures Total(Surpluses(order, d, target)) == SumF(order, (c: ChainId) => Excess(d, c, target))
    ensures Total(Deficits(order, d, target)) == SumF(order, (c: ChainId) => Gap(d, c, target))
  {
    if order != [] {
      var init, last := order[..|order| - 1], order[|order| - 1];
      SplitTotals(init, d, target);
      SurplusesAppend(order, d, target, last);
      DeficitsAppend(order, d, target, last);
    }
  }

  // ----- What a plan may do to each chain -----

  ghost predicate FitsTarget(order: seq<ChainId>, d: Balances, target: nat, ops: seq<Op>) {
    && Endpoints(d, ops)
    && (forall i | 0 <= i < |ops| :: ops[i].dest in order)
    && (forall c | c in order :: OutOf(ops, c) <= Excess(d, c, target))
    && (forall c | c in order :: Into(ops, c) <= Gap(d, c, target))
  }

  lemma {:induction false} PlanFitsTarget(order: seq<ChainId>, d: Depths, cfg: CycleConfig)
    requires Enumerates(order, d) && order != [] && CycleEnds(order, d, cfg)
    ensures FitsTarget(order, d, CycleTarget(order, d, cfg), CyclePlan(order, d, cfg))
  {
    var target := CycleTarget(order, d, cfg);
    var ops := CyclePlan(order, d, cfg);
    if Triggered(order, d, cfg) {
      var sur, def := Surpluses(order, d, target), Deficits(order, d, target);
      PlanIsShort(sur, def, cfg.maxPerOp);
      forall i | 0 <= i < |ops| ensures ops[i].source in order && ops[i].dest in order {
        OpWithinItsChains(ops, i);
        PlanConserves(sur, def, cfg.maxPerOp, ops[i].source);
        PlanConserves(sur, def, cfg.maxPerOp, ops[i].dest);
        SplitAmounts(order, d, target, ops[i].source);
        SplitAmounts(order, d, target, ops[i].dest);
      }
      forall c | c in order
        ensures OutOf(ops, c) <= Excess(d, c, target) && Into(ops, c) <= Gap(d, c, target)
      {
        PlanConserves(sur, def, cfg.maxPerOp, c);
        SplitAmounts(order, d, target, c);
      }
    }
  }

  /** A chain above target stays there, a chain below target stays there, and none overshoots. */
  ghost predicate TowardsTarget(order: seq<ChainId>, d: Balances, after: Balances, target: nat) {
    && after.Keys == d.Keys
    && forall c {:trigger after[c]} | c in order && c in d ::
         if d[c] < target then d[c] <= after[c] <= target else target <= after[c] <= d[c]
  }

  lemma {:induction false} ExecutionFits(order: seq<ChainId>, d: Balances, target: nat, ops: seq<Op>, moved: seq<nat>)
    requires Enumerates(order, d) && FitsTarget(order, d, target, ops) && Executable(ops, moved)
    ensures TowardsTarget(order, d, Execute(d, ops, moved), target)
    ensures TotalGap(order, Execute(d, ops, moved), target) == TotalGap(order, d, target) - Sum(moved)
  {
    var after := Execute(d, ops, moved);
    ExecuteConserves(order, d, ops, moved);
    forall c | c in order
      ensures if d[c] < target then d[c] <= after[c] <= target else target <= after[c] <= d[c]
      ensures Gap(d, c, target) == Gap(after, c, target) + InMoved(ops, moved, c)
    {
      ExecuteNet(d, ops, moved, c);
      MovedWithinOps(ops, moved, c);
    }
    SumInMoved(order, ops, moved);
    SumFAdds(order, (c: ChainId) => Gap(d, c, target), (c: ChainId) => Gap(after, c, target),
        (c: ChainId) => InMoved(ops, moved, c));
  }

  /**
    Executing any part of a cycle's plan (ops skipped, or stopped after some chunks)
    conserves the total, never takes a source below the target nor a destination above it,
    and lowers the total deficit by exactly what was moved.
   */
  lemma {:induction false} PartialExecution(order: seq<ChainId>, d: Depths, cfg: CycleConfig, moved: seq<nat>)
    requires Enumerates(order, d) && order != [] && CycleEnds(order, d, cfg)
    requires Executable(CyclePlan(order, d, cfg), moved)
    ensures var target := CycleTarget(order, d, cfg);
            && Endpoints(d, CyclePlan(order, d, cfg))
            && var after := Execute(d, CyclePlan(order, d, cfg), moved);
            && after.Keys == d.Keys
            && SumOf(order, after) == SumOf(order, d)
            && TowardsTarget(order, d, after, target)
            && TotalGap(order, after, target) == TotalGap(order, d, target) - Sum(moved)
  {
    var target := CycleTarget(order, d, cfg);
    PlanFitsTarget(order, d, cfg);
    ExecutionFits(order, d, target, CyclePlan(order, d, cfg), moved);
    ExecuteConserves(order, d, CyclePlan(order, d, cfg), moved);
  }

  // ----- Full execution -----

  /** The targets of all chains together fit into the total. */
  predicate TargetsFit(n: nat, targetBps: nat) {
    targetBps == 0 || n * targetBps <= BPS
  }

  lemma {:induction false} DivisionLeaves(x: nat, n: nat)
    requires n > 0
    ensures (x / n) * n <= x
  {
  }

  lemma {:induction false} MulMonotonic(a: nat, b: nat, k: nat)
    requires a <= b
    ensures a * k <= b * k && k * a <= k * b
  {
  }

  lemma {:induction false} TargetsWithinTotal(total: nat, n: nat, targetBps: nat)
    requires n > 0 && TargetsFit(n, targetBps) && total * BPS < U256_LIMIT
    ensures TargetDepth(total, n, targetBps) * n <= total
  {
    if targetBps == 0 {
      DivisionLeaves(total, n);
    } else {
      MulMonotonic(1, n, targetBps);
      MulMonotonic(targetBps, BPS, total);
      assert total * targetBps <= total * BPS;
      WrapSmall(total * targetBps);
      var target := TargetDepth(total, n, targetBps);
      DivisionLeaves(total * targetBps, BPS);
      MulMonotonic(target * BPS, total * targetBps, n);
      MulMonotonic(n * targetBps, BPS, total);
      assert (target * n) * BPS == (target * BPS) * n;
      assert (total * targetBps) * n == (n * targetBps) * total;
      assert (target * n) * BPS <= total * BPS;
    }
  }

  /** No chain under the target means that the cycle plans nothing. */
  lemma {:induction false} AtTargetIsQuiet(order: seq<ChainId>, d: Depths, cfg: CycleConfig)
    requires order != [] && Enumerates(order, d)
    requires cfg.minBps <= BPS && SumOf(order, d) * BPS < U256_LIMIT
    requires forall c | c in order :: d[c] >= CycleTarget(order, d, cfg)
    ensures CycleEnds(order, d, cfg) && CyclePlan(order, d, cfg) == []
  {
    var target := CycleTarget(order, d, cfg);
    forall c | c in order ensures !BelowMinimum(d[c], target, cfg.minBps) {
      if target != 0 {
        SumOfBound(order, d, c);
        MulMonotonic(d[c], SumOf(order, d), BPS);
        WrapSmall(d[c] * BPS);
        MulMonotonic(target, d[c], BPS);
        QuotientAtLeast(d[c] * BPS, target, BPS);
      }
    }
  }

  lemma {:induction false} QuotientAtLeast(x: nat, y: nat, k: nat)
    requires y > 0 && y * k <= x
    ensures x / y >= k
  {
    var q := x / y;
    assert x < q * y + y == (q + 1) * y;
    if q < k {
      MulMonotonic(q + 1, k, y);
      assert false;
    }
  }

  lemma {:induction false} DeficitsCovered(order: seq<ChainId>, d: Depths, target: nat)
    requires Enumerates(order, d) && target * |order| <= SumOf(order, d)
    ensures Total(Deficits(order, d, target)) <= Total(Surpluses(order, d, target))
  {
    SplitTotals(order, d, target);
    var gap := (c: ChainId) => Gap(d, c, target);
    var excess := (c: ChainId) => Excess(d, c, target);
    var signed := (c: ChainId) => if c in d then d[c] - target else 0;
    SumFOfMap(order, d, signed, target);
    SumFAdds(order, excess, gap, signed);
  }

  /**
    When the targets fit into the total, executing the whole plan of a triggered cycle
    lifts every chain that was short exactly to the target, leaves every other chain at or
    above it and conserves the total; then the next cycle, over any iteration order and with
    any threshold up to 100%, plans nothing.
   */
  lemma {:induction false} FullExecution(order: seq<ChainId>, d: Depths, cfg: CycleConfig,
                                         order': seq<ChainId>, after: Depths, cfg': CycleConfig)
    requires Enumerates(order, d) && Triggered(order, d, cfg) && CycleEnds(order, d, cfg)
    requires TargetsFit(|order|, cfg.targetBps) && SumOf(order, d) * BPS < U256_LIMIT
    requires Endpoints(d, CyclePlan(order, d, cfg))
    requires after == Execute(d, CyclePlan(order, d, cfg), FullAmounts(CyclePlan(order, d, cfg)))
    requires Enumerates(order', after) && cfg'.targetBps == cfg.targetBps
    requires cfg'.minBps <= BPS
    ensures after.Keys == d.Keys && SumOf(order, after) == SumOf(order, d)
    ensures var target := CycleTarget(order, d, cfg);
            forall c | c in order :: if d[c] < target then after[c] == target else target <= after[c] <= d[c]
    ensures CycleEnds(order', after, cfg') && CyclePlan(order', after, cfg') == []
  {
    var target := CycleTarget(order, d, cfg);
    var ops := CyclePlan(order, d, cfg);
    var sur, def := Surpluses(order, d, target), Deficits(order, d, target);
    PartialExecution(order, d, cfg, FullAmounts(ops));
    TotalDepthIsWrappedSum(order, d);
    WrapSmall(SumOf(order, d));
    TargetsWithinTotal(SumOf(order, d), |order|, cfg.targetBps);
    DeficitsCovered(order, d, target);
    forall c | c in order
      ensures if d[c] < target then after[c] == target else target <= after[c] <= d[c]
    {
      PlanConserves(sur, def, cfg.maxPerOp, c);
      SplitAmounts(order, d, target, c);
      ExecuteNet(d, ops, FullAmounts(ops), c);
      FullAmountsMoveAll(ops, c);
    }
    SumOfAnyOrder(order, order', after);
    TotalDepthIsWrappedSum(order', after);
    assert CycleTarget(order', after, cfg') == target;
    AtTargetIsQuiet(order', after, cfg');
  }

  // ----- Repeated cycles -----

  /** One cycle of a run: the iteration order it saw, its settings, and what its ops moved. */
  datatype Cycle = Cycle(order: seq<ChainId>, cfg: CycleConfig, moved: seq<nat>)

  ghost predicate CycleStep(d: Depths, cycle: Cycle, d': Depths) {
    && cycle.order != [] && Enumerates(cycle.order, d) && CycleEnds(cycle.order, d, cycle.cfg)
    && var ops := CyclePlan(cycle.order, d, cycle.cfg);
       Executable(ops, cycle.moved) && Endpoints(d, ops) && d' == Execute(d, ops, cycle.moved)
  }

  ghost predicate StepAt(states: seq<Depths>, cycles: seq<Cycle>, targetBps: nat, i: nat) {
    i < |cycles| && i + 1 < |states|
    && cycles[i].cfg.targetBps == targetBps && CycleStep(states[i], cycles[i], states[i + 1])
  }

  /** Cycles with one target setting, between which only their own ops change the depths. */
  ghost predicate IsRun(states: seq<Depths>, cycles: seq<Cycle>, targetBps: nat) {
    |states| == |cycles| + 1 && forall i: nat | i < |cycles| :: StepAt(states, cycles, targetBps, i)
  }

  lemma {:induction false} RunPrefix(states: seq<Depths>, cycles: seq<Cycle>, targetBps: nat)
    requires IsRun(states, cycles, targetBps) && cycles != []
    ensures IsRun(states[..|cycles|], cycles[..|cycles| - 1], targetBps)
  {
    var n := |cycles| - 1;
    var first, before := states[..n + 1], cycles[..n];
    forall i: nat | i < n ensures StepAt(first, before, targetBps, i) {
      assert StepAt(states, cycles, targetBps, i);
    }
  }

  function RunMoved(cycles: seq<Cycle>): nat {
    if cycles == [] then 0 else RunMoved(cycles[..|cycles| - 1]) + Sum(cycles[|cycles| - 1].moved)
  }

  /** How many cycles of the run moved anything at all. */
  function BusyCycles(cycles: seq<Cycle>): nat {
    if cycles == [] then 0
    else BusyCycles(cycles[..|cycles| - 1]) + (if Sum(cycles[|cycles| - 1].moved) > 0 then 1 else 0)
  }

  lemma {:induction false} SumFIsSumOf(order: seq<ChainId>, f: ChainId -> int, m: Balances)
    requires forall c | c in order :: c in m && m[c] == f(c)
    ensures SumF(order, f) == SumOf(order, m)
  {
    if order != [] {
      assert order[|order| - 1] in order;
      SumFIsSumOf(order[..|order| - 1], f, m);
    }
  }

  lemma {:induction false} TotalGapAnyOrder(order: seq<ChainId>, order': seq<ChainId>, d: Balances, target: nat)
    requires Enumerates(order, d) && Enumerates(order', d)
    ensures TotalGap(order, d, target) == TotalGap(order', d, target) >= 0
  {
    var gaps := map c | c in d :: Gap(d, c, target);
    var f := (c: ChainId) => Gap(d, c, target);
    SumFIsSumOf(order, f, gaps);
    SumFIsSumOf(order', f, gaps);
    SumOfAnyOrder(order, order', gaps);
    SumOfBound(order, gaps, 0);
  }

  lemma {:induction false} RunInvariant(states: seq<Depths>, cycles: seq<Cycle>, order: seq<ChainId>, cfg: CycleConfig)
    requires IsRun(states, cycles, cfg.targetBps) && order != [] && Enumerates(order, states[0])
    ensures var first, last := states[0], states[|cycles|];
            var target := CycleTarget(order, first, cfg);
            && last.Keys == first.Keys
            && SumOf(order, last) == SumOf(order, first)
            && CycleTarget(order, last, cfg) == target
            && TotalGap(order, last, target) == TotalGap(order, first, target) - RunMoved(cycles)
            && BusyCycles(cycles) <= RunMoved(cycles)
  {
    if cycles != [] {
      var n := |cycles| - 1;
      var cycle, d, d' := cycles[n], states[n], states[n + 1];
      RunPrefix(states, cycles, cfg.targetBps);
      RunInvariant(states[..n + 1], cycles[..n], order, cfg);
      assert StepAt(states, cycles, cfg.targetBps, n);
      var target := CycleTarget(cycle.order, d, cycle.cfg);
      PartialExecution(cycle.order, d, cycle.cfg, cycle.moved);
      SumOfAnyOrder(order, cycle.order, d);
      SumOfAnyOrder(order, cycle.order, d');
      TotalDepthIsWrappedSum(order, d);
      TotalDepthIsWrappedSum(cycle.order, d);
      TotalDepthIsWrappedSum(order, d');
      TotalGapAnyOrder(order, cycle.order, d, target);
      TotalGapAnyOrder(order, cycle.order, d', target);
    }
  }

  /**
    Over any number of cycles, whatever parts of their plans are executed: the total and
    the target never change, the total deficit falls by exactly what was moved, so all
    cycles together move no more than the first deficit, and no more than that many
    cycles move anything.
   */
  lemma {:induction false} DeficitBoundsEveryRun(states: seq<Depths>, cycles: seq<Cycle>, order: seq<ChainId>,
      cfg: CycleConfig)
    requires IsRun(states, cycles, cfg.targetBps) && order != [] && Enumerates(order, states[0])
    ensures states[|cycles|].Keys == states[0].Keys
    ensures SumOf(order, states[|cycles|]) == SumOf(order, states[0])
    ensures var target := CycleTarget(order, states[0], cfg);
            && CycleTarget(order, states[|cycles|], cfg) == target
            && TotalGap(order, states[|cycles|], target) == TotalGap(order, states[0], target) - RunMoved(cycles)
            && BusyCycles(cycles) <= RunMoved(cycles) <= TotalGap(order, states[0], target)
  {
    RunInvariant(states, cycles, order, cfg);
    TotalGapAnyOrder(order, order, states[|cycles|], CycleTarget(order, states[0], cfg));
  }
}
