/**
  One planning cycle over pool (or reserve) depths, and what executing its ops does to
  the depths (services/treasury/src/cold_path.rs, services/treasury/src/reserve_path.rs).

  The reserve planner is the cold-path planner with `targetBps == 0`.
 */
module RebalanceCycle {
  import opened Wrappers
  import opened Rebalance

  const BPS: nat := 10_000

  /** 2^256: `+` and `*` on U256 wrap around. */
  const U256_LIMIT: nat := 0x1_0000000000000000_0000000000000000_0000000000000000_0000000000000000

  function Wrap(x: nat): nat {
    x % U256_LIMIT
  }

  lemma {:induction false} WrapSmall(x: nat)
    requires x < U256_LIMIT
    ensures Wrap(x) == x
  {
  }

  type Depths = map<ChainId, nat>

  datatype CycleConfig = CycleConfig(minBps: nat, targetBps: nat, maxPerOp: Option<nat>)

  /** `order` lists every chain of `depths` once: the iteration order of the hash map. */
  ghost predicate Enumerates(order: seq<ChainId>, depths: map<ChainId, int>) {
    && Distinct(order)
    && (forall i | 0 <= i < |order| :: order[i] in depths)
    && (forall c | c in depths :: c in order)
  }

  // ----- Planning -----

  /** The fold of the source, wrapping at every addition. */
  function TotalDepth(order: seq<ChainId>, depths: Depths): nat
    requires forall c | c in order :: c in depths
  {
    if order == [] then 0
    else Wrap(TotalDepth(order[..|order| - 1], depths) + depths[order[|order| - 1]])
  }

  function TargetDepth(total: nat, n: nat, targetBps: nat): nat
    requires n > 0
  {
    if targetBps == 0 then total / n else Wrap(total * targetBps) / BPS
  }

  predicate BelowMinimum(depth: nat, target: nat, minBps: nat) {
    target != 0 && Wrap(depth * BPS) / target < minBps
  }

  function Surpluses(order: seq<ChainId>, depths: Depths, target: nat): seq<Entry>
    requires forall c | c in order :: c in depths
  {
    if order == [] then []
    else
      var last := order[|order| - 1];
      Surpluses(order[..|order| - 1], depths, target)
      + (if depths[last] > target then [Entry(last, depths[last] - target)] else [])
  }

  function Deficits(order: seq<ChainId>, depths: Depths, target: nat): seq<Entry>
    requires forall c | c in order :: c in depths
  {
    if order == [] then []
    else
      var last := order[|order| - 1];
      Deficits(order[..|order| - 1], depths, target)
      + (if depths[last] < target then [Entry(last, target - depths[last])] else [])
  }

  function CycleTarget(order: seq<ChainId>, depths: Depths, cfg: CycleConfig): nat
    requires order != [] && forall c | c in order :: c in depths
  {
    TargetDepth(TotalDepth(order, depths), |order|, cfg.targetBps)
  }

  predicate Triggered(order: seq<ChainId>, depths: Depths, cfg: CycleConfig)
    requires forall c | c in order :: c in depths
  {
    && |order| >= 2
    && TotalDepth(order, depths) != 0
    && exists c | c in order :: BelowMinimum(depths[c], CycleTarget(order, depths, cfg), cfg.minBps)
  }

  /** The matching loop of the cycle ends: it is not reached, or it makes progress. */
  predicate CycleEnds(order: seq<ChainId>, depths: Depths, cfg: CycleConfig)
    requires forall c | c in order :: c in depths
  {
    Triggered(order, depths, cfg) ==>
      var target := CycleTarget(order, depths, cfg);
      Progresses(Surpluses(order, depths, target), Deficits(order, depths, target), cfg.maxPerOp)
  }

  /** The ops of one cycle. */
  function CyclePlan(order: seq<ChainId>, depths: Depths, cfg: CycleConfig): seq<Op>
    requires forall c | c in order :: c in depths
    requires CycleEnds(order, depths, cfg)
  {
    if !Triggered(order, depths, cfg) then []
    else
      var target := CycleTarget(order, depths, cfg);
      PlanOps(Surpluses(order, depths, target), Deficits(order, depths, target), cfg.maxPerOp)
  }

  method FoldDepths(order: seq<ChainId>, depths: Depths) returns (total: nat)
    requires forall c | c in order :: c in depths
    ensures total == TotalDepth(order, depths)
  {
    total := 0;
    for i := 0 to |order|
      invariant total == TotalDepth(order[..i], depths)
    {
      assert order[..i + 1][..i] == order[..i];
      total := Wrap(total + depths[order[i]]);
    }
    assert order[..|order|] == order;
  }

  method AnyBelowMinimum(order: seq<ChainId>, depths: Depths, target: nat, minBps: nat) returns (any: bool)
    requires forall c | c in order :: c in depths
    ensures any <==> exists c | c in order :: BelowMinimum(depths[c], target, minBps)
  {
    any := false;
    for i := 0 to |order|
      invariant any <==> exists c | c in order[..i] :: BelowMinimum(depths[c], target, minBps)
    {
      assert order[..i + 1] == order[..i] + [order[i]];
      any := any || BelowMinimum(depths[order[i]], target, minBps);
    }
    assert order[..|order|] == order;
  }

  method SplitAroundTarget(order: seq<ChainId>, depths: Depths, target: nat)
    returns (surpluses: seq<Entry>, deficits: seq<Entry>)
    requires forall c | c in order :: c in depths
    ensures surpluses == Surpluses(order, depths, target)
    ensures deficits == Deficits(order, depths, target)
  {
    surpluses, deficits := [], [];
    for i := 0 to |order|
      invariant surpluses == Surpluses(order[..i], depths, target)
      invariant deficits == Deficits(order[..i], depths, target)
    {
      assert order[..i + 1][..i] == order[..i];
      var chain := order[i];
      if depths[chain] > target {
        surpluses := surpluses + [Entry(chain, depths[chain] - target)];
      } else if depths[chain] < target {
        deficits := deficits + [Entry(chain, target - depths[chain])];
      }
    }
    assert order[..|order|] == order;
  }

  /** The planning half of `run_rebalance_cycle`. */
  method PlanCycle(order: seq<ChainId>, depths: Depths, cfg: CycleConfig) returns (ops: seq<Op>)
    requires Enumerates(order, depths)
    requires CycleEnds(order, depths, cfg)
    ensures ops == CyclePlan(order, depths, cfg)
  {
    if |order| < 2 {
      return [];
    }
    var total := FoldDepths(order, depths);
    if total == 0 {
      return [];
    }
    var target := TargetDepth(total, |order|, cfg.targetBps);
    var anyDeficit := AnyBelowMinimum(order, depths, target, cfg.minBps);
    if !anyDeficit {
      return [];
    }
    var surpluses, deficits := SplitAroundTarget(order, depths, target);
    ops := ComputeRebalanceOps(surpluses, deficits, cfg.maxPerOp);
  }

  /** The planning half of the reserve path's `run_planner_cycle`: a cycle with equal targets. */
  method PlanReserveCycle(order: seq<ChainId>, depths: Depths, minBps: nat, maxPerOp: Option<nat>)
      returns (ops: seq<Op>)
    requires Enumerates(order, depths)
    requires CycleEnds(order, depths, CycleConfig(minBps, 0, maxPerOp))
    ensures ops == CyclePlan(order, depths, CycleConfig(minBps, 0, maxPerOp))
  {
    if |order| < 2 {
      return [];
    }
    var total := FoldDepths(order, depths);
    if total == 0 {
      return [];
    }
    var target := total / |order|;
    if target == 0 {
      return [];
    }
    var anyDeficit := AnyBelowMinimum(order, depths, target, minBps);
    if !anyDeficit {
      return [];
    }
    var surpluses, deficits := SplitAroundTarget(order, depths, target);
    ops := ComputeRebalanceOps(surpluses, deficits, maxPerOp);
  }

  // ----- Sums over chains -----

  function SumOf(order: seq<ChainId>, m: map<ChainId, int>): int
    requires forall c | c in order :: c in m
  {
    if order == [] then 0
    else SumOf(order[..|order| - 1], m) + m[order[|order| - 1]]
  }

  lemma {:induction false} SumOfUpdate(order: seq<ChainId>, m: map<ChainId, int>, c: ChainId, v: int)
    requires Distinct(order) && forall k | k in order :: k in m
    ensures c in order ==> SumOf(order, m[c := v]) == SumOf(order, m) - m[c] + v
    ensures c !in order ==> SumOf(order, m[c := v]) == SumOf(order, m)
  {
    if order != [] {
      var init, last := order[..|order| - 1], order[|order| - 1];
      SumOfUpdate(init, m, c, v);
      if c == last {
        assert c !in init;
      }
    }
  }

  lemma {:induction false} SumOfBound(order: seq<ChainId>, m: map<ChainId, int>, c: ChainId)
    requires forall k | k in order :: k in m && m[k] >= 0
    ensures SumOf(order, m) >= 0
    ensures c in order ==> m[c] <= SumOf(order, m)
  {
    if order != [] {
      SumOfBound(order[..|order| - 1], m, c);
    }
  }

  /** A wrapped fold is the wrapped sum. */
  lemma {:induction false} TotalDepthIsWrappedSum(order: seq<ChainId>, depths: Depths)
    requires forall c | c in order :: c in depths
    ensures SumOf(order, depths) >= 0 && TotalDepth(order, depths) == Wrap(SumOf(order, depths))
  {
    if order != [] {
      TotalDepthIsWrappedSum(order[..|order| - 1], depths);
    }
  }

  lemma {:induction false} RemoveMembers(order: seq<ChainId>, k: nat)
    requires Distinct(order) && k < |order|
    ensures Distinct(order[..k] + order[k + 1..])
    ensures forall c :: c in order[..k] + order[k + 1..] <==> c in order && c != order[k]
  {
    assert order == order[..k] + [order[k]] + order[k + 1..];
  }

  lemma {:induction false} EmptyOrListed(order: seq<ChainId>)
    ensures order == [] || exists c :: c in order
  {
    if order != [] {
      assert order[0] in order;
    }
  }

  /** The sum does not depend on the iteration order of the hash map. */
  lemma {:induction false} SumOfAnyOrder(order: seq<ChainId>, order': seq<ChainId>, m: map<ChainId, int>)
    requires Distinct(order) && Distinct(order')
    requires forall c :: c in order <==> c in order'
    requires forall c | c in order :: c in m
    ensures SumOf(order, m) == SumOf(order', m) && |order| == |order'|
  {
    if order == [] {
      EmptyOrListed(order');
    } else {
      var n := |order| - 1;
      assert order[n] in order';
      var k :| 0 <= k < |order'| && order'[k] == order[n];
      RemoveMembers(order, n);
      RemoveMembers(order', k);
      assert order[..n] + order[n + 1..] == order[..n];
      SumOfRemove(order', k, m);
      var init, rest := order[..n], order'[..k] + order'[k + 1..];
      forall c ensures c in init <==> c in rest {
        assert c in order[..n] + order[n + 1..] <==> c in order && c != order[n];
      }
      SumOfAnyOrder(init, rest, m);
    }
  }

  lemma {:induction false} SumOfRemove(order: seq<ChainId>, k: nat, m: map<ChainId, int>)
    requires k < |order| && forall c | c in order :: c in m
    ensures forall c | c in order[..k] + order[k + 1..] :: c in m
    ensures SumOf(order, m) == SumOf(order[..k] + order[k + 1..], m) + m[order[k]]
  {
    var n := |order| - 1;
    if k == n {
      assert order[..k] + order[k + 1..] == order[..n];
    } else {
      SumOfRemove(order[..n], k, m);
      var rest := order[..k] + order[k + 1..];
      assert rest[..|rest| - 1] == order[..n][..k] + order[..n][k + 1..];
      assert rest[|rest| - 1] == order[n];
    }
  }
}
