/**
  When a cycle rebalances and towards which target, in plain arithmetic: the decision of
  services/treasury/src/cold_path.rs and services/treasury/src/reserve_path.rs on totals that
  do not wrap.
 */
module CycleDecision {
  import opened Wrappers
  import opened ByteStrings
  import opened Rebalance
  import opened RebalanceCycle
  import opened RebalanceExecution

  lemma {:induction false} QuotientSpan(x: nat, y: nat)
    requires y > 0
    ensures x / y * y <= x < (x / y + 1) * y
  {
    assert x == x / y * y + x % y;
  }

  /** Dividing and comparing is comparing with the product. */
  lemma {:induction false} QuotientBelow(x: nat, y: nat, k: nat)
    requires y > 0
    ensures x / y < k <==> x < k * y
  {
    QuotientSpan(x, y);
    if x / y < k {
      MulMonotonic(x / y + 1, k, y);
    } else {
      MulMonotonic(k, x / y, y);
    }
  }

  /** `target` is the equal share, or the configured share in basis points, rounded down. */
  ghost predicate IsTarget(total: nat, n: nat, targetBps: nat, target: nat) {
    if targetBps == 0 then n * target <= total < n * target + n
    else target * 10000 <= total * targetBps < (target + 1) * 10000
  }

  lemma {:induction false} SharesEqual(a: nat, b: nat, n: nat, x: nat)
    requires n > 0 && a * n <= x < (a + 1) * n && b * n <= x < (b + 1) * n
    ensures a == b
  {
    if a < b {
      MulMonotonic(a + 1, b, n);
    } else if b < a {
      MulMonotonic(b + 1, a, n);
    }
  }

  lemma {:induction false} TargetIsOne(total: nat, n: nat, targetBps: nat, target: nat, other: nat)
    requires n > 0 && IsTarget(total, n, targetBps, target) && IsTarget(total, n, targetBps, other)
    ensures target == other
  {
    if targetBps == 0 {
      assert (target + 1) * n == n * target + n && (other + 1) * n == n * other + n;
      SharesEqual(target, other, n, total);
    } else {
      SharesEqual(target, other, 10000, total * targetBps);
    }
  }

  /** The target of a cycle, by arithmetic alone. */
  lemma {:induction false} CycleTargetIs(order: seq<ChainId>, d: Depths, cfg: CycleConfig)
    requires Enumerates(order, d) && order != [] && cfg.targetBps <= 10000 && SumOf(order, d) * 10000 < U256_LIMIT
    ensures SumOf(order, d) >= 0 && IsTarget(SumOf(order, d), |order|, cfg.targetBps, CycleTarget(order, d, cfg))
  {
    var total, n := SumOf(order, d), |order|;
    TotalDepthIsWrappedSum(order, d);
    WrapSmall(total);
    if cfg.targetBps == 0 {
      QuotientSpan(total, n);
      var t := total / n;
      assert t * n == n * t && (t + 1) * n == n * t + n;
    } else {
      MulMonotonic(cfg.targetBps, 10000, total);
      WrapSmall(total * cfg.targetBps);
      QuotientSpan(total * cfg.targetBps, 10000);
    }
  }

  lemma {:induction false} BelowIsProduct(depth: nat, target: nat, minBps: nat)
    requires depth * 10000 < U256_LIMIT
    ensures BelowMinimum(depth, target, minBps) <==> depth * 10000 < minBps * target
  {
    WrapSmall(depth * 10000);
    if target > 0 {
      QuotientBelow(depth * 10000, target, minBps);
    }
  }

  lemma {:induction false} ZeroTotalHasZeroTarget(total: nat, n: nat, targetBps: nat, target: nat)
    requires n > 0 && total == 0 && IsTarget(total, n, targetBps, target)
    ensures target == 0
  {
    if targetBps == 0 {
      MulMonotonic(1, n, target);
    }
  }

  /**
    On a total that does not wrap, a cycle plans the matching of surpluses and deficits around
    the rounded share exactly when there are two or more chains and some chain holds less than
    the minimum's share of the target; otherwise it plans nothing.
   */
  lemma {:induction false} PlansExactlyWhenBelow(order: seq<ChainId>, d: Depths, cfg: CycleConfig, target: nat)
    requires Enumerates(order, d) && order != [] && CycleEnds(order, d, cfg)
    requires cfg.targetBps <= 10000 && 0 <= SumOf(order, d) && SumOf(order, d) * 10000 < U256_LIMIT
    requires IsTarget(SumOf(order, d), |order|, cfg.targetBps, target)
    ensures var below := |order| >= 2 && exists c | c in order :: d[c] * 10000 < cfg.minBps * target;
            && (below ==> Progresses(Surpluses(order, d, target), Deficits(order, d, target), cfg.maxPerOp))
            && CyclePlan(order, d, cfg)
               == if below then PlanOps(Surpluses(order, d, target), Deficits(order, d, target), cfg.maxPerOp) else []
  {
    CycleTargetIs(order, d, cfg);
    TargetIsOne(SumOf(order, d), |order|, cfg.targetBps, target, CycleTarget(order, d, cfg));
    TotalDepthIsWrappedSum(order, d);
    WrapSmall(SumOf(order, d));
    forall c | c in order ensures BelowMinimum(d[c], target, cfg.minBps) <==> d[c] * 10000 < cfg.minBps * target {
      SumOfBound(order, d, c);
      MulMonotonic(d[c], SumOf(order, d), 10000);
      BelowIsProduct(d[c], target, cfg.minBps);
    }
    if SumOf(order, d) == 0 {
      ZeroTotalHasZeroTarget(SumOf(order, d), |order|, cfg.targetBps, target);
    }
  }

  /** The limit is two to the 256th. */
  lemma {:induction false} LimitIsPower()
    ensures U256_LIMIT == Pow256(32)
  {
    PowersMultiply(8, 8);
    PowersMultiply(16, 16);
    assert Pow256(8) == 0x1_0000000000000000 by {
      PowersMultiply(4, 4);
      PowersMultiply(2, 2);
    }
  }

  lemma {:induction false} PowersMultiply(a: nat, b: nat)
    ensures Pow256(a + b) == Pow256(a) * Pow256(b)
  {
    if a > 0 {
      PowersMultiply(a - 1, b);
      assert Pow256(a + b) == 256 * Pow256(a - 1 + b);
      assert 256 * (Pow256(a - 1) * Pow256(b)) == 256 * Pow256(a - 1) * Pow256(b);
    }
  }
}
