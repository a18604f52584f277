/**
  What the greedy plan promises: conservation, bounds per chain, its length, and that
  a cap only splits the ops of the uncapped plan.
 */
module RebalanceLaws {
  import opened Wrappers
  import opened Rebalance

  // ----- Chunks -----

  /** `split_amount_by_cap`. */
  function Chunks(amount: nat, cap: nat): seq<nat> {
    if amount == 0 || cap == 0 then []
    else if amount <= cap then [amount]
    else [cap] + Chunks(amount - cap, cap)
  }

  function Sum(xs: seq<nat>): nat {
    if xs == [] then 0 else xs[0] + Sum(xs[1..])
  }

  /**
    The chunks of an amount add up to it, none is zero or above the cap, and all but the
    last are equal to the cap.
   */
  lemma {:induction false} ChunksOfAmount(amount: nat, cap: nat)
    ensures cap > 0 ==> Sum(Chunks(amount, cap)) == amount
    ensures cap > 0 ==> (Chunks(amount, cap) == [] <==> amount == 0)
    ensures forall x | x in Chunks(amount, cap) :: 0 < x <= cap
    ensures forall i | 0 <= i < |Chunks(amount, cap)| - 1 :: Chunks(amount, cap)[i] == cap
  {
    if amount > cap > 0 {
      ChunksOfAmount(amount - cap, cap);
      assert Chunks(amount, cap)[1..] == Chunks(amount - cap, cap);
    } else if amount > 0 && cap > 0 {
      assert Sum([amount]) == amount + Sum([]);
    }
  }

  method SplitAmountByCap(amount: nat, cap: nat) returns (chunks: seq<nat>)
    ensures chunks == Chunks(amount, cap)
  {
    if amount == 0 || cap == 0 {
      return [];
    }
    chunks := [];
    var remaining: nat := amount;
    while remaining > 0
      invariant remaining <= amount
      invariant chunks + Chunks(remaining, cap) == Chunks(amount, cap)
      decreases remaining
    {
      var chunk := Min(remaining, cap);
      chunks := chunks + [chunk];
      remaining := remaining - chunk;
    }
  }

  /** One op for every chunk of `op`. */
  function ChunkOp(op: Op, cap: nat): seq<Op>
    decreases op.amount
  {
    if op.amount == 0 || cap == 0 then []
    else if op.amount <= cap then [op]
    else [op.(amount := cap)] + ChunkOp(op.(amount := op.amount - cap), cap)
  }

  function ChunkOps(ops: seq<Op>, cap: nat): seq<Op> {
    if ops == [] then [] else ChunkOp(ops[0], cap) + ChunkOps(ops[1..], cap)
  }

  /** The chunked op is `Chunks` of its amount, each chunk between the same two chains. */
  lemma {:induction false} ChunkOpIsChunks(op: Op, cap: nat)
    ensures ChunkOp(op, cap)
         == seq(|Chunks(op.amount, cap)|,
                i requires 0 <= i < |Chunks(op.amount, cap)| => op.(amount := Chunks(op.amount, cap)[i]))
    decreases op.amount
  {
    if op.amount > cap > 0 {
      ChunkOpIsChunks(op.(amount := op.amount - cap), cap);
    }
  }

  /**
    A cap changes the plan only by splitting: every op of the uncapped plan is replaced,
    in place, by its chunks.
   */
  lemma {:induction false} CappedMatchIsChunkedMatch(sur: seq<Entry>, def: seq<Entry>, cap: nat)
    requires cap > 0
    ensures Match(sur, def, Some(cap)) == ChunkOps(Match(sur, def, None), cap)
    decreases Total(sur) + Total(def) + |sur| + |def|
  {
    if sur == [] || def == [] {
    } else if sur[0].amount == 0 {
      CappedMatchIsChunkedMatch(sur[1..], def, cap);
    } else if def[0].amount == 0 {
      CappedMatchIsChunkedMatch(sur, def[1..], cap);
    } else {
      var full := Min(sur[0].amount, def[0].amount);
      var m := Min(full, cap);
      TakeTotal(sur, m);
      TakeTotal(def, m);
      CappedMatchIsChunkedMatch(Take(sur, m), Take(def, m), cap);
      if full <= cap {
        CappedStepWhole(sur, def, cap, full);
      } else {
        CappedStepSplit(sur, def, cap, full);
      }
    }
  }

  lemma {:induction false} ChunkOpsCons(op: Op, rest: seq<Op>, cap: nat)
    ensures ChunkOps([op] + rest, cap) == ChunkOp(op, cap) + ChunkOps(rest, cap)
  {
    assert ([op] + rest)[1..] == rest;
  }

  /** A pair whose allocation fits the cap is matched the same way with and without it. */
  lemma {:induction false} CappedStepWhole(sur: seq<Entry>, def: seq<Entry>, cap: nat, m: nat)
    requires cap > 0 && sur != [] && def != [] && sur[0].amount > 0 && def[0].amount > 0
    requires m == Min(sur[0].amount, def[0].amount) <= cap
    requires Match(Take(sur, m), Take(def, m), Some(cap)) == ChunkOps(Match(Take(sur, m), Take(def, m), None), cap)
    ensures Match(sur, def, Some(cap)) == ChunkOps(Match(sur, def, None), cap)
  {
    MatchTakes(sur, def, None, m);
    MatchTakes(sur, def, Some(cap), m);
    ChunkOpsCons(Op(sur[0].chain, def[0].chain, m), Match(Take(sur, m), Take(def, m), None), cap);
  }

  /** A pair whose allocation exceeds the cap gives one full chunk and stays matched. */
  lemma {:induction false} CappedStepSplit(sur: seq<Entry>, def: seq<Entry>, cap: nat, full: nat)
    requires cap > 0 && sur != [] && def != [] && sur[0].amount > 0 && def[0].amount > 0
    requires full == Min(sur[0].amount, def[0].amount) > cap
    requires Match(Take(sur, cap), Take(def, cap), Some(cap))
            == ChunkOps(Match(Take(sur, cap), Take(def, cap), None), cap)
    ensures Match(sur, def, Some(cap)) == ChunkOps(Match(sur, def, None), cap)
  {
    var op := Op(sur[0].chain, def[0].chain, full);
    var sur', def' := Take(sur, cap), Take(def, cap);
    var rest := Match(Take(sur, full), Take(def, full), None);
    assert Take(sur', full - cap) == Take(sur, full) && Take(def', full - cap) == Take(def, full);
    MatchTakes(sur, def, Some(cap), cap);
    MatchTakes(sur, def, None, full);
    MatchTakes(sur', def', None, full - cap);
    ChunkOpsCons(op, rest, cap);
    ChunkOpsCons(op.(amount := full - cap), rest, cap);
  }

  /** For every positive cap, `compute_rebalance_ops` under the cap is its chunked uncapped plan. */
  lemma {:induction false} CappedPlanIsChunkedPlan(sur: seq<Entry>, def: seq<Entry>, cap: nat)
    requires cap > 0
    ensures PlanOps(sur, def, Some(cap)) == ChunkOps(PlanOps(sur, def, None), cap)
  {
    CappedMatchIsChunkedMatch(SortDesc(sur), SortDesc(def), cap);
  }

  // ----- Conservation -----

  lemma {:induction false} AmountOfTake(es: seq<Entry>, m: nat, c: ChainId)
    requires es != [] && m <= es[0].amount
    ensures AmountOf(Take(es, m), c) == AmountOf(es, c) - (if es[0].chain == c then m else 0)
  {
    assert Take(es, m)[1..] == es[1..];
  }

  lemma {:induction false} MatchConserves(sur: seq<Entry>, def: seq<Entry>, cap: Option<nat>, c: ChainId)
    requires Progresses(sur, def, cap)
    ensures var ops := Match(sur, def, cap);
            && Moved(ops) == Min(Total(sur), Total(def))
            && OutOf(ops, c) <= AmountOf(sur, c)
            && Into(ops, c) <= AmountOf(def, c)
            && (Total(sur) <= Total(def) ==> OutOf(ops, c) == AmountOf(sur, c))
            && (Total(def) <= Total(sur) ==> Into(ops, c) == AmountOf(def, c))
    decreases Total(sur) + Total(def) + |sur| + |def|
  {
    if sur == [] || def == [] {
      AmountOfBelowTotal(sur, c);
      AmountOfBelowTotal(def, c);
    } else if sur[0].amount == 0 {
      MatchConserves(sur[1..], def, cap, c);
    } else if def[0].amount == 0 {
      MatchConserves(sur, def[1..], cap, c);
    } else {
      var m := Capped(Min(sur[0].amount, def[0].amount), cap);
      MatchTakes(sur, def, cap, m);
      TakeTotal(sur, m);
      TakeTotal(def, m);
      AmountOfTake(sur, m, c);
      AmountOfTake(def, m, c);
      MatchConserves(Take(sur, m), Take(def, m), cap, c);
      var rest := Match(Take(sur, m), Take(def, m), cap);
      assert ([Op(sur[0].chain, def[0].chain, m)] + rest)[1..] == rest;
    }
  }

  /**
    The plan moves exactly the smaller of the two totals, takes no more than its surplus
    from any chain and gives no more than its deficit to any chain; the side with the
    smaller total is served in full.
   */
  lemma {:induction false} PlanConserves(sur: seq<Entry>, def: seq<Entry>, cap: Option<nat>, c: ChainId)
    requires Progresses(sur, def, cap)
    ensures var ops := PlanOps(sur, def, cap);
            && Moved(ops) == Min(Total(sur), Total(def))
            && OutOf(ops, c) <= AmountOf(sur, c)
            && Into(ops, c) <= AmountOf(def, c)
            && (Total(sur) <= Total(def) ==> OutOf(ops, c) == AmountOf(sur, c))
            && (Total(def) <= Total(sur) ==> Into(ops, c) == AmountOf(def, c))
  {
    SortDescSums(sur, c);
    SortDescSums(def, c);
    MatchConserves(SortDesc(sur), SortDesc(def), cap, c);
  }

  ghost predicate WithinCap(ops: seq<Op>, cap: Option<nat>) {
    forall i | 0 <= i < |ops| :: 0 < ops[i].amount && (cap.Some? ==> ops[i].amount <= cap.value)
  }

  lemma {:induction false} MatchOps(sur: seq<Entry>, def: seq<Entry>, cap: Option<nat>)
    requires Progresses(sur, def, cap)
    ensures var ops := Match(sur, def, cap);
            && WithinCap(ops, cap)
            && (cap.None? && ops != [] ==> |ops| <= |sur| + |def| - 1)
    decreases Total(sur) + Total(def) + |sur| + |def|
  {
    if sur == [] || def == [] {
    } else if sur[0].amount == 0 {
      MatchOps(sur[1..], def, cap);
    } else if def[0].amount == 0 {
      MatchOps(sur, def[1..], cap);
    } else {
      var m := Capped(Min(sur[0].amount, def[0].amount), cap);
      MatchTakes(sur, def, cap, m);
      TakeTotal(sur, m);
      TakeTotal(def, m);
      var sur', def' := Take(sur, m), Take(def, m);
      MatchSettles(sur', def', cap);
      MatchSettles(Settle(sur'), def', cap);
      MatchOps(sur', def', cap);
      MatchOps(Settle(sur'), Settle(def'), cap);
    }
  }

  /** Every op moves something within the cap, and without a cap the plan is short. */
  lemma {:induction false} PlanIsShort(sur: seq<Entry>, def: seq<Entry>, cap: Option<nat>)
    requires Progresses(sur, def, cap)
    ensures var ops := PlanOps(sur, def, cap);
            && WithinCap(ops, cap)
            && (cap.None? && ops != [] ==> |ops| <= |sur| + |def| - 1)
  {
    SortDescSums(sur, 0);
    SortDescSums(def, 0);
    MatchOps(SortDesc(sur), SortDesc(def), cap);
  }
}
