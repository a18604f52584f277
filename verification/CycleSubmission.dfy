/**
  When one cold-path cycle can get its whole plan submitted
  (services/treasury/src/cold_path.rs): a plan that names an ordered pair of chains twice
  cannot, because the first op is in flight when the second comes up.
 */
module CycleSubmission {
  import opened Wrappers
  import opened Rebalance
  import opened RebalanceLaws
  import opened RebalanceCycle
  import opened RebalanceExecution
  import opened RebalanceRepo
  import opened ColdPath

  predicate SamePair(a: Op, b: Op) {
    a.source == b.source && a.dest == b.dest
  }

  ghost predicate NoPairRepeats(ops: seq<Op>) {
    forall i, j | 0 <= i < j < |ops| :: !SamePair(ops[i], ops[j])
  }

  // ----- One entry for each chain -----

  function Count(es: seq<Entry>, c: ChainId): nat {
    if es == [] then 0 else (if es[0].chain == c then 1 else 0) + Count(es[1..], c)
  }

  ghost predicate OneEach(es: seq<Entry>) {
    forall c :: Count(es, c) <= 1
  }

  lemma {:induction false} CountCons(e: Entry, es: seq<Entry>, c: ChainId)
    ensures Count([e] + es, c) == (if e.chain == c then 1 else 0) + Count(es, c)
  {
    assert ([e] + es)[1..] == es;
  }

  lemma {:induction false} CountAppend(es: seq<Entry>, e: Entry, c: ChainId)
    ensures Count(es + [e], c) == Count(es, c) + (if e.chain == c then 1 else 0)
  {
    if es == [] {
      assert es + [e] == [e] + [];
      CountCons(e, [], c);
    } else {
      CountAppend(es[1..], e, c);
      assert es + [e] == [es[0]] + (es[1..] + [e]);
      CountCons(es[0], es[1..] + [e], c);
    }
  }

  lemma {:induction false} InsertCount(e: Entry, es: seq<Entry>, c: ChainId)
    ensures Count(InsertDesc(e, es), c) == (if e.chain == c then 1 else 0) + Count(es, c)
  {
    if es == [] || es[0].amount <= e.amount {
      CountCons(e, es, c);
    } else {
      InsertCount(e, es[1..], c);
      CountCons(es[0], InsertDesc(e, es[1..]), c);
    }
  }

  lemma {:induction false} SortCount(es: seq<Entry>, c: ChainId)
    ensures Count(SortDesc(es), c) == Count(es, c)
  {
    if es != [] {
      SortCount(es[1..], c);
      InsertCount(es[0], SortDesc(es[1..]), c);
    }
  }

  lemma {:induction false} NoneMeansNothing(es: seq<Entry>, c: ChainId)
    requires Count(es, c) == 0
    ensures AmountOf(es, c) == 0
  {
    if es != [] {
      NoneMeansNothing(es[1..], c);
    }
  }

  lemma {:induction false} TakeCount(es: seq<Entry>, m: nat)
    requires es != [] && m <= es[0].amount && OneEach(es)
    ensures OneEach(Take(es, m))
    ensures m == es[0].amount ==> AmountOf(Take(es, m), es[0].chain) == 0
  {
    var head := Entry(es[0].chain, es[0].amount - m);
    forall c ensures Count(Take(es, m), c) == Count(es, c) {
      CountCons(head, es[1..], c);
    }
    assert Count(es, es[0].chain) <= 1;
    NoneMeansNothing(es[1..], es[0].chain);
    AmountOfTake(es, m, es[0].chain);
  }

  lemma {:induction false} TailOneEach(es: seq<Entry>)
    requires es != [] && OneEach(es)
    ensures OneEach(es[1..])
  {
    forall c ensures Count(es[1..], c) <= 1 {
      assert Count(es, c) <= 1;
    }
  }

  // ----- Uncapped plans name no pair twice -----

  lemma {:induction false} NoOpWithout(ops: seq<Op>, cap: Option<nat>, i: nat, source: ChainId, dest: ChainId)
    requires i < |ops| && WithinCap(ops, cap) && (OutOf(ops, source) == 0 || Into(ops, dest) == 0)
    ensures ops[i].source != source || ops[i].dest != dest
  {
    OpWithinItsChains(ops, i);
  }

  lemma {:induction false} RestAvoidsHeads(sur: seq<Entry>, def: seq<Entry>, i: nat)
    requires sur != [] && def != [] && OneEach(sur) && OneEach(def)
    requires var m := Min(sur[0].amount, def[0].amount); i < |Match(Take(sur, m), Take(def, m), None)|
    ensures var m := Min(sur[0].amount, def[0].amount);
            var op := Match(Take(sur, m), Take(def, m), None)[i]; op.source != sur[0].chain || op.dest != def[0].chain
  {
    var m := Min(sur[0].amount, def[0].amount);
    var rest := Match(Take(sur, m), Take(def, m), None);
    TakeCount(sur, m);
    TakeCount(def, m);
    MatchConserves(Take(sur, m), Take(def, m), None, sur[0].chain);
    MatchConserves(Take(sur, m), Take(def, m), None, def[0].chain);
    MatchOps(Take(sur, m), Take(def, m), None);
    NoOpWithout(rest, None, i, sur[0].chain, def[0].chain);
  }

  lemma {:induction false} MatchNamesPairsOnce(sur: seq<Entry>, def: seq<Entry>)
    requires OneEach(sur) && OneEach(def)
    ensures NoPairRepeats(Match(sur, def, None))
    decreases Total(sur) + Total(def) + |sur| + |def|
  {
    if sur == [] || def == [] {
    } else if sur[0].amount == 0 {
      TailOneEach(sur);
      MatchNamesPairsOnce(sur[1..], def);
    } else if def[0].amount == 0 {
      TailOneEach(def);
      MatchNamesPairsOnce(sur, def[1..]);
    } else {
      var m := Min(sur[0].amount, def[0].amount);
      TakeTotal(sur, m);
      TakeTotal(def, m);
      TakeCount(sur, m);
      TakeCount(def, m);
      MatchNamesPairsOnce(Take(sur, m), Take(def, m));
      MatchTakes(sur, def, None, m);
      var rest := Match(Take(sur, m), Take(def, m), None);
      forall i | 0 <= i < |rest| ensures !SamePair(Op(sur[0].chain, def[0].chain, m), rest[i]) {
        RestAvoidsHeads(sur, def, i);
      }
    }
  }

  lemma {:induction false} UncappedNamesPairsOnce(sur: seq<Entry>, def: seq<Entry>)
    requires OneEach(sur) && OneEach(def)
    ensures NoPairRepeats(PlanOps(sur, def, None))
  {
    forall c ensures Count(SortDesc(sur), c) <= 1 && Count(SortDesc(def), c) <= 1 {
      SortCount(sur, c);
      SortCount(def, c);
    }
    MatchNamesPairsOnce(SortDesc(sur), SortDesc(def));
  }

  // ----- Chunking repeats a pair exactly when it splits an op -----

  ghost predicate AllWithin(ops: seq<Op>, cap: nat) {
    forall i | 0 <= i < |ops| :: ops[i].amount <= cap
  }

  lemma {:induction false} WholeOpsStay(ops: seq<Op>, cap: nat)
    requires cap > 0 && AllWithin(ops, cap) && WithinCap(ops, None)
    ensures ChunkOps(ops, cap) == ops
  {
    if ops != [] {
      assert ops[0].amount <= cap && 0 < ops[0].amount;
      assert AllWithin(ops[1..], cap) && WithinCap(ops[1..], None);
      WholeOpsStay(ops[1..], cap);
    }
  }

  lemma {:induction false} SplitOpRepeats(ops: seq<Op>, cap: nat, k: nat)
    requires cap > 0 && k < |ops| && ops[k].amount > cap
    ensures !NoPairRepeats(ChunkOps(ops, cap))
  {
    var first, rest := ChunkOp(ops[0], cap), ChunkOps(ops[1..], cap);
    var all := first + rest;
    if k == 0 {
      var more := ops[0].(amount := ops[0].amount - cap);
      ChunkOpNonEmpty(more, cap);
      assert first == [ops[0].(amount := cap)] + ChunkOp(more, cap);
      assert SamePair(all[0], all[1]);
    } else {
      SplitOpRepeats(ops[1..], cap, k - 1);
      var i, j :| 0 <= i < j < |rest| && SamePair(rest[i], rest[j]);
      assert all[|first| + i] == rest[i] && all[|first| + j] == rest[j];
    }
  }

  lemma {:induction false} ChunkOpNonEmpty(op: Op, cap: nat)
    requires cap > 0 && op.amount > 0
    ensures ChunkOp(op, cap) != [] && SamePair(ChunkOp(op, cap)[0], op)
  {
  }

  /** A capped plan names no pair twice exactly when the cap splits no op of the uncapped plan. */
  lemma {:induction false} CappedNamesPairsOnceExactly(sur: seq<Entry>, def: seq<Entry>, cap: nat)
    requires OneEach(sur) && OneEach(def) && cap > 0
    ensures NoPairRepeats(PlanOps(sur, def, Some(cap))) <==> AllWithin(PlanOps(sur, def, None), cap)
  {
    var ops := PlanOps(sur, def, None);
    CappedPlanIsChunkedPlan(sur, def, cap);
    UncappedNamesPairsOnce(sur, def);
    PlanIsShort(sur, def, None);
    if AllWithin(ops, cap) {
      WholeOpsStay(ops, cap);
    } else {
      var k :| 0 <= k < |ops| && ops[k].amount > cap;
      SplitOpRepeats(ops, cap, k);
    }
  }

  // ----- Submitting op after op -----

  ghost predicate Stamped(rows: Rows) {
    forall id | id in rows :: rows[id].source == id.source && rows[id].dest == id.dest && rows[id].createdAt == id.ms
  }

  /** The table after an op was submitted and confirmed in full. */
  function Confirmed(rows: Rows, op: Op, now: nat): Rows {
    var id := OpId(op.source, op.dest, now);
    MarkedSubmitted(Inserted(rows, id, op.amount, now), id, "", None)
  }

  /** A cycle that begins and ends within a day. */
  ghost predicate WithinDay(times: seq<nat>) {
    forall i, j | 0 <= i <= j < |times| :: times[i] <= times[j] < times[i] + DAY_MS
  }

  /**
    The cycle's check lets every op of the list pass when it comes up at its time, all earlier
    ones having been confirmed and having moved their amounts.
   */
  ghost predicate SubmitsWhole(rows: Rows, d: Balances, ops: seq<Op>, times: seq<nat>)
    requires |times| == |ops| && Endpoints(d, ops)
    decreases |ops|
  {
    ops == []
    || var op := ops[0];
       && d[op.source] >= 0
       && EvaluateRebalanceOp(d[op.source], op.amount, InFlight(rows, op.source, op.dest, times[0])) == Submit
       && SubmitsWhole(Confirmed(rows, op, times[0]), Transfer(d, op, op.amount), ops[1..], times[1..])
  }

  /** The half of the check that looks at the table: every op finds its pair idle. */
  ghost predicate PairsIdle(rows: Rows, ops: seq<Op>, times: seq<nat>)
    requires |times| == |ops|
    decreases |ops|
  {
    ops == []
    || (!InFlight(rows, ops[0].source, ops[0].dest, times[0])
        && PairsIdle(Confirmed(rows, ops[0], times[0]), ops[1..], times[1..]))
  }

  /** The half that looks at the source: every op finds its amount there. */
  ghost predicate DepthsSuffice(d: Balances, ops: seq<Op>)
    requires Endpoints(d, ops)
  {
    ops == [] || (ops[0].amount <= d[ops[0].source] && DepthsSuffice(Transfer(d, ops[0], ops[0].amount), ops[1..]))
  }

  lemma {:induction false} BothHalves(rows: Rows, d: Balances, ops: seq<Op>, times: seq<nat>)
    requires |times| == |ops| && Endpoints(d, ops)
    ensures SubmitsWhole(rows, d, ops, times) <==> PairsIdle(rows, ops, times) && DepthsSuffice(d, ops)
    decreases |ops|
  {
    if ops != [] {
      BothHalves(Confirmed(rows, ops[0], times[0]), Transfer(d, ops[0], ops[0].amount), ops[1..], times[1..]);
    }
  }

  /** Ops that take no more than what is there find it when they come up. */
  lemma {:induction false} OutgoingSuffices(d: Balances, ops: seq<Op>)
    requires Endpoints(d, ops) && forall c | c in d :: OutOf(ops, c) <= d[c]
    ensures DepthsSuffice(d, ops)
  {
    if ops != [] {
      var d' := Transfer(d, ops[0], ops[0].amount);
      forall c | c in d' ensures OutOf(ops[1..], c) <= d'[c] {
        assert OutOf(ops, c) <= d[c];
      }
      assert OutOf(ops, ops[0].source) <= d[ops[0].source];
      OutgoingSuffices(d', ops[1..]);
    }
  }

  ghost predicate Idle(rows: Rows, ops: seq<Op>, times: seq<nat>)
    requires |times| == |ops|
  {
    forall i | 0 <= i < |ops| :: !InFlight(rows, ops[i].source, ops[i].dest, times[i])
  }

  lemma {:induction false} ConfirmedInFlight(rows: Rows, op: Op, now: nat, other: Op, later: nat)
    requires Stamped(rows) && now <= later < now + DAY_MS
    ensures Stamped(Confirmed(rows, op, now))
    ensures InFlight(Confirmed(rows, op, now), other.source, other.dest, later)
            <==> InFlight(rows, other.source, other.dest, later) || SamePair(op, other)
  {
    var id, rows' := OpId(op.source, op.dest, now), Confirmed(rows, op, now);
    assert id in rows' && Active(rows'[id], later);
    if InFlight(rows, other.source, other.dest, later) {
      var k :| k in rows && rows[k].source == other.source && rows[k].dest == other.dest && Active(rows[k], later);
      assert k in rows' && rows'[k].source == other.source && rows'[k].dest == other.dest && Active(rows'[k], later);
    }
  }

  lemma {:induction false} BusyIsNotIdle(rows: Rows, ops: seq<Op>, times: seq<nat>, k: nat)
    requires |times| == |ops| && Stamped(rows) && WithinDay(times) && k < |ops|
    requires InFlight(rows, ops[k].source, ops[k].dest, times[k])
    ensures !PairsIdle(rows, ops, times)
    decreases |ops|
  {
    if k > 0 {
      ConfirmedInFlight(rows, ops[0], times[0], ops[k], times[k]);
      TailWithinDay(times);
      assert ops[1..][k - 1] == ops[k] && times[1..][k - 1] == times[k];
      BusyIsNotIdle(Confirmed(rows, ops[0], times[0]), ops[1..], times[1..], k - 1);
    }
  }

  lemma {:induction false} TailWithinDay(times: seq<nat>)
    requires times != [] && WithinDay(times)
    ensures WithinDay(times[1..])
  {
    var rest := times[1..];
    forall i, j | 0 <= i <= j < |rest| ensures rest[i] <= rest[j] < rest[i] + DAY_MS {
      assert rest[i] == times[i + 1] && rest[j] == times[j + 1];
    }
  }

  /** Pairs that are idle at first stay so exactly when none comes up twice. */
  lemma {:induction false} PairsIdleExactly(rows: Rows, ops: seq<Op>, times: seq<nat>)
    requires |times| == |ops| && Stamped(rows) && WithinDay(times) && Idle(rows, ops, times)
    ensures PairsIdle(rows, ops, times) <==> NoPairRepeats(ops)
    decreases |ops|
  {
    if ops != [] {
      var rows' := Confirmed(rows, ops[0], times[0]);
      forall i | 0 < i < |ops|
        ensures InFlight(rows', ops[i].source, ops[i].dest, times[i]) <==> SamePair(ops[0], ops[i])
      {
        ConfirmedInFlight(rows, ops[0], times[0], ops[i], times[i]);
      }
      ConfirmedInFlight(rows, ops[0], times[0], ops[0], times[0]);
      TailWithinDay(times);
      var rest, later := ops[1..], times[1..];
      assert forall i | 0 <= i < |rest| :: rest[i] == ops[i + 1] && later[i] == times[i + 1];
      if i :| 0 < i < |ops| && SamePair(ops[0], ops[i]) {
        BusyIsNotIdle(rows', rest, later, i - 1);
      } else {
        PairsIdleExactly(rows', rest, later);
        ConsPairs(ops);
      }
    }
  }

  lemma {:induction false} ConsPairs(ops: seq<Op>)
    requires ops != [] && forall i | 0 < i < |ops| :: !SamePair(ops[0], ops[i])
    ensures NoPairRepeats(ops) <==> NoPairRepeats(ops[1..])
  {
    var rest := ops[1..];
    assert forall i | 0 <= i < |rest| :: rest[i] == ops[i + 1];
    if NoPairRepeats(rest) {
      forall i, j | 0 <= i < j < |ops| ensures !SamePair(ops[i], ops[j]) {
        if i > 0 {
          assert !SamePair(rest[i - 1], rest[j - 1]);
        }
      }
    }
    if NoPairRepeats(ops) {
      forall i, j | 0 <= i < j < |rest| ensures !SamePair(rest[i], rest[j]) {
        assert !SamePair(ops[i + 1], ops[j + 1]);
      }
    }
  }

  /**
    On idle pairs the whole list goes through exactly when no pair comes up twice and every op
    finds its amount.
   */
  lemma {:induction false} SubmitsWholeExactly(rows: Rows, d: Balances, ops: seq<Op>, times: seq<nat>)
    requires |times| == |ops| && Stamped(rows) && WithinDay(times) && Idle(rows, ops, times) && Endpoints(d, ops)
    ensures SubmitsWhole(rows, d, ops, times) <==> NoPairRepeats(ops) && DepthsSuffice(d, ops)
  {
    BothHalves(rows, d, ops, times);
    PairsIdleExactly(rows, ops, times);
  }

  // ----- A cycle's plan -----

  /** The depth check of a cycle's own plan never fails: no source gives more than its excess. */
  lemma {:induction false} PlanDepthsSuffice(order: seq<ChainId>, d: Depths, cfg: CycleConfig)
    requires Enumerates(order, d) && order != [] && CycleEnds(order, d, cfg)
    ensures Endpoints(d, CyclePlan(order, d, cfg)) && DepthsSuffice(d, CyclePlan(order, d, cfg))
  {
    PlanFitsTarget(order, d, cfg);
    OutgoingSuffices(d, CyclePlan(order, d, cfg));
  }

  lemma {:induction false} SplitOneEach(order: seq<ChainId>, d: Depths, target: nat, c: ChainId)
    requires Distinct(order) && forall k | k in order :: k in d
    ensures Count(Surpluses(order, d, target), c) <= (if c in order then 1 else 0)
    ensures Count(Deficits(order, d, target), c) <= (if c in order then 1 else 0)
  {
    if order != [] {
      var init, last := order[..|order| - 1], order[|order| - 1];
      assert last !in init && (c in order <==> c in init || c == last) by {
        assert order == init + [last];
      }
      SplitOneEach(init, d, target, c);
      var sur, def := Surpluses(init, d, target), Deficits(init, d, target);
      assert sur + [] == sur && def + [] == def;
      if d[last] > target {
        CountAppend(sur, Entry(last, d[last] - target), c);
      } else if d[last] < target {
        CountAppend(def, Entry(last, target - d[last]), c);
      }
    }
  }

  lemma {:induction false} NothingToMove(sur: seq<Entry>, def: seq<Entry>)
    requires Progresses(sur, def, Some(0))
    ensures PlanOps(sur, def, Some(0)) == [] && PlanOps(sur, def, None) == []
  {
    PlanIsShort(sur, def, Some(0));
    PlanIsShort(sur, def, None);
    PlanConserves(sur, def, None, 0);
    NothingMoved(PlanOps(sur, def, None));
    NothingFits(PlanOps(sur, def, Some(0)), 0);
  }

  lemma {:induction false} NothingMoved(ops: seq<Op>)
    requires WithinCap(ops, None)
    ensures Moved(ops) == 0 <==> ops == []
  {
    if ops != [] {
      assert ops[0].amount > 0;
    }
  }

  lemma {:induction false} NothingFits(ops: seq<Op>, cap: nat)
    requires WithinCap(ops, Some(cap))
    ensures ops == [] || cap > 0
  {
    if ops != [] {
      assert 0 < ops[0].amount <= cap;
    }
  }

  /**
    One cycle can get its whole plan submitted, from a table in which no pair of the plan is in
    flight, exactly when the per-op cap splits no op of the uncapped plan; without a cap it
    always can. The depth checks pass in any case.
   */
  lemma {:induction false} CycleSubmitsWholeExactly(order: seq<ChainId>, d: Depths, cfg: CycleConfig, rows: Rows,
                                                    times: seq<nat>)
    requires Enumerates(order, d) && Triggered(order, d, cfg) && CycleEnds(order, d, cfg)
    requires Stamped(rows) && WithinDay(times) && |times| == |CyclePlan(order, d, cfg)|
    requires Idle(rows, CyclePlan(order, d, cfg), times)
    ensures var target := CycleTarget(order, d, cfg);
            var uncapped := PlanOps(Surpluses(order, d, target), Deficits(order, d, target), None);
            && Endpoints(d, CyclePlan(order, d, cfg))
            && (SubmitsWhole(rows, d, CyclePlan(order, d, cfg), times)
                <==> cfg.maxPerOp.None? || AllWithin(uncapped, cfg.maxPerOp.value))
  {
    var target := CycleTarget(order, d, cfg);
    var sur, def := Surpluses(order, d, target), Deficits(order, d, target);
    PlanDepthsSuffice(order, d, cfg);
    forall c ensures Count(sur, c) <= 1 && Count(def, c) <= 1 {
      SplitOneEach(order, d, target, c);
    }
    SubmitsWholeExactly(rows, d, CyclePlan(order, d, cfg), times);
    if cfg.maxPerOp.None? {
      UncappedNamesPairsOnce(sur, def);
    } else if cfg.maxPerOp.value > 0 {
      CappedNamesPairsOnceExactly(sur, def, cfg.maxPerOp.value);
    } else {
      NothingToMove(sur, def);
    }
  }

  // ----- A cap that splits an op -----

  lemma {:induction false} TwoChains()
    ensures PlanOps([Entry(0, 5)], [Entry(1, 5)], None) == [Op(0, 1, 5)]
  {
    assert SortDesc([Entry(0, 5)]) == [Entry(0, 5)] && SortDesc([Entry(1, 5)]) == [Entry(1, 5)];
    var sur, def := [Entry(0, 0)], [Entry(1, 0)];
    assert Match(sur, def, None) == Match(sur[1..], def, None) == [];
    assert Take([Entry(0, 5)], 5) == sur && Take([Entry(1, 5)], 5) == def;
  }

  /** A surplus of 5 and a cap of 3: the second chunk is skipped, whatever the table and the depths. */
  lemma {:induction false} CapHoldsPlanBack(rows: Rows, d: Balances, times: seq<nat>)
    requires Stamped(rows) && WithinDay(times) && 0 in d && 1 in d
    requires |times| == |PlanOps([Entry(0, 5)], [Entry(1, 5)], Some(3))|
    ensures var ops := PlanOps([Entry(0, 5)], [Entry(1, 5)], Some(3));
            ops == [Op(0, 1, 3), Op(0, 1, 2)] && Endpoints(d, ops) && !SubmitsWhole(rows, d, ops, times)
  {
    TwoChains();
    CappedPlanIsChunkedPlan([Entry(0, 5)], [Entry(1, 5)], 3);
    var op := Op(0, 1, 5);
    assert ChunkOp(op.(amount := 2), 3) == [Op(0, 1, 2)];
    assert ChunkOp(op, 3) == [Op(0, 1, 3)] + [Op(0, 1, 2)];
    assert [op][1..] == [] && ChunkOps([op], 3) == ChunkOp(op, 3) + [];
    var ops := [Op(0, 1, 3), Op(0, 1, 2)];
    BothHalves(rows, d, ops, times);
    ConfirmedInFlight(rows, ops[0], times[0], ops[1], times[1]);
    assert ops[1..][0] == ops[1] && times[1..][0] == times[1];
  }
}
