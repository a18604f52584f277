/**
  Greedy matching of surplus chains to deficit chains, and the splitting of an
  amount into chunks no larger than a cap
  (services/treasury/src/domain/rebalance.rs, services/treasury/src/cold_path.rs).

  Amounts are U256 values that are only compared and subtracted here, so they are
  modelled as `nat`.
 */
module Rebalance {
  import opened Wrappers

  type ChainId = nat

  datatype Entry = Entry(chain: ChainId, amount: nat)

  datatype Op = Op(source: ChainId, dest: ChainId, amount: nat)

  // ----- Sums -----

  function Total(es: seq<Entry>): nat {
    if es == [] then 0 else es[0].amount + Total(es[1..])
  }

  /** What the entries of chain `c` add up to. */
  function AmountOf(es: seq<Entry>, c: ChainId): nat {
    if es == [] then 0
    else (if es[0].chain == c then es[0].amount else 0) + AmountOf(es[1..], c)
  }

  function Moved(ops: seq<Op>): nat {
    if ops == [] then 0 else ops[0].amount + Moved(ops[1..])
  }

  function OutOf(ops: seq<Op>, c: ChainId): nat {
    if ops == [] then 0
    else (if ops[0].source == c then ops[0].amount else 0) + OutOf(ops[1..], c)
  }

  function Into(ops: seq<Op>, c: ChainId): nat {
    if ops == [] then 0
    else (if ops[0].dest == c then ops[0].amount else 0) + Into(ops[1..], c)
  }

  lemma {:induction false} AmountOfBelowTotal(es: seq<Entry>, c: ChainId)
    ensures AmountOf(es, c) <= Total(es)
  {
    if es != [] {
      AmountOfBelowTotal(es[1..], c);
    }
  }

  // ----- Stable descending sort -----

  ghost predicate SortedDesc(es: seq<Entry>) {
    forall i, j | 0 <= i < j < |es| :: es[i].amount >= es[j].amount
  }

  function InsertDesc(e: Entry, es: seq<Entry>): (r: seq<Entry>)
    ensures |r| == |es| + 1
  {
    if es == [] || es[0].amount <= e.amount then [e] + es
    else [es[0]] + InsertDesc(e, es[1..])
  }

  /** `sort_by_key(Reverse(amount))`: largest amount first, ties in input order. */
  function SortDesc(es: seq<Entry>): (r: seq<Entry>)
    ensures |r| == |es|
  {
    if es == [] then [] else InsertDesc(es[0], SortDesc(es[1..]))
  }

  /** The entries that carry exactly the amount `a`, in order. */
  function WithAmount(es: seq<Entry>, a: nat): seq<Entry> {
    if es == [] then []
    else (if es[0].amount == a then [es[0]] else []) + WithAmount(es[1..], a)
  }

  lemma {:induction false} InsertDescSorted(e: Entry, es: seq<Entry>)
    requires SortedDesc(es)
    ensures SortedDesc(InsertDesc(e, es))
    ensures forall x | x in InsertDesc(e, es) :: x == e || x in es
  {
    if es == [] || es[0].amount <= e.amount {
    } else {
      InsertDescSorted(e, es[1..]);
      var r := InsertDesc(e, es[1..]);
      forall j | 0 <= j < |r| ensures es[0].amount >= r[j].amount {
        assert r[j] in r;
        if r[j] != e {
          var k :| 0 <= k < |es[1..]| && es[1..][k] == r[j];
          assert es[k + 1] == r[j];
        }
      }
    }
  }

  lemma {:induction false} WithAmountCons(e: Entry, es: seq<Entry>, a: nat)
    ensures WithAmount([e] + es, a) == (if e.amount == a then [e] else []) + WithAmount(es, a)
  {
    assert ([e] + es)[1..] == es;
  }

  lemma {:induction false} InsertDescStable(e: Entry, es: seq<Entry>, a: nat)
    ensures WithAmount(InsertDesc(e, es), a) == (if e.amount == a then [e] else []) + WithAmount(es, a)
  {
    if es == [] || es[0].amount <= e.amount {
      WithAmountCons(e, es, a);
    } else {
      InsertDescStable(e, es[1..], a);
      WithAmountCons(es[0], InsertDesc(e, es[1..]), a);
    }
  }

  /**
    The sort is the stable descending one: its result is descending, and for every
    amount the entries with that amount are the same ones in the same order.
   */
  lemma {:induction false} SortDescIsStableSort(es: seq<Entry>)
    ensures SortedDesc(SortDesc(es))
    ensures forall a: nat :: WithAmount(SortDesc(es), a) == WithAmount(es, a)
  {
    if es != [] {
      SortDescIsStableSort(es[1..]);
      InsertDescSorted(es[0], SortDesc(es[1..]));
      forall a: nat ensures WithAmount(SortDesc(es), a) == WithAmount(es, a) {
        InsertDescStable(es[0], SortDesc(es[1..]), a);
      }
    }
  }

  lemma {:induction false} InsertDescSums(e: Entry, es: seq<Entry>, c: ChainId)
    ensures Total(InsertDesc(e, es)) == e.amount + Total(es)
    ensures AmountOf(InsertDesc(e, es), c) == (if e.chain == c then e.amount else 0) + AmountOf(es, c)
  {
    if es == [] || es[0].amount <= e.amount {
      assert ([e] + es)[1..] == es;
    } else {
      InsertDescSums(e, es[1..], c);
      var r := [es[0]] + InsertDesc(e, es[1..]);
      assert r[1..] == InsertDesc(e, es[1..]);
    }
  }

  lemma {:induction false} SortDescSums(es: seq<Entry>, c: ChainId)
    ensures Total(SortDesc(es)) == Total(es)
    ensures AmountOf(SortDesc(es), c) == AmountOf(es, c)
  {
    if es != [] {
      SortDescSums(es[1..], c);
      InsertDescSums(es[0], SortDesc(es[1..]), c);
    }
  }

  // ----- Greedy matching -----

  /**
    The loop makes progress: with a zero cap it never leaves a pair whose surplus and
    deficit are both positive (see `TerminatesExactlyWhenProgresses`).
   */
  predicate Progresses(sur: seq<Entry>, def: seq<Entry>, cap: Option<nat>) {
    cap != Some(0) || Total(sur) == 0 || Total(def) == 0
  }

  function Capped(amount: nat, cap: Option<nat>): nat {
    if cap.Some? then Min(amount, cap.value) else amount
  }

  /** `es` with `m` taken from its first entry. */
  function Take(es: seq<Entry>, m: nat): (r: seq<Entry>)
    requires es != [] && m <= es[0].amount
    ensures |r| == |es|
  {
    [Entry(es[0].chain, es[0].amount - m)] + es[1..]
  }

  /** Passes over an exhausted head. */
  function Settle(es: seq<Entry>): (r: seq<Entry>)
    ensures |r| <= |es|
  {
    if es != [] && es[0].amount == 0 then es[1..] else es
  }

  lemma {:induction false} TakeTotal(es: seq<Entry>, m: nat)
    requires es != [] && m <= es[0].amount
    ensures Total(Take(es, m)) == Total(Settle(Take(es, m))) == Total(es) - m
  {
    assert Take(es, m)[1..] == es[1..];
  }

  /** Matching two lists that are already in the order in which they are served. */
  function Match(sur: seq<Entry>, def: seq<Entry>, cap: Option<nat>): seq<Op>
    requires Progresses(sur, def, cap)
    decreases Total(sur) + Total(def) + |sur| + |def|
  {
    if sur == [] || def == [] then []
    else if sur[0].amount == 0 then Match(sur[1..], def, cap)
    else if def[0].amount == 0 then Match(sur, def[1..], cap)
    else
      var m := Capped(Min(sur[0].amount, def[0].amount), cap);
      TakeTotal(sur, m);
      TakeTotal(def, m);
      [Op(sur[0].chain, def[0].chain, m)] + Match(Take(sur, m), Take(def, m), cap)
  }

  /** The plan of `compute_rebalance_ops`. */
  function PlanOps(sur: seq<Entry>, def: seq<Entry>, cap: Option<nat>): seq<Op>
    requires Progresses(sur, def, cap)
  {
    SortDescSums(sur, 0);
    SortDescSums(def, 0);
    Match(SortDesc(sur), SortDesc(def), cap)
  }

  // ----- The loop of the source -----

  /** What the loop has left to serve: the suffixes from `si` and `di` on. */
  datatype Work = Work(sur: seq<Entry>, def: seq<Entry>)

  predicate Looping(w: Work) {
    w.sur != [] && w.def != []
  }

  /** The ops that one pass through the loop body pushes. */
  function Emit(w: Work, cap: Option<nat>): seq<Op>
    requires Looping(w)
  {
    var s, d := w.sur[0], w.def[0];
    var m := Capped(Min(s.amount, d.amount), cap);
    if s.amount == 0 || d.amount == 0 || m == 0 then [] else [Op(s.chain, d.chain, m)]
  }

  /** The work left after one pass through the loop body. */
  function Pass(w: Work, cap: Option<nat>): Work
    requires Looping(w)
  {
    var s, d := w.sur[0], w.def[0];
    if s.amount == 0 then Work(Settle(w.sur), w.def)
    else if d.amount == 0 then Work(w.sur, Settle(w.def))
    else
      var m := Capped(Min(s.amount, d.amount), cap);
      Work(Settle(Take(w.sur, m)), Settle(Take(w.def, m)))
  }

  function Measure(w: Work): nat {
    Total(w.sur) + Total(w.def) + |w.sur| + |w.def|
  }

  /** The loop runs to its end within `n` passes. */
  ghost predicate HaltsWithin(w: Work, cap: Option<nat>, n: nat)
    decreases n
  {
    !Looping(w) || (n > 0 && HaltsWithin(Pass(w, cap), cap, n - 1))
  }

  ghost predicate Halts(w: Work, cap: Option<nat>) {
    exists n: nat :: HaltsWithin(w, cap, n)
  }

  /** Serving an exhausted head of either list first makes no difference. */
  lemma {:induction false} MatchSettles(sur: seq<Entry>, def: seq<Entry>, cap: Option<nat>)
    requires Progresses(sur, def, cap)
    ensures Match(sur, def, cap) == Match(Settle(sur), def, cap) == Match(sur, Settle(def), cap)
    decreases |sur|
  {
    if sur != [] && sur[0].amount == 0 {
      MatchSettles(sur[1..], def, cap);
    }
  }

  lemma {:induction false} MatchTakes(sur: seq<Entry>, def: seq<Entry>, cap: Option<nat>, m: nat)
    requires sur != [] && def != [] && sur[0].amount > 0 && def[0].amount > 0
    requires Progresses(sur, def, cap) && m == Capped(Min(sur[0].amount, def[0].amount), cap)
    ensures m > 0 && Progresses(Take(sur, m), Take(def, m), cap)
    ensures Match(sur, def, cap)
         == [Op(sur[0].chain, def[0].chain, m)] + Match(Take(sur, m), Take(def, m), cap)
  {
  }

  /** One pass of the loop emits the next ops of the matching and gets closer to its end. */
  lemma {:induction false} PassFollowsMatch(w: Work, cap: Option<nat>)
    requires Looping(w) && Progresses(w.sur, w.def, cap)
    ensures Progresses(Pass(w, cap).sur, Pass(w, cap).def, cap)
    ensures Measure(Pass(w, cap)) < Measure(w)
    ensures Match(w.sur, w.def, cap) == Emit(w, cap) + Match(Pass(w, cap).sur, Pass(w, cap).def, cap)
  {
    var s, d := w.sur[0], w.def[0];
    if s.amount == 0 || d.amount == 0 {
      MatchSettles(w.sur, w.def, cap);
    } else {
      var m := Capped(Min(s.amount, d.amount), cap);
      MatchTakes(w.sur, w.def, cap, m);
      TakeTotal(w.sur, m);
      TakeTotal(w.def, m);
      MatchSettles(Take(w.sur, m), Take(w.def, m), cap);
      MatchSettles(Settle(Take(w.sur, m)), Take(w.def, m), cap);
    }
  }

  lemma {:induction false} HaltsWithinMeasure(w: Work, cap: Option<nat>, n: nat)
    requires Progresses(w.sur, w.def, cap) && Measure(w) <= n
    ensures HaltsWithin(w, cap, n)
    decreases n
  {
    if Looping(w) {
      PassFollowsMatch(w, cap);
      HaltsWithinMeasure(Pass(w, cap), cap, n - 1);
    }
  }

  lemma {:induction false} NeverHaltsWithoutProgress(w: Work, cap: Option<nat>, n: nat)
    requires !Progresses(w.sur, w.def, cap)
    ensures !HaltsWithin(w, cap, n)
    decreases n
  {
    if n > 0 {
      var m := Capped(Min(w.sur[0].amount, w.def[0].amount), cap);
      TakeTotal(w.sur, m);
      TakeTotal(w.def, m);
      NeverHaltsWithoutProgress(Pass(w, cap), cap, n - 1);
    }
  }

  /**
    The loop of `compute_rebalance_ops` ends for exactly these inputs: every cap but
    zero, and a zero cap when there is nothing to move on one of the two sides.
   */
  lemma {:induction false} TerminatesExactlyWhenProgresses(sur: seq<Entry>, def: seq<Entry>, cap: Option<nat>)
    ensures Halts(Work(SortDesc(sur), SortDesc(def)), cap) <==> Progresses(sur, def, cap)
  {
    SortDescSums(sur, 0);
    SortDescSums(def, 0);
    var w := Work(SortDesc(sur), SortDesc(def));
    if Progresses(sur, def, cap) {
      var n := Measure(w);
      HaltsWithinMeasure(w, cap, n);
      assert HaltsWithin(w, cap, n);
    } else {
      forall n: nat ensures !HaltsWithin(w, cap, n) {
        NeverHaltsWithoutProgress(w, cap, n);
      }
    }
  }

  function Amounts(es: seq<Entry>): (r: seq<nat>)
    ensures |r| == |es| && forall i | 0 <= i < |es| :: r[i] == es[i].amount
  {
    seq(|es|, i requires 0 <= i < |es| => es[i].amount)
  }

  /** `rest` is what is still to be served of `es` from position `from` on. */
  ghost predicate IsRemaining(rest: seq<Entry>, es: seq<Entry>, rem: seq<nat>, from: nat) {
    && |rem| == |es| == from + |rest|
    && forall k {:trigger rest[k]} | 0 <= k < |rest| :: rest[k] == Entry(es[from + k].chain, rem[from + k])
  }

  lemma {:induction false} RemainingSettled(rest: seq<Entry>, es: seq<Entry>, rem: seq<nat>, from: nat)
    requires IsRemaining(rest, es, rem, from) && rest != []
    ensures rest[0] == Entry(es[from].chain, rem[from])
    ensures IsRemaining(Settle(rest), es, rem, if rem[from] == 0 then from + 1 else from)
  {
    assert rest[0] == Entry(es[from].chain, rem[from]);
  }

  lemma {:induction false} RemainingTaken(rest: seq<Entry>, es: seq<Entry>, rem: seq<nat>, from: nat, m: nat)
    requires IsRemaining(rest, es, rem, from) && rest != [] && m <= rest[0].amount
    ensures rem[from] == rest[0].amount
    ensures var rem' := rem[from := rem[from] - m];
            IsRemaining(Settle(Take(rest, m)), es, rem', if rem'[from] == 0 then from + 1 else from)
  {
    assert rest[0] == Entry(es[from].chain, rem[from]);
    var rem' := rem[from := rem[from] - m];
    assert IsRemaining(Take(rest, m), es, rem', from);
    RemainingSettled(Take(rest, m), es, rem', from);
  }

  /** What the loop has left agrees with its indices and remainders, and what it has done with the plan. */
  ghost predicate Serving(w: Work, sur: seq<Entry>, surRem: seq<nat>, si: nat, def: seq<Entry>, defRem: seq<nat>,
      di: nat,
                          cap: Option<nat>, plan: seq<Op>, ops: seq<Op>)
  {
    && IsRemaining(w.sur, sur, surRem, si) && IsRemaining(w.def, def, defRem, di)
    && Progresses(w.sur, w.def, cap) && plan == ops + Match(w.sur, w.def, cap)
  }

  /** A pass that serves the pair under the two indices. */
  lemma {:induction false} ServedPair(w: Work, sur: seq<Entry>, surRem: seq<nat>, si: nat, def: seq<Entry>,
      defRem: seq<nat>,
                                      di: nat, cap: Option<nat>, plan: seq<Op>, ops: seq<Op>, amount: nat)
    requires Serving(w, sur, surRem, si, def, defRem, di, cap, plan, ops) && si < |sur| && di < |def|
    requires surRem[si] > 0 && defRem[di] > 0 && amount == Capped(Min(surRem[si], defRem[di]), cap)
    ensures 0 < amount <= surRem[si] && amount <= defRem[di] && Measure(Pass(w, cap)) < Measure(w)
    ensures var surRem', defRem' := surRem[si := surRem[si] - amount], defRem[di := defRem[di] - amount];
            Serving(Pass(w, cap), sur, surRem', if surRem'[si] == 0 then si + 1 else si,
                    def, defRem', if defRem'[di] == 0 then di + 1 else di,
                    cap, plan, ops + [Op(sur[si].chain, def[di].chain, amount)])
  {
    RemainingSettled(w.sur, sur, surRem, si);
    RemainingSettled(w.def, def, defRem, di);
    MatchTakes(w.sur, w.def, cap, amount);
    PassFollowsMatch(w, cap);
    RemainingTaken(w.sur, sur, surRem, si, amount);
    RemainingTaken(w.def, def, defRem, di, amount);
    assert Emit(w, cap) == [Op(sur[si].chain, def[di].chain, amount)];
  }

  /** A pass that only moves one index over an exhausted entry. */
  lemma {:induction false} PassedOver(w: Work, sur: seq<Entry>, surRem: seq<nat>, si: nat, def: seq<Entry>,
      defRem: seq<nat>,
                                      di: nat, cap: Option<nat>, plan: seq<Op>, ops: seq<Op>)
    requires Serving(w, sur, surRem, si, def, defRem, di, cap, plan, ops) && si < |sur| && di < |def|
    requires surRem[si] == 0 || defRem[di] == 0
    ensures Measure(Pass(w, cap)) < Measure(w)
    ensures if surRem[si] == 0 then Serving(Pass(w, cap), sur, surRem, si + 1, def, defRem, di, cap, plan, ops)
            else Serving(Pass(w, cap), sur, surRem, si, def, defRem, di + 1, cap, plan, ops)
  {
    RemainingSettled(w.sur, sur, surRem, si);
    RemainingSettled(w.def, def, defRem, di);
    PassFollowsMatch(w, cap);
    assert Emit(w, cap) == [];
  }

  /** The matching loop, on lists that are already sorted. */
  method ServeInOrder(sur: seq<Entry>, def: seq<Entry>, cap: Option<nat>) returns (ops: seq<Op>)
    requires Progresses(sur, def, cap)
    ensures ops == Match(sur, def, cap)
  {
    var surRem: seq<nat> := Amounts(sur);
    var defRem: seq<nat> := Amounts(def);
    ops := [];
    var si, di := 0, 0;
    ghost var w := Work(sur, def);
    ghost var plan := Match(sur, def, cap);

    while si < |sur| && di < |def|
      invariant Serving(w, sur, surRem, si, def, defRem, di, cap, plan, ops)
      decreases Measure(w)
    {
      if surRem[si] == 0 {
        PassedOver(w, sur, surRem, si, def, defRem, di, cap, plan, ops);
        w := Pass(w, cap);
        si := si + 1;
        continue;
      }
      if defRem[di] == 0 {
        PassedOver(w, sur, surRem, si, def, defRem, di, cap, plan, ops);
        w := Pass(w, cap);
        di := di + 1;
        continue;
      }
      var amount := Capped(Min(surRem[si], defRem[di]), cap);
      ServedPair(w, sur, surRem, si, def, defRem, di, cap, plan, ops, amount);
      w := Pass(w, cap);
      if amount != 0 {
        ops := ops + [Op(sur[si].chain, def[di].chain, amount)];
      }
      surRem := surRem[si := surRem[si] - amount];
      defRem := defRem[di := defRem[di] - amount];
      // If the cap split the allocation, neither pointer advances.
      si := if surRem[si] == 0 then si + 1 else si;
      di := if defRem[di] == 0 then di + 1 else di;
    }
  }

  method ComputeRebalanceOps(surpluses: seq<Entry>, deficits: seq<Entry>, cap: Option<nat>)
    returns (ops: seq<Op>)
    requires Progresses(surpluses, deficits, cap)
    ensures ops == PlanOps(surpluses, deficits, cap)
  {
    SortDescSums(surpluses, 0);
    SortDescSums(deficits, 0);
    ops := ServeInOrder(SortDesc(surpluses), SortDesc(deficits), cap);
  }
}
