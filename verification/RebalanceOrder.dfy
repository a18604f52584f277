/**
  The order in which a plan serves its chains (services/treasury/src/domain/rebalance.rs):
  the largest surplus and the largest deficit first, equal ones as they were listed.
 */
module RebalanceOrder {
  import opened Wrappers
  import opened Rebalance

  /** Chain `x` is listed at `a` and chain `y` at `b`, and `a` is served no later. */
  predicate ServedAt(es: seq<Entry>, x: ChainId, y: ChainId, a: nat, b: nat) {
    && a < |es| && b < |es| && es[a].chain == x && es[b].chain == y
    && (es[a].amount > es[b].amount || (es[a].amount == es[b].amount && a <= b))
  }

  ghost predicate ServedNoLater(es: seq<Entry>, x: ChainId, y: ChainId) {
    exists a: nat, b: nat :: ServedAt(es, x, y, a, b)
  }

  ghost predicate InOrder(es: seq<Entry>, x: ChainId, y: ChainId) {
    exists p, q | 0 <= p <= q < |es| :: es[p].chain == x && es[q].chain == y
  }

  // ----- The sort -----

  /** `r` is `s` with `e` put in at `k`, behind what is larger and before the rest. */
  ghost predicate PutInAt(r: seq<Entry>, e: Entry, s: seq<Entry>, k: nat) {
    && k <= |s| && r == s[..k] + [e] + s[k..]
    && (forall i | 0 <= i < k :: s[i].amount > e.amount) && (forall i | k <= i < |s| :: s[i].amount <= e.amount)
  }

  lemma {:induction false} InsertPutsIn(e: Entry, s: seq<Entry>) returns (k: nat)
    requires SortedDesc(s)
    ensures PutInAt(InsertDesc(e, s), e, s, k)
  {
    if s == [] || s[0].amount <= e.amount {
      k := 0;
    } else {
      var j := InsertPutsIn(e, s[1..]);
      k := j + 1;
      assert s[..k] == [s[0]] + s[1..][..j] && s[k..] == s[1..][j..];
      assert forall i | 1 <= i < |s| :: s[i] == s[1..][i - 1];
    }
  }

  lemma {:induction false} PutInEntry(r: seq<Entry>, e: Entry, s: seq<Entry>, k: nat, i: nat)
    requires PutInAt(r, e, s, k) && i < |r|
    ensures |r| == |s| + 1 && r[i] == if i < k then s[i] else if i == k then e else s[i - 1]
    ensures i < k ==> r[i].amount > e.amount
    ensures i > k ==> r[i].amount <= e.amount
  {
  }

  /** The entries `x` and `y` are listed at `a` and `b`, and `a` is served no later. */
  predicate Placed(es: seq<Entry>, x: Entry, y: Entry, a: nat, b: nat) {
    a < |es| && b < |es| && es[a] == x && es[b] == y && ServedAt(es, x.chain, y.chain, a, b)
  }

  lemma {:induction false} PlacedInRest(es: seq<Entry>, x: Entry, y: Entry, a: nat, b: nat)
    requires es != [] && Placed(es[1..], x, y, a, b)
    ensures Placed(es, x, y, a + 1, b + 1)
    ensures es[0].amount >= y.amount ==> Placed(es, es[0], y, 0, b + 1)
    ensures x.amount > es[0].amount ==> Placed(es, x, es[0], a + 1, 0)
  {
  }

  /** What stands at place `p` of the sorted list when its first listed entry went to place `k`. */
  predicate ComesFrom(es: seq<Entry>, k: nat, p: nat)
    requires p < |es| && k < |es|
  {
    var r, s := SortDesc(es), SortDesc(es[1..]);
    && r[p] == (if p < k then s[p] else if p == k then es[0] else s[p - 1])
    && (p < k ==> r[p].amount > es[0].amount) && (p > k ==> r[p].amount <= es[0].amount)
  }

  lemma {:induction false} FirstGoesTo(es: seq<Entry>) returns (k: nat)
    requires es != []
    ensures k < |es| && forall p: nat | p < |es| :: ComesFrom(es, k, p)
  {
    var s := SortDesc(es[1..]);
    SortDescIsStableSort(es[1..]);
    k := InsertPutsIn(es[0], s);
    forall p: nat | p < |es| ensures ComesFrom(es, k, p) {
      PutInEntry(SortDesc(es), es[0], s, k, p);
    }
  }

  /** Where the entries at two places of the sorted list come from. */
  lemma {:induction false} SortedPlaces(es: seq<Entry>, p: nat, q: nat) returns (a: nat, b: nat)
    requires p <= q < |es|
    ensures Placed(es, SortDesc(es)[p], SortDesc(es)[q], a, b)
  {
    var r := SortDesc(es);
    var k := FirstGoesTo(es);
    assert ComesFrom(es, k, p) && ComesFrom(es, k, q);
    if p == k && q == k {
      a, b := 0, 0;
    } else if p == k {
      var i, j := SortedPlaces(es[1..], q - 1, q - 1);
      PlacedInRest(es, r[q], r[q], i, j);
      a, b := 0, j + 1;
    } else if q == k {
      var i, j := SortedPlaces(es[1..], p, p);
      PlacedInRest(es, r[p], r[p], i, j);
      a, b := i + 1, 0;
    } else {
      var i, j := SortedPlaces(es[1..], if p < k then p else p - 1, if q < k then q else q - 1);
      PlacedInRest(es, r[p], r[q], i, j);
      a, b := i + 1, j + 1;
    }
  }

  lemma {:induction false} SortedIsServed(es: seq<Entry>, x: ChainId, y: ChainId)
    requires InOrder(SortDesc(es), x, y)
    ensures ServedNoLater(es, x, y)
  {
    var s := SortDesc(es);
    var p, q :| 0 <= p <= q < |s| && s[p].chain == x && s[q].chain == y;
    var a, b := SortedPlaces(es, p, q);
  }

  // ----- The matching -----

  lemma {:induction false} OrderInRest(es: seq<Entry>, rest: seq<Entry>, x: ChainId, y: ChainId)
    requires InOrder(rest, x, y)
    requires es != [] && |rest| <= |es|
    requires forall i | 0 <= i < |rest| :: rest[i].chain == es[|es| - |rest| + i].chain
    ensures InOrder(es, x, y)
    ensures InOrder(es, es[0].chain, y)
  {
    var p, q :| 0 <= p <= q < |rest| && rest[p].chain == x && rest[q].chain == y;
    var shift := |es| - |rest|;
    assert es[shift + p].chain == x && es[shift + q].chain == y;
    assert es[0].chain == es[0].chain;
  }

  /** The ops name the chains of both lists in the order of the lists. */
  ghost predicate FollowsLists(ops: seq<Op>, sur: seq<Entry>, def: seq<Entry>) {
    forall i, j | 0 <= i <= j < |ops| ::
      InOrder(sur, ops[i].source, ops[j].source) && InOrder(def, ops[i].dest, ops[j].dest)
  }

  lemma {:induction false} FollowsLonger(ops: seq<Op>, sur: seq<Entry>, def: seq<Entry>, s: seq<Entry>, d: seq<Entry>)
    requires FollowsLists(ops, s, d) && sur != [] && def != [] && |s| <= |sur| && |d| <= |def|
    requires forall i | 0 <= i < |s| :: s[i].chain == sur[|sur| - |s| + i].chain
    requires forall i | 0 <= i < |d| :: d[i].chain == def[|def| - |d| + i].chain
    ensures FollowsLists(ops, sur, def)
    ensures forall j | 0 <= j < |ops| ::
              InOrder(sur, sur[0].chain, ops[j].source) && InOrder(def, def[0].chain, ops[j].dest)
  {
    forall i, j | 0 <= i <= j < |ops|
      ensures InOrder(sur, ops[i].source, ops[j].source) && InOrder(def, ops[i].dest, ops[j].dest)
      ensures InOrder(sur, sur[0].chain, ops[j].source) && InOrder(def, def[0].chain, ops[j].dest)
    {
      OrderInRest(sur, s, ops[i].source, ops[j].source);
      OrderInRest(def, d, ops[i].dest, ops[j].dest);
    }
  }

  lemma {:induction false} MatchFollowsLists(sur: seq<Entry>, def: seq<Entry>, cap: Option<nat>)
    requires Progresses(sur, def, cap)
    ensures FollowsLists(Match(sur, def, cap), sur, def)
    decreases Total(sur) + Total(def) + |sur| + |def|
  {
    if sur == [] || def == [] {
    } else if sur[0].amount == 0 {
      MatchFollowsLists(sur[1..], def, cap);
      RestFollows(sur, def, Match(sur, def, cap));
    } else if def[0].amount == 0 {
      MatchFollowsLists(sur, def[1..], cap);
      RestFollows(sur, def, Match(sur, def, cap));
    } else {
      var m := Capped(Min(sur[0].amount, def[0].amount), cap);
      TakeTotal(sur, m);
      TakeTotal(def, m);
      MatchFollowsLists(Take(sur, m), Take(def, m), cap);
      TakenFollows(sur, def, m, Match(Take(sur, m), Take(def, m), cap));
    }
  }

  lemma {:induction false} TakenFollows(sur: seq<Entry>, def: seq<Entry>, m: nat, rest: seq<Op>)
    requires sur != [] && def != [] && m <= sur[0].amount && m <= def[0].amount
    requires FollowsLists(rest, Take(sur, m), Take(def, m))
    ensures FollowsLists([Op(sur[0].chain, def[0].chain, m)] + rest, sur, def)
  {
    FollowsLonger(rest, sur, def, Take(sur, m), Take(def, m));
    FollowsCons(Op(sur[0].chain, def[0].chain, m), rest, sur, def);
  }

  lemma {:induction false} RestFollows(sur: seq<Entry>, def: seq<Entry>, ops: seq<Op>)
    requires sur != [] && def != []
    requires FollowsLists(ops, sur[1..], def) || FollowsLists(ops, sur, def[1..])
    ensures FollowsLists(ops, sur, def)
  {
    if FollowsLists(ops, sur[1..], def) {
      FollowsLonger(ops, sur, def, sur[1..], def);
    } else {
      FollowsLonger(ops, sur, def, sur, def[1..]);
    }
  }

  lemma {:induction false} FollowsCons(op: Op, ops: seq<Op>, sur: seq<Entry>, def: seq<Entry>)
    requires sur != [] && def != [] && op.source == sur[0].chain && op.dest == def[0].chain
    requires FollowsLists(ops, sur, def)
    requires forall j | 0 <= j < |ops| ::
               InOrder(sur, sur[0].chain, ops[j].source) && InOrder(def, def[0].chain, ops[j].dest)
    ensures FollowsLists([op] + ops, sur, def)
  {
  }

  /**
    Of two ops of a plan the earlier one drains a chain with the larger surplus, or with the
    same surplus and listed no later, and fills a chain with the larger deficit, or the same
    and listed no later.
   */
  lemma {:induction false} LargestServedFirst(sur: seq<Entry>, def: seq<Entry>, cap: Option<nat>, i: nat, j: nat)
    requires Progresses(sur, def, cap) && i <= j < |PlanOps(sur, def, cap)|
    ensures var ops := PlanOps(sur, def, cap);
            ServedNoLater(sur, ops[i].source, ops[j].source) && ServedNoLater(def, ops[i].dest, ops[j].dest)
  {
    SortDescSums(sur, 0);
    SortDescSums(def, 0);
    MatchFollowsLists(SortDesc(sur), SortDesc(def), cap);
    var ops := PlanOps(sur, def, cap);
    SortedIsServed(sur, ops[i].source, ops[j].source);
    SortedIsServed(def, ops[i].dest, ops[j].dest);
  }
}
