/**
  Where a drain's holders come from: the query of
  services/treasury/src/decommission_runtime.rs over the account events, and what the two
  entry points make of its answer.
 */
module DrainIndex {
  import opened Wrappers
  import opened Addresses
  import opened AccountEvents
  import opened DrainRepo
  import opened Decommission

  /** The row names `holder` as a receiver on the chain. */
  predicate Receives(row: EventRow, chain: AccountEvents.ChainId, holder: string) {
    row.chain == chain && row.kind in {Deposited, Transfer, HotPathReleased} && IsAddress(row.to, holder)
  }

  ghost predicate Received(table: Table, chain: AccountEvents.ChainId, holder: string) {
    exists i | 0 <= i < |table| :: Receives(table[i], chain, holder)
  }

  /** An answer to `SELECT DISTINCT lower(address_to) …`, in any order. */
  ghost predicate AnswersQuery(table: Table, chain: AccountEvents.ChainId, holders: seq<string>) {
    Distinct(holders) && forall h :: h in holders <==> Received(table, chain, h)
  }

  lemma {:induction false} LowerTwice(s: string)
    ensures Lower(Lower(s)) == Lower(s)
  {
  }

  lemma {:induction false} AnswersAreLower(table: Table, chain: AccountEvents.ChainId, holders: seq<string>, h: string)
    requires AnswersQuery(table, chain, holders) && h in holders
    ensures Lower(h) == h
  {
    var i :| 0 <= i < |table| && Receives(table[i], chain, h);
    LowerTwice(table[i].to.value);
  }

  ghost predicate LowerDistinct(addresses: seq<string>) {
    Distinct(addresses) && forall i | 0 <= i < |addresses| :: Lower(addresses[i]) == addresses[i]
  }

  lemma {:induction false} LowerDistinctPrefix(addresses: seq<string>)
    requires LowerDistinct(addresses) && addresses != []
    ensures LowerDistinct(addresses[..|addresses| - 1])
    ensures Lower(addresses[|addresses| - 1]) !in Lowered(addresses[..|addresses| - 1])
  {
    var n := |addresses| - 1;
    assert forall i | 0 <= i < n :: Lower(addresses[..n][i]) == addresses[i] != addresses[n];
  }

  /** On distinct lower-case addresses the deduplication of `build_drain_plan` has nothing to do. */
  lemma {:induction false} ResolvedIsFunded(addresses: seq<string>, balance: string -> Option<nat>)
    requires LowerDistinct(addresses)
    ensures Resolved(addresses, balance) == Funded(addresses, balance)
  {
    if addresses != [] {
      LowerDistinctPrefix(addresses);
      ResolvedIsFunded(addresses[..|addresses| - 1], balance);
    }
  }

  lemma {:induction false} FundedMembers(addresses: seq<string>, balance: string -> Option<nat>, a: string)
    requires a in addresses && AmountOf(balance, a) > 0
    ensures Holder(a, AmountOf(balance, a)) in Funded(addresses, balance)
  {
    var n := |addresses| - 1;
    if a != addresses[n] {
      var k :| 0 <= k < |addresses| && addresses[k] == a;
      assert addresses[..n][k] == a;
      FundedMembers(addresses[..n], balance, a);
    }
  }

  /**
    Both entry points run the same plan on the index's answer, and it bridges every holder in
    the index who holds something and was not completed before: with the whole balance, once.
   */
  lemma {:induction false} EveryHolderBridgedOnce(
      table: Table, pair: Pair, holders: seq<string>, balance: string -> Option<nat>, pool: nat, reserve: nat,
          completed: set<string>)
    requires AnswersQuery(table, pair.source, holders)
    ensures Resolved(holders, balance) == Funded(holders, balance)
    ensures var calls := PlannedCalls(DrainPlan(pair, Funded(holders, balance), pool, reserve), completed);
            && BridgedOnce(calls)
            && forall h | Received(table, pair.source, h) && AmountOf(balance, h) > 0 && h !in completed ::
                 BridgeHolder(pair, h, AmountOf(balance, h)) in calls
  {
    forall i | 0 <= i < |holders| ensures Lower(holders[i]) == holders[i] {
      AnswersAreLower(table, pair.source, holders, holders[i]);
    }
    ResolvedIsFunded(holders, balance);
    BuiltPlanBridgesOnce(pair, holders, balance, pool, reserve, completed);
    var plan := DrainPlan(pair, Funded(holders, balance), pool, reserve);
    var calls := PlannedCalls(plan, completed);
    forall h | Received(table, pair.source, h) && AmountOf(balance, h) > 0 && h !in completed
      ensures BridgeHolder(pair, h, AmountOf(balance, h)) in calls
    {
      AnswersAreLower(table, pair.source, holders, h);
      FundedMembers(holders, balance, h);
      HolderIsCalled(plan, completed, Holder(h, AmountOf(balance, h)));
    }
  }

  lemma {:induction false} HolderIsCalled(plan: DrainPlan, completed: set<string>, holder: Holder)
    requires holder in plan.holders && Lower(holder.address) !in completed
    ensures BridgeHolder(plan.pair, holder.address, holder.amount) in PlannedCalls(plan, completed)
  {
    RemainingMembers(plan.holders, completed);
    var attempted := Remaining(plan.holders, completed);
    var k :| 0 <= k < |attempted| && attempted[k] == holder;
    assert PlannedCalls(plan, completed)[k] == BridgeHolder(plan.pair, holder.address, holder.amount);
  }

  /** Nobody with a positive indexed balance is missing from the index's answer. */
  lemma {:induction false} FundedAreListed(table: Table, chain: AccountEvents.ChainId, holders: seq<string>,
      user: string)
    requires AnswersQuery(table, chain, holders) && Balance(table, chain, user) > 0
    ensures Lower(user) in holders
  {
    PositiveHasReceived(table, chain, user);
  }

  lemma {:induction false} PositiveHasReceived(table: Table, chain: AccountEvents.ChainId, user: string)
    requires Balance(table, chain, user) > 0
    ensures Received(table, chain, Lower(user))
  {
    var n := |table| - 1;
    if Balance(table[..n], chain, user) > 0 {
      PositiveHasReceived(table[..n], chain, user);
      var i :| 0 <= i < n && Receives(table[..n][i], chain, Lower(user));
      assert Receives(table[i], chain, Lower(user));
    } else {
      assert Receives(table[n], chain, Lower(user));
    }
  }
}
