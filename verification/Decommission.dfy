/**
  Building and running one chain drain (services/treasury/src/decommission_runtime.rs,
  services/treasury/src/decommission.rs). Balances, the bank and the user service answer
  as the callers' parameters say.
 */
module Decommission {
  import opened Wrappers
  import opened Addresses
  import opened DrainRepo

  datatype Holder = Holder(address: string, amount: nat)

  datatype DrainPlan = DrainPlan(pair: Pair, holders: seq<Holder>, poolAmount: nat, reserveAmount: nat)

  datatype DrainOutcome = Drained(holdersDrained: nat) | PausedTargetInactive

  datatype BankCall =
    | BridgeHolder(pair: Pair, address: string, amount: nat)
    | DrainPool(pair: Pair, amount: nat)
    | DrainReserve(pair: Pair, amount: nat)

  /** No two holders are the same address up to case. */
  ghost predicate DistinctHolders(holders: seq<Holder>) {
    forall i, j | 0 <= i < j < |holders| :: Lower(holders[i].address) != Lower(holders[j].address)
  }

  // ----- Building the plan -----

  function Lowered(addresses: seq<string>): set<string> {
    set i | 0 <= i < |addresses| :: Lower(addresses[i])
  }

  /** First spelling of every address, with its balance, if that is not zero. */
  function Resolved(addresses: seq<string>, balance: string -> Option<nat>): seq<Holder> {
    if addresses == [] then []
    else
      var init, last := addresses[..|addresses| - 1], addresses[|addresses| - 1];
      var amount := AmountOf(balance, last);
      if Lower(last) in Lowered(init) || amount == 0 then Resolved(init, balance)
      else Resolved(init, balance) + [Holder(last, amount)]
  }

  function AmountOf(balance: string -> Option<nat>, address: string): nat {
    if balance(address).Some? then balance(address).value else 0
  }

  /** Every address with its balance, if that is not zero, as `handle_mark_decommissioning` collects them. */
  function Funded(addresses: seq<string>, balance: string -> Option<nat>): seq<Holder> {
    if addresses == [] then []
    else
      var init, last := addresses[..|addresses| - 1], addresses[|addresses| - 1];
      Funded(init, balance) + (if AmountOf(balance, last) == 0 then [] else [Holder(last, AmountOf(balance, last))])
  }

  method ResolveHolders(addresses: seq<string>, balance: string -> Option<nat>) returns (resolved: seq<Holder>)
    ensures resolved == Resolved(addresses, balance)
  {
    var unique: set<string> := {};
    resolved := [];
    for i := 0 to |addresses|
      invariant unique == Lowered(addresses[..i])
      invariant resolved == Resolved(addresses[..i], balance)
    {
      var holder := addresses[i];
      assert addresses[..i + 1][..i] == addresses[..i];
      LoweredAppend(addresses[..i], holder);
      assert addresses[..i] + [holder] == addresses[..i + 1];
      var seen := Lower(holder) in unique;
      unique := unique + {Lower(holder)};
      if seen {
        continue;
      }
      var amount := if balance(holder).Some? then balance(holder).value else 0;
      if amount == 0 {
        continue;
      }
      resolved := resolved + [Holder(holder, amount)];
    }
    assert addresses[..|addresses|] == addresses;
  }

  lemma {:induction false} LoweredAppend(addresses: seq<string>, a: string)
    ensures Lowered(addresses + [a]) == Lowered(addresses) + {Lower(a)}
  {
    var all := addresses + [a];
    assert all[|addresses|] == a;
    forall x | x in Lowered(addresses) ensures x in Lowered(all) {
      var i :| 0 <= i < |addresses| && Lower(addresses[i]) == x;
      assert all[i] == addresses[i];
    }
  }

  lemma {:induction false} ResolvedListed(addresses: seq<string>, balance: string -> Option<nat>)
    ensures forall i | 0 <= i < |Resolved(addresses, balance)| ::
              var h := Resolved(addresses, balance)[i];
              h.address in addresses && balance(h.address) == Some(h.amount) && h.amount > 0
  {
    if addresses != [] {
      var init, last := addresses[..|addresses| - 1], addresses[|addresses| - 1];
      ResolvedListed(init, balance);
      assert addresses == init + [last];
    }
  }

  lemma {:induction false} ListedIsLowered(addresses: seq<string>, a: string)
    requires a in addresses
    ensures Lower(a) in Lowered(addresses)
  {
    var k :| 0 <= k < |addresses| && addresses[k] == a;
  }

  /** The plan's holders are distinct up to case, hold something, and are spelled as in the index. */
  lemma {:induction false} ResolvedHolders(addresses: seq<string>, balance: string -> Option<nat>)
    ensures DistinctHolders(Resolved(addresses, balance))
    ensures forall i | 0 <= i < |Resolved(addresses, balance)| ::
              var h := Resolved(addresses, balance)[i];
              h.address in addresses && balance(h.address) == Some(h.amount) && h.amount > 0
  {
    if addresses != [] {
      var init, last := addresses[..|addresses| - 1], addresses[|addresses| - 1];
      ResolvedHolders(init, balance);
      var r := Resolved(init, balance);
      forall i | 0 <= i < |r| ensures Lower(r[i].address) in Lowered(init) {
        ListedIsLowered(init, r[i].address);
      }
    }
    ResolvedListed(addresses, balance);
  }

  // ----- Running the plan -----

  /** The holders a run attempts: those not completed for the pair before. */
  function Remaining(holders: seq<Holder>, completed: set<string>): seq<Holder> {
    if holders == [] then []
    else if Lower(holders[0].address) in completed then Remaining(holders[1..], completed)
    else [holders[0]] + Remaining(holders[1..], completed)
  }

  function Bridges(pair: Pair, holders: seq<Holder>): (calls: seq<BankCall>)
    ensures |calls| == |holders|
    ensures forall i | 0 <= i < |holders| :: calls[i] == BridgeHolder(pair, holders[i].address, holders[i].amount)
  {
    seq(|holders|, i requires 0 <= i < |holders| => BridgeHolder(pair, holders[i].address, holders[i].amount))
  }

  /** Everything a run asks of the bank: the remaining holders in order, then pool, then reserve. */
  function PlannedCalls(plan: DrainPlan, completed: set<string>): seq<BankCall> {
    Bridges(plan.pair, Remaining(plan.holders, completed))
    + (if plan.poolAmount == 0 then [] else [DrainPool(plan.pair, plan.poolAmount)])
    + (if plan.reserveAmount == 0 then [] else [DrainReserve(plan.pair, plan.reserveAmount)])
  }

  /** Whether the bank and then the user service accept a holder. */
  datatype Answers = Answers(bridged: string -> bool, homeSet: string -> bool)

  predicate Succeeds(answers: Answers, address: string) {
    answers.bridged(address) && answers.homeSet(address)
  }

  function Settled(rows: DrainRows, pair: Pair, holders: seq<Holder>, answers: Answers): DrainRows {
    if holders == [] then rows
    else
      var init, last := holders[..|holders| - 1], holders[|holders| - 1];
      var id := OpId(pair, last.address);
      Marked(Inserted(Settled(rows, pair, init, answers), id, last.amount), id,
             if Succeeds(answers, last.address) then Completed else Failed)
  }

  function Successes(holders: seq<Holder>, answers: Answers): nat {
    if holders == [] then 0
    else Successes(holders[..|holders| - 1], answers) + (if Succeeds(answers, holders[|holders| - 1].address)
        then 1 else 0)
  }

  // ----- What carrying out a plan means -----

  function Asked(call: BankCall): nat {
    call.amount
  }

  function TotalAsked(calls: seq<BankCall>): nat {
    if calls == [] then 0 else TotalAsked(calls[..|calls| - 1]) + Asked(calls[|calls| - 1])
  }

  /** What the holders that are not completed hold together. */
  function Outstanding(holders: seq<Holder>, completed: set<string>): nat {
    if holders == [] then 0
    else
      var last := holders[|holders| - 1];
      Outstanding(holders[..|holders| - 1], completed) + (if Lower(last.address) in completed then 0 else last.amount)
  }

  /** Bridges first, then the pool, then the reserve. */
  function Stage(call: BankCall): nat {
    match call
    case BridgeHolder(_, _, _) => 0
    case DrainPool(_, _) => 1
    case DrainReserve(_, _) => 2
  }

  ghost predicate InStages(calls: seq<BankCall>) {
    forall i, j | 0 <= i < j < |calls| :: Stage(calls[i]) <= Stage(calls[j])
  }

  /**
    The bank is asked to bridge exactly the holders that are not completed, each for what it
    holds, to drain the pool of exactly its amount and the reserve of exactly its, once each and
    only if there is something to drain; in that order; and for the whole sum.
   */
  ghost predicate CarriesOut(calls: seq<BankCall>, plan: DrainPlan, completed: set<string>) {
    && (forall p, a, x :: BridgeHolder(p, a, x) in calls
          <==> p == plan.pair && Holder(a, x) in plan.holders && Lower(a) !in completed)
    && (forall p, x :: DrainPool(p, x) in calls <==> p == plan.pair && x == plan.poolAmount != 0)
    && (forall p, x :: DrainReserve(p, x) in calls <==> p == plan.pair && x == plan.reserveAmount != 0)
    && (forall i, j | 0 <= i < j < |calls| :: Stage(calls[i]) == Stage(calls[j]) ==> Stage(calls[i]) == 0)
    && InStages(calls)
    && TotalAsked(calls) == Outstanding(plan.holders, completed) + plan.poolAmount + plan.reserveAmount
  }

  class Orchestrator {
    const repository: Repository
    /** Calls made to the bank, oldest first. */
    var calls: seq<BankCall>

    constructor (repository: Repository)
      ensures this.repository == repository && calls == []
    {
      this.repository := repository;
      calls := [];
    }

    /** One remaining holder of `run_drain_plan`. */
    method DrainHolder(pair: Pair, holder: Holder, answers: Answers) returns (drained: bool)
      modifies this`calls, repository
      ensures calls == old(calls) + [BridgeHolder(pair, holder.address, holder.amount)]
      ensures drained == Succeeds(answers, holder.address)
      ensures repository.rows == Marked(Inserted(old(repository.rows), OpId(pair, holder.address), holder.amount),
                                        OpId(pair, holder.address), if drained then Completed else Failed)
    {
      var id := OpId(pair, holder.address);
      repository.InsertHolderOp(id, holder.amount);
      calls := calls + [BridgeHolder(pair, holder.address, holder.amount)];
      if answers.bridged(holder.address) {
        repository.Mark(id, Submitted);
        if !answers.homeSet(holder.address) {
          repository.Mark(id, Failed);
          return false;
        }
        repository.Mark(id, Completed);
        return true;
      }
      repository.Mark(id, Failed);
      return false;
    }

    /** The holder loop of `run_drain_plan`. */
    method DrainHolders(pair: Pair, holders: seq<Holder>, completed: set<string>, answers: Answers)
        returns (drained: nat)
      modifies this`calls, repository
      ensures var attempted := Remaining(holders, completed);
              && drained == Successes(attempted, answers)
              && calls == old(calls) + Bridges(pair, attempted)
              && repository.rows == Settled(old(repository.rows), pair, attempted, answers)
    {
      ghost var attempted := Remaining(holders, completed);
      ghost var done: seq<Holder>, rest := [], attempted;
      drained := 0;
      for i := 0 to |holders|
        invariant rest == Remaining(holders[i..], completed) && attempted == done + rest
        invariant drained == Successes(done, answers)
        invariant calls == old(calls) + Bridges(pair, done)
        invariant repository.rows == Settled(old(repository.rows), pair, done, answers)
      {
        var holder := holders[i];
        RemainingStep(holders, i, completed);
        if Lower(holder.address) in completed {
          continue;
        }
        assert done + rest == (done + [holder]) + rest[1..];
        rest := rest[1..];
        AttemptAppend(old(repository.rows), pair, done, holder, answers);
        var ok := DrainHolder(pair, holder, answers);
        if ok {
          drained := drained + 1;
        }
        done := done + [holder];
      }
      assert rest == [] && attempted == done;
    }

    method RunDrainPlan(plan: DrainPlan, targetActive: bool, answers: Answers) returns (outcome: DrainOutcome)
      modifies this`calls, repository
      ensures !targetActive ==>
                outcome == PausedTargetInactive && calls == old(calls) && repository.rows == old(repository.rows)
      ensures targetActive ==>
                var completed := CompletedHolders(old(repository.rows), plan.pair);
                var attempted := Remaining(plan.holders, completed);
                && outcome == Drained(Successes(attempted, answers))
                && calls == old(calls) + PlannedCalls(plan, completed)
                && CarriesOut(calls[|old(calls)|..], plan, completed)
                && repository.rows == Settled(old(repository.rows), plan.pair, attempted, answers)
    {
      if !targetActive {
        return PausedTargetInactive;
      }
      var completed := repository.Completed(plan.pair);
      var drained := DrainHolders(plan.pair, plan.holders, completed, answers);
      if plan.poolAmount != 0 {
        calls := calls + [DrainPool(plan.pair, plan.poolAmount)];
      }
      if plan.reserveAmount != 0 {
        calls := calls + [DrainReserve(plan.pair, plan.reserveAmount)];
      }
      RunCarriesOut(old(calls), calls, plan, completed);
      return Drained(drained);
    }

    /** Collects the index's holders and drains them, without looking for duplicates. */
    method HandleMarkDecommissioning(pair: Pair, addresses: seq<string>, balance: string -> Option<nat>,
                                     pool: nat, reserve: nat, targetActive: bool, answers: Answers)
      returns (outcome: DrainOutcome)
      modifies this`calls, repository
      ensures targetActive ==>
                var completed := CompletedHolders(old(repository.rows), pair);
                var plan := DrainPlan(pair, Funded(addresses, balance), pool, reserve);
                && outcome == Drained(Successes(Remaining(plan.holders, completed), answers))
                && calls == old(calls) + PlannedCalls(plan, completed)
                && CarriesOut(calls[|old(calls)|..], plan, completed)
                && repository.rows == Settled(old(repository.rows), pair, Remaining(plan.holders, completed), answers)
      ensures !targetActive ==>
                outcome == PausedTargetInactive && calls == old(calls) && repository.rows == old(repository.rows)
    {
      var resolved: seq<Holder> := [];
      for i := 0 to |addresses|
        invariant resolved == Funded(addresses[..i], balance)
        invariant calls == old(calls) && repository.rows == old(repository.rows)
      {
        assert addresses[..i + 1][..i] == addresses[..i];
        var amount := if balance(addresses[i]).Some? then balance(addresses[i]).value else 0;
        if amount != 0 {
          resolved := resolved + [Holder(addresses[i], amount)];
        }
      }
      assert addresses[..|addresses|] == addresses;
      outcome := RunDrainPlan(DrainPlan(pair, resolved, pool, reserve), targetActive, answers);
    }
  }

  lemma {:induction false} RemainingStep(holders: seq<Holder>, i: nat, completed: set<string>)
    requires i < |holders|
    ensures Remaining(holders[i..], completed)
         == (if Lower(holders[i].address) in completed then []
             else [holders[i]]) + Remaining(holders[i + 1..], completed)
  {
    assert holders[i..][1..] == holders[i + 1..];
  }

  lemma {:induction false} AttemptAppend(rows: DrainRows, pair: Pair, done: seq<Holder>, h: Holder, answers: Answers)
    ensures Successes(done + [h], answers) == Successes(done, answers) + (if Succeeds(answers, h.address) then 1 else 0)
    ensures Bridges(pair, done + [h]) == Bridges(pair, done) + [BridgeHolder(pair, h.address, h.amount)]
    ensures Settled(rows, pair, done + [h], answers)
         == Marked(Inserted(Settled(rows, pair, done, answers), OpId(pair, h.address), h.amount), OpId(pair, h.address),
                   if Succeeds(answers, h.address) then Completed else Failed)
  {
    assert (done + [h])[..|done|] == done;
  }

  /**
    What the drained holders leave in the table: every attempted one is completed if bank and
    user service took it and failed otherwise, and every other row is as it was.
   */
  lemma {:induction false} SettledRows(rows: DrainRows, pair: Pair, holders: seq<Holder>, answers: Answers)
    ensures forall h | h in holders :: OpId(pair, h.address) in Settled(rows, pair, holders, answers)
              && Settled(rows, pair, holders, answers)[OpId(pair, h.address)].status
                 == if answers.bridged(h.address) && answers.homeSet(h.address) then Completed else Failed
    ensures forall id | id in rows :: id in Settled(rows, pair, holders, answers)
              && Settled(rows, pair, holders, answers)[id].(status := rows[id].status) == rows[id]
    ensures forall id | id in Settled(rows, pair, holders, answers) && !IsOpOf(id, pair, holders) ::
              id in rows && Settled(rows, pair, holders, answers)[id] == rows[id]
  {
    if holders != [] {
      var init, last := holders[..|holders| - 1], holders[|holders| - 1];
      assert holders == init + [last];
      SettledRows(rows, pair, init, answers);
    }
  }

  /** A run counts the holders that succeeded. */
  lemma {:induction false} SuccessesCounted(holders: seq<Holder>, answers: Answers)
    ensures Successes(holders, answers) == |Succeeded(holders, answers)|
  {
    if holders != [] {
      SuccessesCounted(holders[..|holders| - 1], answers);
      SucceededStep(holders, answers);
    }
  }

  ghost predicate IsOpOf(id: OpId, pair: Pair, holders: seq<Holder>) {
    exists h :: h in holders && id == OpId(pair, h.address)
  }

  /** The places of the holders that succeed. */
  ghost function Succeeded(holders: seq<Holder>, answers: Answers): set<int> {
    set i | 0 <= i < |holders| && Succeeds(answers, holders[i].address)
  }

  lemma {:induction false} SucceededStep(holders: seq<Holder>, answers: Answers)
    requires holders != []
    ensures var n := |holders| - 1;
            |Succeeded(holders, answers)|
            == |Succeeded(holders[..n], answers)| + (if Succeeds(answers, holders[n].address) then 1 else 0)
  {
    var n := |holders| - 1;
    var before := Succeeded(holders[..n], answers);
    assert n !in before;
    assert Succeeded(holders, answers) == before + (if Succeeds(answers, holders[n].address) then {n} else {});
  }

  lemma {:induction false} TotalAskedAppend(calls: seq<BankCall>, more: seq<BankCall>)
    ensures TotalAsked(calls + more) == TotalAsked(calls) + TotalAsked(more)
  {
    if more == [] {
      assert calls + more == calls;
    } else {
      var init := more[..|more| - 1];
      TotalAskedAppend(calls, init);
      assert (calls + more)[..|calls + more| - 1] == calls + init;
    }
  }

  lemma {:induction false} RemainingAppend(holders: seq<Holder>, h: Holder, completed: set<string>)
    ensures Remaining(holders + [h], completed)
         == Remaining(holders, completed) + (if Lower(h.address) in completed then [] else [h])
  {
    if holders == [] {
      assert holders + [h] == [h] && [h][1..] == [];
    } else {
      RemainingAppend(holders[1..], h, completed);
      assert (holders + [h])[1..] == holders[1..] + [h];
    }
  }

  lemma {:induction false} BridgesAsk(pair: Pair, holders: seq<Holder>, completed: set<string>)
    ensures TotalAsked(Bridges(pair, Remaining(holders, completed))) == Outstanding(holders, completed)
  {
    if holders != [] {
      var n := |holders| - 1;
      BridgesAsk(pair, holders[..n], completed);
      assert holders == holders[..n] + [holders[n]];
      RemainingAppend(holders[..n], holders[n], completed);
      var rest, h := Remaining(holders[..n], completed), holders[n];
      if Lower(h.address) in completed {
        assert rest + [] == rest;
      } else {
        assert Bridges(pair, rest + [h]) == Bridges(pair, rest) + [BridgeHolder(pair, h.address, h.amount)];
        TotalAskedAppend(Bridges(pair, rest), [BridgeHolder(pair, h.address, h.amount)]);
        OneAsked(BridgeHolder(pair, h.address, h.amount));
      }
    }
  }

  lemma {:induction false} OneAsked(call: BankCall)
    ensures TotalAsked([call]) == call.amount
  {
    assert [call][..0] == [];
  }

  function PoolCall(plan: DrainPlan): seq<BankCall> {
    if plan.poolAmount == 0 then [] else [DrainPool(plan.pair, plan.poolAmount)]
  }

  function ReserveCall(plan: DrainPlan): seq<BankCall> {
    if plan.reserveAmount == 0 then [] else [DrainReserve(plan.pair, plan.reserveAmount)]
  }

  lemma {:induction false} PlannedTotal(plan: DrainPlan, completed: set<string>)
    ensures TotalAsked(PlannedCalls(plan, completed))
         == Outstanding(plan.holders, completed) + plan.poolAmount + plan.reserveAmount
  {
    var bridges := Bridges(plan.pair, Remaining(plan.holders, completed));
    assert PlannedCalls(plan, completed) == bridges + PoolCall(plan) + ReserveCall(plan);
    BridgesAsk(plan.pair, plan.holders, completed);
    TotalAskedAppend(bridges, PoolCall(plan));
    TotalAskedAppend(bridges + PoolCall(plan), ReserveCall(plan));
    OneAsked(DrainPool(plan.pair, plan.poolAmount));
    OneAsked(DrainReserve(plan.pair, plan.reserveAmount));
  }

  lemma {:induction false} PlannedStages(plan: DrainPlan, completed: set<string>)
    ensures var calls := PlannedCalls(plan, completed);
            && InStages(calls)
            && forall i, j | 0 <= i < j < |calls| :: Stage(calls[i]) == Stage(calls[j]) ==> Stage(calls[i]) == 0
  {
  }

  lemma {:induction false} PlannedBridges(plan: DrainPlan, completed: set<string>, p: Pair, a: string, x: nat)
    ensures BridgeHolder(p, a, x) in PlannedCalls(plan, completed)
            <==> p == plan.pair && Holder(a, x) in plan.holders && Lower(a) !in completed
  {
    var attempted := Remaining(plan.holders, completed);
    var bridges := Bridges(plan.pair, attempted);
    assert PlannedCalls(plan, completed) == bridges + PoolCall(plan) + ReserveCall(plan);
    RemainingMembers(plan.holders, completed);
    if BridgeHolder(p, a, x) in bridges {
      var k :| 0 <= k < |bridges| && bridges[k] == BridgeHolder(p, a, x);
      assert attempted[k] == Holder(a, x);
    }
    if p == plan.pair && Holder(a, x) in attempted {
      var k :| 0 <= k < |attempted| && attempted[k] == Holder(a, x);
      assert bridges[k] == BridgeHolder(p, a, x);
    }
  }

  lemma {:induction false} PlannedDrains(plan: DrainPlan, completed: set<string>, p: Pair, x: nat)
    ensures DrainPool(p, x) in PlannedCalls(plan, completed) <==> p == plan.pair && x == plan.poolAmount != 0
    ensures DrainReserve(p, x) in PlannedCalls(plan, completed) <==> p == plan.pair && x == plan.reserveAmount != 0
  {
    var bridges := Bridges(plan.pair, Remaining(plan.holders, completed));
    assert PlannedCalls(plan, completed) == bridges + PoolCall(plan) + ReserveCall(plan);
    assert forall i | 0 <= i < |bridges| :: bridges[i].BridgeHolder?;
    assert DrainPool(p, x) in PoolCall(plan) <==> p == plan.pair && x == plan.poolAmount != 0;
    assert DrainReserve(p, x) in ReserveCall(plan) <==> p == plan.pair && x == plan.reserveAmount != 0;
  }

  /** The calls of a run carry its plan out. */
  lemma {:induction false} PlannedCarryOut(plan: DrainPlan, completed: set<string>)
    ensures CarriesOut(PlannedCalls(plan, completed), plan, completed)
  {
    forall p, a, x ensures BridgeHolder(p, a, x) in PlannedCalls(plan, completed)
        <==> p == plan.pair && Holder(a, x) in plan.holders && Lower(a) !in completed {
      PlannedBridges(plan, completed, p, a, x);
    }
    forall p, x
      ensures DrainPool(p, x) in PlannedCalls(plan, completed) <==> p == plan.pair && x == plan.poolAmount != 0
      ensures DrainReserve(p, x) in PlannedCalls(plan, completed) <==> p == plan.pair && x == plan.reserveAmount != 0
    {
      PlannedDrains(plan, completed, p, x);
    }
    PlannedStages(plan, completed);
    PlannedTotal(plan, completed);
  }

  lemma {:induction false} RunCarriesOut(before: seq<BankCall>, after: seq<BankCall>, plan: DrainPlan,
                                         completed: set<string>)
    requires after == before + Bridges(plan.pair, Remaining(plan.holders, completed)) + PoolCall(plan)
                      + ReserveCall(plan)
    ensures after == before + PlannedCalls(plan, completed)
    ensures |before| <= |after| && CarriesOut(after[|before|..], plan, completed)
  {
    assert after == before + PlannedCalls(plan, completed);
    assert after[|before|..] == PlannedCalls(plan, completed);
    PlannedCarryOut(plan, completed);
  }

  // ----- A holder is bridged once per run -----

  ghost predicate BridgedOnce(calls: seq<BankCall>) {
    forall i, j | 0 <= i < j < |calls| && calls[i].BridgeHolder? && calls[j].BridgeHolder? ::
      Lower(calls[i].address) != Lower(calls[j].address)
  }

  lemma {:induction false} RemainingMembers(holders: seq<Holder>, completed: set<string>)
    ensures forall h :: h in Remaining(holders, completed) <==> h in holders && Lower(h.address) !in completed
    ensures DistinctHolders(holders) ==> DistinctHolders(Remaining(holders, completed))
  {
    if holders != [] {
      RemainingMembers(holders[1..], completed);
      var rest := Remaining(holders[1..], completed);
      if DistinctHolders(holders) {
        forall k | 0 <= k < |rest| ensures Lower(holders[0].address) != Lower(rest[k].address) {
          assert rest[k] in holders[1..];
          var j :| 0 <= j < |holders[1..]| && holders[1..][j] == rest[k];
          assert holders[j + 1] == rest[k];
        }
      }
    }
  }

  /** The holder calls of a plan are those for its remaining holders. */
  lemma {:induction false} BridgedOnceExactlyWhenDistinct(plan: DrainPlan, completed: set<string>)
    ensures BridgedOnce(PlannedCalls(plan, completed)) <==> DistinctHolders(Remaining(plan.holders, completed))
  {
    var attempted := Remaining(plan.holders, completed);
    var calls := PlannedCalls(plan, completed);
    assert forall i | 0 <= i < |attempted| :: calls[i] == BridgeHolder(plan.pair, attempted[i].address,
        attempted[i].amount);
    assert forall i | |attempted| <= i < |calls| :: !calls[i].BridgeHolder?;
    if BridgedOnce(calls) {
      forall i, j | 0 <= i < j < |attempted| ensures Lower(attempted[i].address) != Lower(attempted[j].address) {
        assert calls[i].address == attempted[i].address && calls[j].address == attempted[j].address;
      }
    }
  }

  /** Plans built from the index always are, and never attempt a completed holder. */
  lemma {:induction false} BuiltPlanBridgesOnce(pair: Pair, addresses: seq<string>, balance: string -> Option<nat>,
                                                pool: nat, reserve: nat, completed: set<string>)
    ensures var plan := DrainPlan(pair, Resolved(addresses, balance), pool, reserve);
            && BridgedOnce(PlannedCalls(plan, completed))
            && (forall h | h in Remaining(plan.holders, completed) :: Lower(h.address) !in completed)
  {
    var plan := DrainPlan(pair, Resolved(addresses, balance), pool, reserve);
    ResolvedHolders(addresses, balance);
    RemainingMembers(plan.holders, completed);
    BridgedOnceExactlyWhenDistinct(plan, completed);
  }
}
