/**
  `run_drain_plan` (services/treasury/src/decommission.rs) as the steps of the concurrent
  model that it amounts to when nothing comes between them.
 */
module DrainTask {
  import opened Wrappers
  import opened Addresses
  import opened DrainRepo
  import opened Decommission
  import opened DrainRuns

  lemma {:induction false} RunCons(s: State, a: Action, rest: seq<Action>)
    requires Enabled(s, a) && Allowed(Step(s, a), rest)
    ensures Allowed(s, [a] + rest) && Run(s, [a] + rest) == Run(Step(s, a), rest)
  {
    assert ([a] + rest)[1..] == rest;
  }

  lemma {:induction false} SettledLast(rows: DrainRows, pair: Pair, holders: seq<Holder>, h: Holder, answers: Answers)
    ensures Settled(rows, pair, holders + [h], answers)
         == Marked(Inserted(Settled(rows, pair, holders, answers), OpId(pair, h.address), h.amount),
                   OpId(pair, h.address), if Succeeds(answers, h.address) then Completed else Failed)
  {
    assert (holders + [h])[..|holders|] == holders;
  }

  lemma {:induction false} SettledFirst(rows: DrainRows, pair: Pair, h: Holder, rest: seq<Holder>, answers: Answers)
    ensures Settled(rows, pair, [h] + rest, answers) == Settled(Settled(rows, pair, [h], answers), pair, rest, answers)
  {
    if rest == [] {
      assert [h] + rest == [h];
    } else {
      var n := |rest| - 1;
      var init, last := rest[..n], rest[n];
      SettledFirst(rows, pair, h, init, answers);
      assert rest == init + [last] && [h] + rest == ([h] + init) + [last];
      SettledLast(rows, pair, [h] + init, last, answers);
      SettledLast(Settled(rows, pair, [h], answers), pair, init, last, answers);
    }
  }

  // ----- One holder -----

  /** What one attempted holder adds to the log. */
  function HolderLog(id: nat, pair: Pair, h: Holder, answers: Answers): seq<Event> {
    [Bridged(id, pair, Lower(h.address))]
    + (if Succeeds(answers, h.address) then [HolderCompleted(pair, Lower(h.address))] else [])
  }

  /** The state after the current holder. */
  ghost function HolderDone(s: State, id: nat, answers: Answers): State
    requires id in s.tasks && s.tasks[id].next < |s.tasks[id].plan.holders|
  {
    var t := s.tasks[id];
    var h := Current(t);
    s.(tasks := s.tasks[id := t.(phase := AtHolder, next := t.next + 1)],
       rows := Settled(s.rows, t.plan.pair, [h], answers), log := s.log + HolderLog(id, t.plan.pair, h, answers))
  }

  ghost predicate AtNewHolder(s: State, id: nat) {
    && InPhase(s, id, AtHolder) && s.tasks[id].next < |s.tasks[id].plan.holders|
    && Lower(Current(s.tasks[id]).address) !in s.tasks[id].skip
  }

  /** Recorded and handed to the bank. */
  ghost function Bridging(s: State, id: nat): State
    requires AtNewHolder(s, id)
  {
    var t := s.tasks[id];
    s.(tasks := s.tasks[id := t.(phase := Called)], rows := Inserted(s.rows, CurrentOp(t), Current(t).amount),
       log := s.log + [Bridged(id, t.plan.pair, Lower(Current(t).address))])
  }

  lemma {:induction false} HolderIsCalled(s: State, id: nat, rest: seq<Action>) returns (run: seq<Action>)
    requires AtNewHolder(s, id) && Allowed(Bridging(s, id), rest)
    ensures Allowed(s, run) && Run(s, run) == Run(Bridging(s, id), rest)
  {
    var s1 := Step(s, TakeHolder(id));
    assert Step(s1, CallBridge(id)) == Bridging(s, id);
    RunCons(s1, CallBridge(id), rest);
    RunCons(s, TakeHolder(id), [CallBridge(id)] + rest);
    run := [TakeHolder(id)] + ([CallBridge(id)] + rest);
  }

  lemma {:induction false} HolderIsAnswered(s: State, id: nat, answers: Answers, rest: seq<Action>)
    returns (run: seq<Action>)
    requires AtNewHolder(s, id) && Allowed(HolderDone(s, id, answers), rest)
    ensures Allowed(Bridging(s, id), run) && Run(Bridging(s, id), run) == Run(HolderDone(s, id, answers), rest)
  {
    var a := Current(s.tasks[id]).address;
    var called := Bridging(s, id);
    var bridge, home := BridgeResult(id, answers.bridged(a)), HomeResult(id, answers.homeSet(a));
    assert [Current(s.tasks[id])] == [] + [Current(s.tasks[id])];
    SettledLast(s.rows, s.tasks[id].plan.pair, [], Current(s.tasks[id]), answers);
    var s3 := Step(called, bridge);
    if answers.bridged(a) {
      assert Step(s3, home) == HolderDone(s, id, answers);
      RunCons(s3, home, rest);
      RunCons(called, bridge, [home] + rest);
      run := [bridge] + ([home] + rest);
    } else {
      assert s3 == HolderDone(s, id, answers);
      RunCons(called, bridge, rest);
      run := [bridge] + rest;
    }
  }

  // ----- The holders, then pool and reserve -----

  /** What the log says of the attempted holders. */
  function HolderEvents(id: nat, pair: Pair, holders: seq<Holder>, answers: Answers): seq<Event> {
    if holders == [] then []
    else HolderLog(id, pair, holders[0], answers) + HolderEvents(id, pair, holders[1..], answers)
  }

  /** What it says of pool and reserve. */
  function BankEvents(id: nat, t: Task): seq<Event> {
    (if t.plan.poolAmount == 0 then [] else [PoolDrained(id, t.plan.pair, t.plan.poolAmount, RemainingOf(t))])
    + (if t.plan.reserveAmount == 0 then []
       else [ReserveDrained(id, t.plan.pair, t.plan.reserveAmount, RemainingOf(t))])
  }

  lemma {:induction false} UndisturbedBank(s: State, id: nat) returns (run: seq<Action>)
    requires InPhase(s, id, AtPool)
    ensures Allowed(s, run)
    ensures var s' := Run(s, run);
            s'.tasks == s.tasks - {id} && s'.rows == s.rows && s'.log == s.log + BankEvents(id, s.tasks[id])
  {
    var s1 := Step(s, DrainPoolStep(id));
    var s2 := Step(s1, DrainReserveStep(id));
    RunCons(s2, Finish(id), []);
    RunCons(s1, DrainReserveStep(id), [Finish(id)] + []);
    RunCons(s, DrainPoolStep(id), [DrainReserveStep(id)] + ([Finish(id)] + []));
    run := [DrainPoolStep(id)] + ([DrainReserveStep(id)] + ([Finish(id)] + []));
  }

  /** The holders from the next one on, and then the bank. */
  ghost predicate DrainedFrom(s: State, s': State, id: nat, answers: Answers)
    requires id in s.tasks && s.tasks[id].next <= |s.tasks[id].plan.holders|
  {
    var t := s.tasks[id];
    var attempted := Remaining(t.plan.holders[t.next..], t.skip);
    && s'.tasks == s.tasks - {id} && s'.rows == Settled(s.rows, t.plan.pair, attempted, answers)
    && s'.log == s.log + HolderEvents(id, t.plan.pair, attempted, answers) + BankEvents(id, t)
  }

  lemma {:induction false} UndisturbedHolders(s: State, id: nat, answers: Answers) returns (run: seq<Action>)
    requires InPhase(s, id, AtHolder)
    ensures Allowed(s, run) && DrainedFrom(s, Run(s, run), id, answers)
    decreases |s.tasks[id].plan.holders| - s.tasks[id].next
  {
    var t := s.tasks[id];
    if t.next == |t.plan.holders| {
      run := BankAfterHolders(s, id, answers);
    } else if Lower(Current(t).address) in t.skip {
      var more := UndisturbedHolders(Skipped(s, id), id, answers);
      run := SkippedThenRest(s, id, answers, more);
    } else {
      var more := UndisturbedHolders(HolderDone(s, id, answers), id, answers);
      run := HolderThenRest(s, id, answers, more);
    }
  }

  lemma {:induction false} BankAfterHolders(s: State, id: nat, answers: Answers) returns (run: seq<Action>)
    requires InPhase(s, id, AtHolder) && s.tasks[id].next == |s.tasks[id].plan.holders|
    ensures Allowed(s, run) && DrainedFrom(s, Run(s, run), id, answers)
  {
    var t := s.tasks[id];
    var s1 := Step(s, TakeHolder(id));
    var rest := UndisturbedBank(s1, id);
    RunCons(s, TakeHolder(id), rest);
    run := [TakeHolder(id)] + rest;
    assert t.plan.holders[t.next..] == [];
    BankEventsSame(id, t, s1.tasks[id]);
  }

  /** The state after a holder that was completed before. */
  function Skipped(s: State, id: nat): State
    requires id in s.tasks
  {
    s.(tasks := s.tasks[id := s.tasks[id].(next := s.tasks[id].next + 1)])
  }

  lemma {:induction false} SkippedThenRest(s: State, id: nat, answers: Answers, more: seq<Action>)
    returns (run: seq<Action>)
    requires InPhase(s, id, AtHolder) && s.tasks[id].next < |s.tasks[id].plan.holders|
    requires Lower(Current(s.tasks[id]).address) in s.tasks[id].skip
    requires Allowed(Skipped(s, id), more) && DrainedFrom(Skipped(s, id), Run(Skipped(s, id), more), id, answers)
    ensures Allowed(s, run) && DrainedFrom(s, Run(s, run), id, answers)
  {
    var t := s.tasks[id];
    assert Step(s, TakeHolder(id)) == Skipped(s, id);
    RunCons(s, TakeHolder(id), more);
    run := [TakeHolder(id)] + more;
    RemainingStep(t.plan.holders, t.next, t.skip);
    assert [] + Remaining(t.plan.holders[t.next + 1..], t.skip) == Remaining(t.plan.holders[t.next + 1..], t.skip);
    BankEventsSame(id, t, Skipped(s, id).tasks[id]);
  }

  lemma {:induction false} HolderThenRest(s: State, id: nat, answers: Answers, more: seq<Action>)
    returns (run: seq<Action>)
    requires AtNewHolder(s, id)
    requires var s1 := HolderDone(s, id, answers); Allowed(s1, more) && DrainedFrom(s1, Run(s1, more), id, answers)
    ensures Allowed(s, run) && DrainedFrom(s, Run(s, run), id, answers)
  {
    var t := s.tasks[id];
    var answered := HolderIsAnswered(s, id, answers, more);
    run := HolderIsCalled(s, id, answered);
    RemainingStep(t.plan.holders, t.next, t.skip);
    var rest := Remaining(t.plan.holders[t.next + 1..], t.skip);
    SettledFirst(s.rows, t.plan.pair, Current(t), rest, answers);
    EventsFirst(s.log, id, t.plan.pair, Current(t), rest, answers, BankEvents(id, t));
    BankEventsSame(id, t, HolderDone(s, id, answers).tasks[id]);
  }

  lemma {:induction false} EventsFirst(log: seq<Event>, id: nat, pair: Pair, h: Holder, rest: seq<Holder>,
                                       answers: Answers, bank: seq<Event>)
    ensures log + HolderEvents(id, pair, [h] + rest, answers) + bank
         == log + HolderLog(id, pair, h, answers) + HolderEvents(id, pair, rest, answers) + bank
  {
    assert ([h] + rest)[1..] == rest;
  }

  /**
    A drain that nothing comes between does what `RunDrainPlan` does: nothing at all for an
    inactive target; otherwise the table is settled for exactly the holders that were not
    completed, each is bridged in turn, and then pool and reserve are drained of their amounts.
   */
  lemma {:induction false} UndisturbedDrain(s: State, id: nat, active: bool, answers: Answers)
    returns (run: seq<Action>)
    requires InPhase(s, id, Checking) && s.tasks[id].next == 0
    ensures Allowed(s, run) && Run(s, run).tasks == s.tasks - {id}
    ensures !active ==> Run(s, run).rows == s.rows && Run(s, run).log == s.log
    ensures active ==>
              var t, s' := s.tasks[id], Run(s, run);
              var skip := CompletedHolders(s.rows, t.plan.pair);
              var attempted := Remaining(t.plan.holders, skip);
              && s'.rows == Settled(s.rows, t.plan.pair, attempted, answers)
              && s'.log == s.log + HolderEvents(id, t.plan.pair, attempted, answers)
                           + BankEvents(id, t.(skip := skip))
  {
    var check := CheckTarget(id, active);
    var s1 := Step(s, check);
    if active {
      var rest := UndisturbedHolders(s1, id, answers);
      RunCons(s, check, rest);
      run := [check] + rest;
      assert s.tasks[id].plan.holders[0..] == s.tasks[id].plan.holders;
      BankEventsSame(id, s1.tasks[id], s.tasks[id].(skip := s1.tasks[id].skip));
    } else {
      RunCons(s1, Finish(id), []);
      RunCons(s, check, [Finish(id)] + []);
      run := [check] + ([Finish(id)] + []);
    }
  }

  lemma {:induction false} BankEventsSame(id: nat, t: Task, u: Task)
    requires t.plan == u.plan && t.skip == u.skip
    ensures BankEvents(id, t) == BankEvents(id, u)
  {
  }
}
