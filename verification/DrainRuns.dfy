/**
  Every sequence of drain starts, crashes and restarts: the lock of
  `start_decommission_drain` (services/treasury/src/server.rs) and the drain task it
  spawns (services/treasury/src/decommission.rs), one await at a time.

  The checks made before the lock is taken can only refuse a start; they are left open.
 */
module DrainRuns {
  import opened Wrappers
  import opened Addresses
  import opened DrainRepo
  import opened Decommission

  // ----- The lock section -----

  /** `DrainRuntimeState`. */
  datatype Runtime = Runtime(running: Option<Pair>, resumable: Option<Pair>)

  predicate MayStart(runtime: Runtime, pair: Pair) {
    runtime.running.None? && (runtime.resumable.None? || runtime.resumable.value == pair)
  }

  class DrainRuntime {
    var running: Option<Pair>
    var resumable: Option<Pair>

    constructor (resumable: Option<Pair>)
      ensures running == None && this.resumable == resumable
    {
      running := None;
      this.resumable := resumable;
    }

    /** The lock section of `start_decommission_drain`; `actionable` says whether the plan moves anything above dust. */
    method Start(pair: Pair, actionable: bool) returns (started: bool)
      modifies this
      ensures started <==>
                && old(running) == None && (old(resumable) == None || old(resumable) == Some(pair)) && actionable
      ensures started ==> running == Some(pair) && resumable == Some(pair)
      ensures !started ==> running == old(running) && resumable == old(resumable)
    {
      if running.Some? {
        return false;
      }
      if resumable.Some? && resumable.value != pair {
        return false;
      }
      if !actionable {
        return false;
      }
      running := Some(pair);
      resumable := Some(pair);
      return true;
    }

    /** The end of the spawned task. */
    method Finish(pair: Pair, incomplete: bool)
      modifies this
      ensures running == None && resumable == if incomplete then Some(pair) else None
    {
      running := None;
      resumable := if incomplete then Some(pair) else None;
    }
  }

  // ----- Steps -----

  datatype Phase =
    | Checking              // before the target is checked
    | AtHolder              // about to look at holder `next`
    | OpInserted            // its row is there, the bank not yet called
    | Called                // the bank was called
    | Homing                // bridged, home chain being set
    | AtPool
    | AtReserve
    | Finishing

  /** `skip` is the set of completed holders read at the start; `holders[..next]` are dealt with. */
  datatype Task = Task(plan: DrainPlan, skip: set<string>, next: nat, phase: Phase)

  datatype Event =
    | Bridged(task: nat, pair: Pair, holder: string)
    | HolderCompleted(pair: Pair, holder: string)
    | PoolDrained(task: nat, pair: Pair, amount: nat, remaining: set<string>)
    | ReserveDrained(task: nat, pair: Pair, amount: nat, remaining: set<string>)

  datatype State = State(rows: DrainRows, runtime: Runtime, tasks: map<nat, Task>, spawned: nat, log: seq<Event>)

  const INIT := State(map[], Runtime(None, None), map[], 0, [])

  datatype Action =
    | StartDrain(pair: Pair, addresses: seq<string>, balance: string -> Option<nat>, pool: nat, reserve: nat)
    | CheckTarget(id: nat, active: bool)
    | TakeHolder(id: nat)
    | CallBridge(id: nat)
    | BridgeResult(id: nat, ok: bool)
    | HomeResult(id: nat, ok: bool)
    | DrainPoolStep(id: nat)
    | DrainReserveStep(id: nat)
    | Finish(id: nat)
    | Crash(resumable: Option<Pair>)

  predicate InPhase(s: State, id: nat, phase: Phase) {
    id in s.tasks && s.tasks[id].phase == phase && s.tasks[id].next <= |s.tasks[id].plan.holders|
    && (phase in {OpInserted, Called, Homing} ==> s.tasks[id].next < |s.tasks[id].plan.holders|)
  }

  ghost predicate Enabled(s: State, a: Action) {
    match a
    case StartDrain(pair, _, _, _, _) => MayStart(s.runtime, pair)
    case CheckTarget(id, _) => InPhase(s, id, Checking)
    case TakeHolder(id) => InPhase(s, id, AtHolder)
    case CallBridge(id) => InPhase(s, id, OpInserted)
    case BridgeResult(id, _) => InPhase(s, id, Called)
    case HomeResult(id, _) => InPhase(s, id, Homing)
    case DrainPoolStep(id) => InPhase(s, id, AtPool)
    case DrainReserveStep(id) => InPhase(s, id, AtReserve)
    case Finish(id) => InPhase(s, id, Finishing)
    case Crash(_) => true
  }

  function With(s: State, id: nat, t: Task): State {
    s.(tasks := s.tasks[id := t])
  }

  function Current(t: Task): Holder
    requires t.next < |t.plan.holders|
  {
    t.plan.holders[t.next]
  }

  function CurrentOp(t: Task): OpId
    requires t.next < |t.plan.holders|
  {
    OpId(t.plan.pair, Current(t).address)
  }

  /** The lower-case addresses the task has to attempt. */
  function RemainingOf(t: Task): set<string> {
    set h | h in t.plan.holders && Lower(h.address) !in t.skip :: Lower(h.address)
  }

  ghost function Step(s: State, a: Action): State
    requires Enabled(s, a)
  {
    match a
    case StartDrain(pair, addresses, balance, pool, reserve) =>
      var plan := DrainPlan(pair, Resolved(addresses, balance), pool, reserve);
      s.(runtime := Runtime(Some(plan.pair), Some(plan.pair)),
         tasks := s.tasks[s.spawned := Task(plan, {}, 0, Checking)], spawned := s.spawned + 1)
    case CheckTarget(id, active) =>
      var t := s.tasks[id];
      With(s, id, if !active then t.(phase := Finishing)
                  else t.(skip := CompletedHolders(s.rows, t.plan.pair), phase := AtHolder))
    case TakeHolder(id) =>
      var t := s.tasks[id];
      if t.next == |t.plan.holders| then With(s, id, t.(phase := AtPool))
      else if Lower(Current(t).address) in t.skip then With(s, id, t.(next := t.next + 1))
      else With(s, id, t.(phase := OpInserted)).(rows := Inserted(s.rows, CurrentOp(t), Current(t).amount))
    case CallBridge(id) =>
      var t := s.tasks[id];
      With(s, id, t.(phase := Called)).(log := s.log + [Bridged(id, t.plan.pair, Lower(Current(t).address))])
    case BridgeResult(id, ok) =>
      var t := s.tasks[id];
      if ok then With(s, id, t.(phase := Homing)).(rows := Marked(s.rows, CurrentOp(t), Submitted))
      else With(s, id, t.(phase := AtHolder, next := t.next + 1)).(rows := Marked(s.rows, CurrentOp(t), Failed))
    case HomeResult(id, ok) =>
      var t := s.tasks[id];
      var s' := With(s, id, t.(phase := AtHolder, next := t.next + 1));
      if ok then s'.(rows := Marked(s.rows, CurrentOp(t), Completed),
                     log := s.log + [HolderCompleted(t.plan.pair, Lower(Current(t).address))])
      else s'.(rows := Marked(s.rows, CurrentOp(t), Failed))
    case DrainPoolStep(id) =>
      var t := s.tasks[id];
      var s' := With(s, id, t.(phase := AtReserve));
      if t.plan.poolAmount == 0 then s'
      else s'.(log := s.log + [PoolDrained(id, t.plan.pair, t.plan.poolAmount, RemainingOf(t))])
    case DrainReserveStep(id) =>
      var t := s.tasks[id];
      var s' := With(s, id, t.(phase := Finishing));
      if t.plan.reserveAmount == 0 then s'
      else s'.(log := s.log + [ReserveDrained(id, t.plan.pair, t.plan.reserveAmount, RemainingOf(t))])
    case Finish(id) =>
      var pair := s.tasks[id].plan.pair;
      s.(tasks := s.tasks - {id}, runtime := Runtime(None, if HasIncomplete(s.rows) then Some(pair) else None))
    case Crash(resumable) => s.(tasks := map[], runtime := Runtime(None, resumable))
  }

  ghost predicate Allowed(s: State, run: seq<Action>)
    decreases |run|
  {
    run == [] || (Enabled(s, run[0]) && Allowed(Step(s, run[0]), run[1..]))
  }

  ghost function Run(s: State, run: seq<Action>): State
    requires Allowed(s, run)
    decreases |run|
  {
    if run == [] then s else Run(Step(s, run[0]), run[1..])
  }

  /**
    After a drain ends, another pair may be started only if no holder is left pending or
    submitted; the same pair always may.
   */
  lemma {:induction false} UnfinishedPairGoesFirst(s: State, id: nat, other: Pair)
    requires Enabled(s, Finish(id))
    ensures MayStart(Step(s, Finish(id)).runtime, other)
            <==> || other == s.tasks[id].plan.pair
                 || forall op | op in s.rows :: s.rows[op].status == Completed || s.rows[op].status == Failed
  {
  }

  // ----- One drain at a time -----

  ghost predicate Single(s: State) {
    && (forall a, b | a in s.tasks && b in s.tasks :: a == b)
    && (forall id | id in s.tasks :: id < s.spawned && s.runtime.running == Some(s.tasks[id].plan.pair))
    && (s.runtime.running.Some? ==> exists id :: id in s.tasks)
  }

  lemma {:induction false} StepSingle(s: State, a: Action)
    requires Single(s) && Enabled(s, a)
    ensures Single(Step(s, a))
  {
    var s' := Step(s, a);
    if a.StartDrain? {
      assert s.tasks.Keys == {};
      assert s.spawned in s'.tasks;
    } else if !a.Finish? && !a.Crash? {
      assert a.id in s'.tasks;
    }
  }

  // ----- What the log says -----

  /** A completion is followed by no further bridging of that holder for that pair. */
  ghost predicate NeverAgain(log: seq<Event>) {
    forall i, j | 0 <= i < j < |log| && log[i].HolderCompleted? && log[j].Bridged? ::
      (log[i].pair, log[i].holder) != (log[j].pair, log[j].holder)
  }

  /** One task never bridges a holder twice. */
  ghost predicate OncePerTask(log: seq<Event>) {
    forall i, j | 0 <= i < j < |log| && log[i].Bridged? && log[j].Bridged? && log[i].task == log[j].task ::
      log[i].holder != log[j].holder
  }

  ghost predicate AttemptedBefore(log: seq<Event>, i: nat, h: string)
    requires i < |log| && (log[i].PoolDrained? || log[i].ReserveDrained?)
  {
    exists j | 0 <= j < i :: log[j] == Bridged(log[i].task, log[i].pair, h)
  }

  /** Pool and reserve are drained only after every remaining holder was attempted. */
  ghost predicate HoldersFirst(log: seq<Event>) {
    forall i | 0 <= i < |log| && (log[i].PoolDrained? || log[i].ReserveDrained?) ::
      forall h | h in log[i].remaining :: AttemptedBefore(log, i, h)
  }

  // ----- Invariant -----

  ghost predicate CompletedRow(s: State, pair: Pair, h: string) {
    exists id :: id in s.rows && CompletedFor(s.rows[id], pair) && Lower(s.rows[id].holder) == h
  }

  ghost predicate RowsWellFormed(s: State) {
    forall id | id in s.rows :: s.rows[id].pair == id.pair && s.rows[id].holder == id.address
  }

  ghost predicate WasBridged(s: State, id: nat, t: Task, h: string) {
    Bridged(id, t.plan.pair, h) in s.log
  }

  ghost predicate TaskInv(s: State, id: nat, t: Task) {
    && DistinctHolders(t.plan.holders) && t.next <= |t.plan.holders|
    && (t.phase in {OpInserted, Called, Homing} ==>
          t.next < |t.plan.holders| && Lower(Current(t).address) !in t.skip && CurrentOp(t) in s.rows)
    && (t.phase in {Called, Homing} ==> WasBridged(s, id, t, Lower(Current(t).address)))
    && (t.phase in {AtPool, AtReserve} ==> t.next == |t.plan.holders|)
    && (t.phase == Checking ==> t.next == 0)
    // Only holders up to the current one were bridged by this task, and of those all that were not skipped.
    && (forall e | e in s.log && e.Bridged? && e.task == id ::
          e.pair == t.plan.pair
          && exists k | 0 <= k < (if t.phase in {Called, Homing} then t.next + 1 else t.next) ::
               Lower(t.plan.holders[k].address) == e.holder)
    && (t.phase != Checking ==> forall k | 0 <= k < t.next ::
          Lower(t.plan.holders[k].address) in t.skip || WasBridged(s, id, t, Lower(t.plan.holders[k].address)))
    // No holder still to come has been completed for the pair.
    && (t.phase in {AtHolder, OpInserted, Called, Homing} ==> forall k | t.next <= k < |t.plan.holders| ::
          Lower(t.plan.holders[k].address) !in t.skip ==> !CompletedRow(s, t.plan.pair,
              Lower(t.plan.holders[k].address)))
  }

  ghost predicate LogInv(s: State) {
    && NeverAgain(s.log) && OncePerTask(s.log) && HoldersFirst(s.log)
    && (forall e | e in s.log && e.Bridged? :: e.task < s.spawned)
    && (forall e | e in s.log && e.HolderCompleted? :: CompletedRow(s, e.pair, e.holder))
  }

  ghost predicate Inv(s: State) {
    && Single(s) && RowsWellFormed(s) && LogInv(s)
    && (forall id | id in s.tasks :: TaskInv(s, id, s.tasks[id]))
  }

  // ----- Appending to the log -----

  lemma {:induction false} HoldersFirstAppend(log: seq<Event>, e: Event)
    requires HoldersFirst(log)
    requires e.PoolDrained? || e.ReserveDrained? ==> forall h | h in e.remaining :: Bridged(e.task, e.pair, h) in log
    ensures HoldersFirst(log + [e])
  {
    var log' := log + [e];
    forall i | 0 <= i < |log'| && (log'[i].PoolDrained? || log'[i].ReserveDrained?)
      ensures forall h | h in log'[i].remaining :: AttemptedBefore(log', i, h)
    {
      forall h | h in log'[i].remaining ensures AttemptedBefore(log', i, h) {
        if i < |log| {
          assert AttemptedBefore(log, i, h);
          var j :| 0 <= j < i && log[j] == Bridged(log[i].task, log[i].pair, h);
          assert log'[j] == log[j];
        } else {
          var j :| 0 <= j < |log| && log[j] == Bridged(e.task, e.pair, h);
          assert log'[j] == log[j];
        }
      }
    }
  }

  /** Writing one row changes no other holder's completion. */
  lemma {:induction false} OtherHoldersKeepCompletion(s: State, s': State, id: OpId, pair: Pair, h: string)
    requires RowsWellFormed(s) && RowsWellFormed(s')
    requires s'.rows.Keys == s.rows.Keys + {id}
    requires forall k | k in s.rows && k != id :: s'.rows[k] == s.rows[k]
    requires (pair, h) != (id.pair, Lower(id.address))
            || (s'.rows[id].status == Completed <==> id in s.rows && s.rows[id].status == Completed)
    ensures CompletedRow(s', pair, h) <==> CompletedRow(s, pair, h)
  {
    if CompletedRow(s, pair, h) {
      var k :| k in s.rows && CompletedFor(s.rows[k], pair) && Lower(s.rows[k].holder) == h;
      assert k in s'.rows && CompletedFor(s'.rows[k], pair) && Lower(s'.rows[k].holder) == h;
    }
    if CompletedRow(s', pair, h) {
      var k :| k in s'.rows && CompletedFor(s'.rows[k], pair) && Lower(s'.rows[k].holder) == h;
      assert k in s.rows && CompletedFor(s.rows[k], pair) && Lower(s.rows[k].holder) == h;
    }
  }

  lemma {:induction false} CurrentNotCompleted(s: State, id: nat)
    requires Inv(s) && id in s.tasks && s.tasks[id].phase in {OpInserted, Called, Homing}
    ensures var t := s.tasks[id];
            && t.next < |t.plan.holders| && CurrentOp(t) in s.rows
            && !CompletedRow(s, t.plan.pair, Lower(Current(t).address))
            && s.rows[CurrentOp(t)].status != Completed
  {
    var t := s.tasks[id];
    assert TaskInv(s, id, t);
    assert !CompletedRow(s, t.plan.pair, Lower(t.plan.holders[t.next].address));
    var op := CurrentOp(t);
    var row, h := s.rows[op], Lower(Current(t).address);
    assert Lower(row.holder) == h;
    assert CompletedFor(row, t.plan.pair) ==> CompletedRow(s, t.plan.pair, h);
  }

  // ----- Each step keeps the invariant -----

  lemma {:induction false} StartInv(s: State, a: Action)
    requires Inv(s) && a.StartDrain? && Enabled(s, a)
    ensures Inv(Step(s, a))
  {
    var s' := Step(s, a);
    var plan := DrainPlan(a.pair, Resolved(a.addresses, a.balance), a.pool, a.reserve);
    ResolvedHolders(a.addresses, a.balance);
    StepSingle(s, a);
    assert forall p, h :: CompletedRow(s, p, h) ==> CompletedRow(s', p, h);
    assert s.tasks.Keys == {};
    assert s'.tasks == map[s.spawned := Task(plan, {}, 0, Checking)];
    assert TaskInv(s', s.spawned, Task(plan, {}, 0, Checking));
  }

  lemma {:induction false} CheckInv(s: State, id: nat, active: bool)
    requires Inv(s) && Enabled(s, CheckTarget(id, active))
    ensures Inv(Step(s, CheckTarget(id, active)))
  {
    var s' := Step(s, CheckTarget(id, active));
    StepSingle(s, CheckTarget(id, active));
    SameRows(s, s');
    var t, t' := s.tasks[id], s'.tasks[id];
    assert TaskInv(s, id, t);
    if active {
      forall k | 0 <= k < |t.plan.holders| && Lower(t.plan.holders[k].address) !in t'.skip
        ensures !CompletedRow(s', t.plan.pair, Lower(t.plan.holders[k].address))
      {
        NotInSkip(s, t.plan.pair, Lower(t.plan.holders[k].address));
      }
    }
    assert TaskInv(s', id, t');
  }

  lemma {:induction false} NotInSkip(s: State, pair: Pair, h: string)
    requires h !in CompletedHolders(s.rows, pair)
    ensures !CompletedRow(s, pair, h)
  {
    assert forall id | id in s.rows && CompletedFor(s.rows[id], pair) ::
        Lower(s.rows[id].holder) in CompletedHolders(s.rows, pair);
  }

  lemma {:induction false} SameRows(s: State, s': State)
    requires s'.rows == s.rows
    ensures forall p, h :: CompletedRow(s', p, h) <==> CompletedRow(s, p, h)
  {
  }

  lemma {:induction false} TakeRows(s: State, id: nat)
    requires Inv(s) && Enabled(s, TakeHolder(id))
    ensures RowsWellFormed(Step(s, TakeHolder(id)))
    ensures forall p, h :: CompletedRow(Step(s, TakeHolder(id)), p, h) <==> CompletedRow(s, p, h)
  {
    var s' := Step(s, TakeHolder(id));
    var t := s.tasks[id];
    assert TaskInv(s, id, t);
    if s'.rows == s.rows {
      SameRows(s, s');
    } else {
      forall p, h ensures CompletedRow(s', p, h) <==> CompletedRow(s, p, h) {
        OtherHoldersKeepCompletion(s, s', CurrentOp(t), p, h);
      }
    }
  }

  lemma {:induction false} TakeTask(s: State, id: nat)
    requires Inv(s) && Enabled(s, TakeHolder(id))
    ensures TaskInv(Step(s, TakeHolder(id)), id, Step(s, TakeHolder(id)).tasks[id])
  {
    assert TaskInv(s, id, s.tasks[id]);
    TakeRows(s, id);
  }

  lemma {:induction false} TakeInv(s: State, id: nat)
    requires Inv(s) && Enabled(s, TakeHolder(id))
    ensures Inv(Step(s, TakeHolder(id)))
  {
    StepSingle(s, TakeHolder(id));
    TakeRows(s, id);
    TakeTask(s, id);
  }

  /** The holder about to be bridged was neither completed nor bridged by this task before. */
  lemma {:induction false} CallIsNew(s: State, id: nat)
    requires Inv(s) && Enabled(s, CallBridge(id))
    ensures var t := s.tasks[id];
            var h := Lower(Current(t).address);
            forall i | 0 <= i < |s.log| ::
              && (s.log[i].HolderCompleted? ==> (s.log[i].pair, s.log[i].holder) != (t.plan.pair, h))
              && (s.log[i].Bridged? && s.log[i].task == id ==> s.log[i].holder != h)
  {
    var t := s.tasks[id];
    assert TaskInv(s, id, t);
    CurrentNotCompleted(s, id);
    forall i | 0 <= i < |s.log| && s.log[i].Bridged? && s.log[i].task == id
      ensures s.log[i].holder != Lower(Current(t).address)
    {
      assert s.log[i] in s.log;
      var k :| 0 <= k < t.next && Lower(t.plan.holders[k].address) == s.log[i].holder;
    }
    assert forall i | 0 <= i < |s.log| :: s.log[i] in s.log;
  }

  lemma {:induction false} CallTask(s: State, id: nat)
    requires Inv(s) && Enabled(s, CallBridge(id))
    ensures TaskInv(Step(s, CallBridge(id)), id, Step(s, CallBridge(id)).tasks[id])
  {
    SameRows(s, Step(s, CallBridge(id)));
    assert TaskInv(s, id, s.tasks[id]);
  }

  lemma {:induction false} CallInv(s: State, id: nat)
    requires Inv(s) && Enabled(s, CallBridge(id))
    ensures Inv(Step(s, CallBridge(id)))
  {
    var s' := Step(s, CallBridge(id));
    StepSingle(s, CallBridge(id));
    SameRows(s, s');
    CallTask(s, id);
    CallLog(s, id);
  }

  lemma {:induction false} CallLog(s: State, id: nat)
    requires Inv(s) && Enabled(s, CallBridge(id))
    ensures LogInv(Step(s, CallBridge(id)))
  {
    var s' := Step(s, CallBridge(id));
    SameRows(s, s');
    CallIsNew(s, id);
    HoldersFirstAppend(s.log, s'.log[|s.log|]);
  }

  lemma {:induction false} ResultRows(s: State, a: Action)
    requires Inv(s) && Enabled(s, a) && (a.BridgeResult? || (a.HomeResult? && !a.ok))
    ensures forall p, h :: CompletedRow(Step(s, a), p, h) <==> CompletedRow(s, p, h)
  {
    var t := s.tasks[a.id];
    assert TaskInv(s, a.id, t);
    CurrentNotCompleted(s, a.id);
    forall p, h ensures CompletedRow(Step(s, a), p, h) <==> CompletedRow(s, p, h) {
      OtherHoldersKeepCompletion(s, Step(s, a), CurrentOp(t), p, h);
    }
  }

  lemma {:induction false} ResultInv(s: State, a: Action)
    requires Inv(s) && Enabled(s, a) && (a.BridgeResult? || (a.HomeResult? && !a.ok))
    ensures Inv(Step(s, a))
  {
    StepSingle(s, a);
    ResultRows(s, a);
    ResultTask(s, a);
  }

  lemma {:induction false} ResultTask(s: State, a: Action)
    requires Inv(s) && Enabled(s, a) && (a.BridgeResult? || (a.HomeResult? && !a.ok))
    ensures TaskInv(Step(s, a), a.id, Step(s, a).tasks[a.id])
  {
    assert TaskInv(s, a.id, s.tasks[a.id]);
    ResultRows(s, a);
  }

  lemma {:induction false} CompleteRows(s: State, id: nat)
    requires Inv(s) && Enabled(s, HomeResult(id, true))
    ensures var s' := Step(s, HomeResult(id, true));
            var t := s.tasks[id];
            var h := Lower(Current(t).address);
            && CompletedRow(s', t.plan.pair, h)
            && forall p, x | (p, x) != (t.plan.pair, h) :: CompletedRow(s', p, x) <==> CompletedRow(s, p, x)
  {
    var s' := Step(s, HomeResult(id, true));
    var t := s.tasks[id];
    assert TaskInv(s, id, t);
    var op := CurrentOp(t);
    var h := Lower(Current(t).address);
    assert CompletedFor(s'.rows[op], t.plan.pair) && Lower(s'.rows[op].holder) == h;
    forall p, x | (p, x) != (t.plan.pair, h) ensures CompletedRow(s', p, x) <==> CompletedRow(s, p, x) {
      OtherHoldersKeepCompletion(s, s', op, p, x);
    }
  }

  lemma {:induction false} CompleteTask(s: State, id: nat)
    requires Inv(s) && Enabled(s, HomeResult(id, true))
    ensures TaskInv(Step(s, HomeResult(id, true)), id, Step(s, HomeResult(id, true)).tasks[id])
  {
    assert TaskInv(s, id, s.tasks[id]);
    CompleteRows(s, id);
  }

  lemma {:induction false} CompleteInv(s: State, id: nat)
    requires Inv(s) && Enabled(s, HomeResult(id, true))
    ensures Inv(Step(s, HomeResult(id, true)))
  {
    StepSingle(s, HomeResult(id, true));
    CompleteTask(s, id);
    CompleteLog(s, id);
  }

  lemma {:induction false} CompleteLog(s: State, id: nat)
    requires Inv(s) && Enabled(s, HomeResult(id, true))
    ensures LogInv(Step(s, HomeResult(id, true)))
  {
    var t := s.tasks[id];
    CompleteRows(s, id);
    HoldersFirstAppend(s.log, HolderCompleted(t.plan.pair, Lower(Current(t).address)));
  }

  lemma {:induction false} RemainingWereBridged(s: State, id: nat)
    requires Inv(s) && (InPhase(s, id, AtPool) || InPhase(s, id, AtReserve))
    ensures forall h | h in RemainingOf(s.tasks[id]) :: Bridged(id, s.tasks[id].plan.pair, h) in s.log
  {
    var t := s.tasks[id];
    assert TaskInv(s, id, t);
    forall h | h in RemainingOf(t) ensures Bridged(id, t.plan.pair, h) in s.log {
      var holder :| holder in t.plan.holders && Lower(holder.address) !in t.skip && Lower(holder.address) == h;
      var k :| 0 <= k < |t.plan.holders| && t.plan.holders[k] == holder;
      assert WasBridged(s, id, t, Lower(t.plan.holders[k].address));
    }
  }

  lemma {:induction false} DrainTask(s: State, a: Action)
    requires Inv(s) && Enabled(s, a) && (a.DrainPoolStep? || a.DrainReserveStep?)
    ensures TaskInv(Step(s, a), a.id, Step(s, a).tasks[a.id])
  {
    assert TaskInv(s, a.id, s.tasks[a.id]);
  }

  lemma {:induction false} DrainInv(s: State, a: Action)
    requires Inv(s) && Enabled(s, a) && (a.DrainPoolStep? || a.DrainReserveStep?)
    ensures Inv(Step(s, a))
  {
    var s' := Step(s, a);
    StepSingle(s, a);
    SameRows(s, s');
    DrainTask(s, a);
    if s'.log != s.log {
      RemainingWereBridged(s, a.id);
      HoldersFirstAppend(s.log, s'.log[|s.log|]);
    }
  }

  lemma {:induction false} StepInv(s: State, a: Action)
    requires Inv(s) && Enabled(s, a)
    ensures Inv(Step(s, a))
  {
    match a
    case StartDrain(_, _, _, _, _) => StartInv(s, a);
    case CheckTarget(id, active) => CheckInv(s, id, active);
    case TakeHolder(id) => TakeInv(s, id);
    case CallBridge(id) => CallInv(s, id);
    case BridgeResult(_, _) => ResultInv(s, a);
    case HomeResult(id, ok) =>
      if ok {
        CompleteInv(s, id);
      } else {
        ResultInv(s, a);
      }
    case DrainPoolStep(_) => DrainInv(s, a);
    case DrainReserveStep(_) => DrainInv(s, a);
    case Finish(id) =>
      StepSingle(s, a);
      SameRows(s, Step(s, a));
    case Crash(_) =>
      StepSingle(s, a);
      SameRows(s, Step(s, a));
  }

  lemma {:induction false} RunInv(s: State, run: seq<Action>)
    requires Inv(s) && Allowed(s, run)
    ensures Inv(Run(s, run))
    decreases |run|
  {
    if run != [] {
      StepInv(s, run[0]);
      RunInv(Step(s, run[0]), run[1..]);
    }
  }

  /**
    Across any sequence of drain starts, crashes and restarts: no two drains run at once,
    a drain bridges every holder at most once, a holder whose op completed is never bridged
    again for that pair, and pool and reserve are drained only after every remaining
    holder was attempted.
   */
  lemma {:induction false} DrainsAreSafe(run: seq<Action>)
    requires Allowed(INIT, run)
    ensures var s := Run(INIT, run);
            && (forall a, b | a in s.tasks && b in s.tasks :: a == b)
            && OncePerTask(s.log) && NeverAgain(s.log) && HoldersFirst(s.log)
  {
    RunInv(INIT, run);
  }
}
