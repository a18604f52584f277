/**
  Every run of the cold path: cycles, crashes and restarts interleaved with the clock.

  The process works on one op at a time. A step is one await of the source: reading the
  depth and deciding, reading the on-chain cap, submitting one chunk.
 */
module ColdPathRuns {
  import opened Wrappers
  import opened Rebalance
  import opened RebalanceLaws
  import opened RebalanceRepo
  import opened ColdPath

  datatype Proc =
    | Idle
    | AwaitingCap(id: OpId, amount: nat)
    | Chunking(id: OpId, todo: seq<nat>)

  /**
    `confirmed` is the sum of the confirmed chunks of each op and `interrupted` the ops a
    crash cut short; both are history, not state of the program.
   */
  datatype State = State(rows: Rows, now: nat, proc: Proc, confirmed: map<OpId, nat>, interrupted: set<OpId>)

  const INIT := State(map[], 0, Idle, map[], {})

  datatype Action =
    | Tick(to: nat)
    | Begin(op: Op, liveDepth: nat)
    | ReadCap(cap: Option<nat>)
    | ChunkConfirmed(receipt: Receipt)
    | ChunkFailed
    | Crash

  predicate Enabled(s: State, a: Action) {
    match a
    case Tick(to) => s.now <= to
    case Begin(op, _) => s.proc.Idle? && op.amount > 0
    case ReadCap(_) => s.proc.AwaitingCap?
    case ChunkConfirmed(_) => s.proc.Chunking?
    case ChunkFailed => s.proc.Chunking?
    case Crash => true
  }

  function ConfirmedOf(s: State, id: OpId): nat {
    if id in s.confirmed then s.confirmed[id] else 0
  }

  function Work(id: OpId, todo: seq<nat>): Proc {
    if todo == [] then Idle else Chunking(id, todo)
  }

  predicate Submits(s: State, op: Op, liveDepth: nat) {
    EvaluateRebalanceOp(liveDepth, op.amount, InFlight(s.rows, op.source, op.dest, s.now)).Submit?
  }

  function Step(s: State, a: Action): State
    requires Enabled(s, a)
  {
    match a
    case Tick(to) => s.(now := to)
    case Begin(op, liveDepth) =>
      var id := OpId(op.source, op.dest, s.now);
      if !Submits(s, op, liveDepth) then s
      else s.(rows := Inserted(s.rows, id, op.amount, s.now), proc := AwaitingCap(id, op.amount))
    case ReadCap(cap) =>
      if cap.None? || cap.value == 0 then s.(rows := MarkedFailed(s.rows, s.proc.id), proc := Idle)
      else s.(proc := Work(s.proc.id, Chunks(s.proc.amount, cap.value)))
    case ChunkConfirmed(receipt) =>
      var id, todo := s.proc.id, s.proc.todo;
      if todo == [] then s.(proc := Idle)
      else
        s.(rows := MarkedSubmitted(s.rows, id, receipt.tx, receipt.ccipMessageId),
           confirmed := s.confirmed[id := ConfirmedOf(s, id) + todo[0]],
           proc := Work(id, todo[1..]))
    case ChunkFailed => s.(rows := MarkedFailed(s.rows, s.proc.id), proc := Idle)
    case Crash =>
      s.(proc := Idle, interrupted := if s.proc.Idle? then s.interrupted else s.interrupted + {s.proc.id})
  }

  ghost predicate Allowed(s: State, run: seq<Action>)
    decreases |run|
  {
    run == [] || (Enabled(s, run[0]) && Allowed(Step(s, run[0]), run[1..]))
  }

  ghost function Run(s: State, run: seq<Action>): State
    requires Allowed(s, run)
    decreases |run|
  {
    if run == [] then s else Run(Step(s, run[0]), run[1..])
  }

  // ----- At most one op in flight per pair -----

  ghost predicate InFlightRow(s: State, id: OpId) {
    id in s.rows && Active(s.rows[id], s.now)
  }

  predicate SamePair(a: OpId, b: OpId) {
    a.source == b.source && a.dest == b.dest
  }

  /** No row of the pair but `id` itself is in flight. */
  ghost predicate AloneInFlight(s: State, id: OpId) {
    forall other | other in s.rows && other != id && SamePair(id, other) :: !Active(s.rows[other], s.now)
  }

  ghost predicate Exclusive(s: State) {
    && (forall id | id in s.rows ::
          s.rows[id].source == id.source && s.rows[id].dest == id.dest
          && s.rows[id].createdAt == id.ms <= s.now)
    && (forall a | a in s.rows && Active(s.rows[a], s.now) :: AloneInFlight(s, a))
    && (forall a | a in s.rows && a.ms == s.now :: AloneInFlight(s, a))
    && (!s.proc.Idle? ==>
          && s.proc.id in s.rows && AloneInFlight(s, s.proc.id)
          && forall id | id in s.rows :: id.ms <= s.proc.id.ms)
  }

  lemma {:induction false} TickExclusive(s: State, to: nat)
    requires Exclusive(s) && s.now <= to
    ensures Exclusive(s.(now := to))
  {
    var s' := s.(now := to);
    forall x | x in s.rows && (Active(s.rows[x], to) || x.ms == to) ensures AloneInFlight(s', x) {
      assert AloneInFlight(s, x);
    }
  }

  lemma {:induction false} BeginExclusive(s: State, op: Op, liveDepth: nat)
    requires Exclusive(s) && s.proc.Idle? && op.amount > 0 && Submits(s, op, liveDepth)
    ensures Exclusive(Step(s, Begin(op, liveDepth)))
  {
    var s' := Step(s, Begin(op, liveDepth));
    var id := OpId(op.source, op.dest, s.now);
    assert AloneInFlight(s', id);
    forall x | x in s'.rows && (Active(s'.rows[x], s.now) || x.ms == s.now) ensures AloneInFlight(s', x) {
      if x != id {
        assert AloneInFlight(s, x) && !SamePair(x, id);
      }
    }
  }

  /** The row being worked on may become active again: it is alone in its pair. */
  lemma {:induction false} WorkExclusive(s: State, s': State)
    requires Exclusive(s) && !s.proc.Idle? && s'.now == s.now
    requires s'.rows.Keys == s.rows.Keys && (s'.proc.Idle? || s'.proc.id == s.proc.id)
    requires forall k | k in s.rows && k != s.proc.id :: s'.rows[k] == s.rows[k]
    requires var row, row' := s.rows[s.proc.id], s'.rows[s.proc.id];
             row'.source == row.source && row'.dest == row.dest && row'.createdAt == row.createdAt
    ensures Exclusive(s')
  {
    var id := s.proc.id;
    forall a | a in s'.rows && (Active(s'.rows[a], s.now) || a.ms == s.now) ensures AloneInFlight(s', a) {
      if a != id {
        assert AloneInFlight(s, a) && !SamePair(a, id);
      }
    }
  }

  lemma {:induction false} StepExclusive(s: State, a: Action)
    requires Exclusive(s) && Enabled(s, a)
    ensures Exclusive(Step(s, a))
  {
    if a.Tick? {
      TickExclusive(s, a.to);
    } else if a.Begin? {
      if Submits(s, a.op, a.liveDepth) {
        BeginExclusive(s, a.op, a.liveDepth);
      }
    } else if !s.proc.Idle? {
      WorkExclusive(s, Step(s, a));
    }
  }

  lemma {:induction false} RunExclusive(s: State, run: seq<Action>)
    requires Exclusive(s) && Allowed(s, run)
    ensures Exclusive(Run(s, run))
    decreases |run|
  {
    if run != [] {
      StepExclusive(s, run[0]);
      RunExclusive(Step(s, run[0]), run[1..]);
    }
  }

  /**
    Over all cycles, crashes and restarts, no ordered pair of chains ever has two pending
    or submitted ops inside the 24 hour window.
   */
  lemma {:induction false} AtMostOneOpInFlight(run: seq<Action>, a: OpId, b: OpId)
    requires Allowed(INIT, run)
    requires InFlightRow(Run(INIT, run), a) && InFlightRow(Run(INIT, run), b) && SamePair(a, b)
    ensures a == b
  {
    RunExclusive(INIT, run);
    assert AloneInFlight(Run(INIT, run), a);
  }

  // ----- What the status of a row says about its chunks -----

  /** An op that is going to be submitted has a new id: none of its pair failed in this millisecond. */
  predicate FreshStep(s: State, a: Action) {
    a.Begin? && Submits(s, a.op, a.liveDepth) ==> OpId(a.op.source, a.op.dest, s.now) !in s.rows
  }

  ghost predicate FreshRun(s: State, run: seq<Action>)
    decreases |run|
  {
    run == [] || (Enabled(s, run[0]) && FreshStep(s, run[0]) && FreshRun(Step(s, run[0]), run[1..]))
  }

  lemma {:induction false} FreshRunAllowed(s: State, run: seq<Action>)
    requires FreshRun(s, run)
    ensures Allowed(s, run)
    decreases |run|
  {
    if run != [] {
      FreshRunAllowed(Step(s, run[0]), run[1..]);
    }
  }

  predicate WorkedOn(s: State, id: OpId) {
    !s.proc.Idle? && s.proc.id == id
  }

  /** An op that is neither worked on nor was cut short by a crash has left its cycle. */
  predicate LeftCycle(s: State, id: OpId) {
    id in s.rows && !WorkedOn(s, id) && id !in s.interrupted
  }

  ghost predicate RowBooked(s: State, id: OpId)
    requires id in s.rows
  {
    var row, done := s.rows[id], ConfirmedOf(s, id);
    && done <= row.amount
    && (LeftCycle(s, id) ==> row.status == if done == row.amount then Submitted else Failed)
    && (!LeftCycle(s, id) ==> done < row.amount && row.status == if done == 0 then Pending else Submitted)
  }

  ghost predicate Booked(s: State) {
    && (forall id | id in s.confirmed || id in s.interrupted || WorkedOn(s, id) :: id in s.rows)
    && (forall id | id in s.rows :: RowBooked(s, id))
    && (!s.proc.Idle? ==> s.proc.id !in s.interrupted)
    && (s.proc.AwaitingCap? ==> s.rows[s.proc.id].amount == s.proc.amount && ConfirmedOf(s, s.proc.id) == 0)
    && (s.proc.Chunking? ==>
          && s.proc.todo != [] && (forall x | x in s.proc.todo :: x > 0)
          && ConfirmedOf(s, s.proc.id) + Sum(s.proc.todo) == s.rows[s.proc.id].amount)
  }

  lemma {:induction false} ChunkConfirmedBooked(s: State, receipt: Receipt)
    requires Booked(s) && s.proc.Chunking?
    ensures Booked(Step(s, ChunkConfirmed(receipt)))
  {
    var s' := Step(s, ChunkConfirmed(receipt));
    var id, todo := s.proc.id, s.proc.todo;
    assert RowBooked(s, id);
    assert todo[0] in todo && forall x | x in todo[1..] :: x in todo;
    PositiveSum(todo[1..]);
    forall k | k in s'.rows ensures RowBooked(s', k) {
      assert RowBooked(s, k);
    }
  }

  lemma {:induction false} StepBooked(s: State, a: Action)
    requires Booked(s) && Enabled(s, a) && FreshStep(s, a)
    ensures Booked(Step(s, a))
    ensures forall id | id in s.rows && s.rows[id].status == Failed ::
              id in Step(s, a).rows && Step(s, a).rows[id] == s.rows[id]
  {
    assert forall id | id in s.rows :: RowBooked(s, id);
    match a
    case Tick(_) =>
    case Begin(_, _) =>
    case ReadCap(cap) =>
      if cap.Some? {
        ChunksOfAmount(s.proc.amount, cap.value);
      }
    case ChunkConfirmed(_) =>
      ChunkConfirmedBooked(s, a.receipt);
      assert RowBooked(s, s.proc.id);
    case ChunkFailed => PositiveSum(s.proc.todo);
    case Crash =>
      if s.proc.Chunking? {
        PositiveSum(s.proc.todo);
      }
  }

  lemma {:induction false} PositiveSum(xs: seq<nat>)
    requires forall x | x in xs :: x > 0
    ensures Sum(xs) == 0 <==> xs == []
  {
    if xs != [] {
      assert xs[0] in xs;
    }
  }

  lemma {:induction false} RunBooked(s: State, run: seq<Action>)
    requires Booked(s) && FreshRun(s, run)
    ensures Allowed(s, run) && Booked(Run(s, run))
    ensures forall id | id in s.rows && s.rows[id].status == Failed ::
              id in Run(s, run).rows && Run(s, run).rows[id] == s.rows[id]
    decreases |run|
  {
    FreshRunAllowed(s, run);
    if run != [] {
      StepBooked(s, run[0]);
      RunBooked(Step(s, run[0]), run[1..]);
    }
  }

  /**
    In every run in which op ids are new: confirmed chunks never exceed the op's amount; an
    op that left its cycle is submitted exactly when every chunk was confirmed and failed
    otherwise; and an op cut short by a crash is one whose chunks were not all confirmed.
   */
  lemma {:induction false} StatusTellsConfirmation(run: seq<Action>, id: OpId)
    requires FreshRun(INIT, run) && Allowed(INIT, run) && id in Run(INIT, run).rows
    ensures var s := Run(INIT, run);
            var row, done := s.rows[id], ConfirmedOf(s, id);
            && done <= row.amount
            && (LeftCycle(s, id) ==> (row.status == Submitted <==> done == row.amount)
                                     && (row.status == Failed <==> done < row.amount))
            && (!LeftCycle(s, id) ==> done < row.amount && row.status != Failed
                                      && (row.status == Submitted <==> done > 0))
  {
    RunBooked(INIT, run);
    assert RowBooked(Run(INIT, run), id);
  }

  /** Every status says how much was confirmed. */
  ghost predicate Truthful(s: State) {
    forall id | id in s.rows :: RowBooked(s, id)
  }

  ghost predicate AlwaysTruthful(s: State, run: seq<Action>)
    requires Allowed(s, run)
    decreases |run|
  {
    Truthful(s) && (run == [] || AlwaysTruthful(Step(s, run[0]), run[1..]))
  }

  /** Beginning under the id of a failed row leaves that row as failed as it was, while it is worked on. */
  lemma {:induction false} ReusedIdLies(s: State, a: Action)
    requires Exclusive(s) && Booked(s) && Enabled(s, a) && !FreshStep(s, a)
    ensures !Truthful(Step(s, a))
  {
    var id := OpId(a.op.source, a.op.dest, s.now);
    assert !Active(s.rows[id], s.now);
    assert RowBooked(s, id);
    assert !RowBooked(Step(s, a), id);
  }

  lemma {:induction false} AlwaysTruthfulExactly(s: State, run: seq<Action>)
    requires Exclusive(s) && Booked(s) && Allowed(s, run)
    ensures AlwaysTruthful(s, run) <==> FreshRun(s, run)
    decreases |run|
  {
    if run != [] {
      if FreshStep(s, run[0]) {
        StepBooked(s, run[0]);
        StepExclusive(s, run[0]);
        AlwaysTruthfulExactly(Step(s, run[0]), run[1..]);
      } else {
        ReusedIdLies(s, run[0]);
        NotAlways(Step(s, run[0]), run[1..]);
      }
    }
  }

  lemma {:induction false} NotAlways(s: State, run: seq<Action>)
    requires Allowed(s, run) && !Truthful(s)
    ensures !AlwaysTruthful(s, run)
  {
  }

  /**
    At every point of a run every row's status says how much of it was confirmed, if and only
    if no op was begun under the id of an earlier one of its pair.
   */
  lemma {:induction false} StatusTellsConfirmationExactly(run: seq<Action>)
    requires Allowed(INIT, run)
    ensures AlwaysTruthful(INIT, run) <==> FreshRun(INIT, run)
  {
    AlwaysTruthfulExactly(INIT, run);
  }

  /** While op ids are new, a failed row never changes again. */
  lemma {:induction false} FailedIsAbsorbing(before: seq<Action>, after: seq<Action>, id: OpId)
    requires FreshRun(INIT, before) && Allowed(INIT, before)
    requires FreshRun(Run(INIT, before), after) && Allowed(Run(INIT, before), after)
    requires id in Run(INIT, before).rows && Run(INIT, before).rows[id].status == Failed
    ensures id in Run(Run(INIT, before), after).rows
    ensures Run(Run(INIT, before), after).rows[id] == Run(INIT, before).rows[id]
  {
    RunBooked(INIT, before);
    RunBooked(Run(INIT, before), after);
  }

  // ----- When a failed row can be revived -----

  ghost predicate StaysFailed(s: State, id: OpId) {
    forall run | Allowed(s, run) :: id in Run(s, run).rows && Run(s, run).rows[id].status == Failed
  }

  lemma {:induction false} PastFailureStays(s: State, run: seq<Action>, id: OpId)
    requires Allowed(s, run) && id in s.rows && s.rows[id].status == Failed
    requires id.ms < s.now && !WorkedOn(s, id)
    ensures id in Run(s, run).rows && Run(s, run).rows[id].status == Failed
    decreases |run|
  {
    if run != [] {
      PastFailureStays(Step(s, run[0]), run[1..], id);
    }
  }

  /** What is worked on has something left to do. */
  ghost predicate Busy(s: State) {
    (s.proc.AwaitingCap? ==> s.proc.amount > 0) && (s.proc.Chunking? ==> s.proc.todo != [])
  }

  lemma {:induction false} RunBusy(s: State, run: seq<Action>)
    requires Busy(s) && Allowed(s, run)
    ensures Busy(Run(s, run))
    decreases |run|
  {
    if run != [] {
      RunBusy(Step(s, run[0]), run[1..]);
    }
  }

  lemma {:induction false} RunCons(s: State, a: Action, rest: seq<Action>)
    requires Enabled(s, a) && Allowed(Step(s, a), rest)
    ensures Allowed(s, [a] + rest) && Run(s, [a] + rest) == Run(Step(s, a), rest)
  {
    assert ([a] + rest)[1..] == rest;
  }

  /** An op that is worked on can still see its next chunk confirmed. */
  lemma {:induction false} WorkedOnRevives(s: State, id: OpId) returns (run: seq<Action>)
    requires Busy(s) && WorkedOn(s, id) && id in s.rows
    ensures Allowed(s, run) && id in Run(s, run).rows && Run(s, run).rows[id].status == Submitted
  {
    var confirm := ChunkConfirmed(Receipt("", None));
    if s.proc.AwaitingCap? {
      var cap := ReadCap(Some(s.proc.amount));
      assert Chunks(s.proc.amount, s.proc.amount) == [s.proc.amount];
      RunCons(Step(s, cap), confirm, []);
      RunCons(s, cap, [confirm] + []);
      run := [cap] + ([confirm] + []);
    } else {
      RunCons(s, confirm, []);
      run := [confirm] + [];
    }
  }

  /** In the millisecond of its id, an op of the pair can begin under the id once the process is idle. */
  lemma {:induction false} SameMillisecondRevives(s: State, id: OpId) returns (run: seq<Action>)
    requires Exclusive(s) && id in s.rows && s.rows[id].status == Failed && id.ms == s.now
    ensures Allowed(s, run) && id in Run(s, run).rows && Run(s, run).rows[id].status == Submitted
  {
    var begin := Begin(Op(id.source, id.dest, 1), 1);
    var s1 := Step(s, Crash);
    assert AloneInFlight(s, id);
    assert Submits(s1, begin.op, 1) && id == OpId(id.source, id.dest, s1.now);
    var rest := WorkedOnRevives(Step(s1, begin), id);
    RunCons(s1, begin, rest);
    RunCons(s, Crash, [begin] + rest);
    run := [Crash] + ([begin] + rest);
  }

  /**
    Op ids carry the millisecond at which the op began, so without the assumption that ids
    are new a failed row can come back: it stays failed for good exactly when the clock has
    moved past that millisecond and nobody works on the row.
   */
  lemma {:induction false} FailedStaysExactlyWhenClockMoved(before: seq<Action>, id: OpId)
    requires Allowed(INIT, before)
    requires id in Run(INIT, before).rows && Run(INIT, before).rows[id].status == Failed
    ensures var s := Run(INIT, before); StaysFailed(s, id) <==> id.ms < s.now && !WorkedOn(s, id)
  {
    var s := Run(INIT, before);
    RunExclusive(INIT, before);
    RunBusy(INIT, before);
    if WorkedOn(s, id) {
      var run := WorkedOnRevives(s, id);
    } else if id.ms < s.now {
      forall run | Allowed(s, run) ensures id in Run(s, run).rows && Run(s, run).rows[id].status == Failed {
        PastFailureStays(s, run, id);
      }
    } else {
      var run := SameMillisecondRevives(s, id);
    }
  }

  /** An op whose cap cannot be read has failed in the millisecond it began in, and can come back. */
  lemma {:induction false} FailedCanRevive(op: Op) returns (run: seq<Action>)
    requires op.amount > 0
    ensures Allowed(INIT, run)
    ensures var s, id := Run(INIT, run), OpId(op.source, op.dest, 0);
            id in s.rows && s.rows[id].status == Failed && !StaysFailed(s, id)
  {
    var begin, cap := Begin(op, op.amount), ReadCap(None);
    var s1 := Step(INIT, begin);
    var s2 := Step(s1, cap);
    run := [begin, cap];
    assert run[1..] == [cap] && [cap][1..] == [];
    assert Allowed(s2, []) && Run(s2, []) == s2;
    assert Allowed(s1, [cap]) && Run(s1, [cap]) == s2;
    assert Allowed(INIT, run) && Run(INIT, run) == s2;
    FailedStaysExactlyWhenClockMoved(run, OpId(op.source, op.dest, 0));
  }
}
