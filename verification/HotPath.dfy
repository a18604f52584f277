/**
  The hot-path relayer (services/treasury/src/hot_path.rs): a polling loop that spawns one
  task per log, tasks that run concurrently, and restarts that lose everything but the
  relay log.
 */
module HotPath {
  import opened Wrappers
  import opened RelayRepo
  import opened Scans

  type ChainId = nat

  const MAX_BLOCK_RANGE: nat := 2_000

  // ----- Scanning -----

  /** First block of the next query: the cursor, or the head on the first poll, within the range cap. */
  function ScanFrom(cursor: Option<nat>, head: nat): nat {
    var from := if cursor.Some? then cursor.value else head;
    Max(from, head - MAX_BLOCK_RANGE)
  }

  function CursorOf(lastBlock: map<ChainId, nat>, chain: ChainId): Option<nat> {
    if chain in lastBlock then Some(lastBlock[chain]) else None
  }

  class Poller {
    var lastBlock: map<ChainId, nat>

    constructor ()
      ensures lastBlock == map[]
    {
      lastBlock := map[];
    }

    /** One chain of one pass of `poll_events_loop`: the range to query, and the cursor after it. */
    method PollChain(chain: ChainId, toBlock: nat) returns (scanFrom: nat)
      modifies this
      ensures scanFrom == ScanFrom(CursorOf(old(lastBlock), chain), toBlock)
      ensures lastBlock == old(lastBlock)[chain := toBlock + 1]
    {
      var from := toBlock;
      if chain in lastBlock {
        from := lastBlock[chain];
      }
      scanFrom := Max(from, toBlock - MAX_BLOCK_RANGE);
      lastBlock := lastBlock[chain := toBlock + 1];
    }

    /** The passes of `poll_events_loop` over one chain, from the start of the process. */
    method PollPasses(chain: ChainId, heads: seq<nat>) returns (froms: seq<nat>)
      requires chain !in lastBlock
      modifies this
      ensures froms == Froms(heads)
      ensures lastBlock == if heads == [] then old(lastBlock) else old(lastBlock)[chain := heads[|heads| - 1] + 1]
    {
      froms := [];
      for i := 0 to |heads|
        invariant froms == Froms(heads)[..i]
        invariant lastBlock == if i == 0 then old(lastBlock) else old(lastBlock)[chain := heads[i - 1] + 1]
      {
        var from := PollChain(chain, heads[i]);
        assert from == FromAt(heads, i);
        froms := froms + [from];
      }
    }
  }

  // ----- Which blocks a process queries -----

  /** The first block of query `i` of a process that sees these heads of a chain. */
  function FromAt(heads: seq<nat>, i: nat): nat
    requires i < |heads|
  {
    ScanFrom(if i == 0 then None else Some(heads[i - 1] + 1), heads[i])
  }

  function Froms(heads: seq<nat>): (r: seq<nat>)
    ensures |r| == |heads| && forall i: nat | i < |heads| :: r[i] == FromAt(heads, i)
  {
    seq(|heads|, i requires 0 <= i < |heads| => FromAt(heads, i))
  }

  lemma {:induction false} PollsScan(heads: seq<nat>)
    requires heads != [] && NonDecreasing(heads)
    ensures ScansFrom(heads[0], heads, MAX_BLOCK_RANGE, Froms(heads))
    ensures forall i: nat | i < |heads| :: FrontierAt(heads[0], heads, i) <= Froms(heads)[i]
  {
    forall i: nat | i < |heads|
      ensures ScansOne(FrontierAt(heads[0], heads, i), heads[i], MAX_BLOCK_RANGE, Froms(heads)[i])
      ensures FrontierAt(heads[0], heads, i) <= Froms(heads)[i]
    {
    }
  }

  /**
    In a process whose heads never decrease, every block from the first head to the last is in
    exactly one query if and only if no head ran ahead of its cursor by more than the range
    cap; and no block is ever in two.
   */
  lemma {:induction false} BlocksQueriedOnceExactly(heads: seq<nat>)
    requires heads != [] && NonDecreasing(heads)
    ensures AllCovered(heads[0], Froms(heads), heads) <==> KeepsUp(heads[0], heads, 2_000)
    ensures forall b: nat :: OnlyOnce(Froms(heads), heads, b)
  {
    PollsScan(heads);
    AllCoveredExactly(heads[0], heads, MAX_BLOCK_RANGE, Froms(heads));
    forall b: nat ensures OnlyOnce(Froms(heads), heads, b) {
      QueriedOnlyOnce(heads[0], heads, MAX_BLOCK_RANGE, Froms(heads), b);
    }
  }

  /** The blocks that stay unqueried for the rest of the process are those some poll skipped. */
  lemma {:induction false} BlocksMissedExactly(heads: seq<nat>, b: nat)
    requires heads != [] && NonDecreasing(heads) && heads[0] <= b <= heads[|heads| - 1]
    ensures !Covered(Froms(heads), heads, b) <==> exists i :: SkippedAt(heads[0], heads, 2_000, i, b)
  {
    PollsScan(heads);
    MissedExactly(heads[0], heads, MAX_BLOCK_RANGE, Froms(heads), b);
  }

  /** A head 2001 blocks further on: the block behind the first head is never queried in this process. */
  lemma {:induction false} BlockCanBeMissed(head: nat)
    ensures var heads := [head, head + 2_002];
            NonDecreasing(heads) && !Covered(Froms(heads), heads, head + 1)
  {
    var heads := [head, head + 2_002];
    assert SkippedAt(heads[0], heads, 2_000, 1, head + 1);
    BlocksMissedExactly(heads, head + 1);
  }

  // ----- Eligibility -----

  datatype RelayDecision = Approved | RejectInactive | RejectDepth

  function EvaluateRelayEligibility(chainActive: bool, poolDepth: nat, required: nat): RelayDecision {
    if !chainActive then RejectInactive
    else if poolDepth >= required then Approved
    else RejectDepth
  }

  function StatusOf(decision: RelayDecision): RelayStatus {
    match decision
    case Approved => Pending
    case RejectInactive => RejectedInactiveChain
    case RejectDepth => RejectedInsufficientDepth
  }

  // ----- Steps -----

  /** Where a relay task stands: before the guard, past it, past the insert, past the submission. */
  datatype Phase = Started | Passed | Recorded | Submitted

  datatype Task = Task(event: RelayEvent, phase: Phase)

  /**
    `submits` lists the event hashes for which a release was submitted, oldest first; it is
    history, not state of the program.
   */
  datatype State = State(
    rows: RelayRows, lastBlock: map<ChainId, nat>, tasks: map<nat, Task>, spawned: nat, submits: seq<EventHash>)

  const INIT := State(map[], map[], map[], 0, [])

  datatype Action =
    | Poll(chain: ChainId, head: nat, found: seq<RelayEvent>)
    | Guard(id: nat)
    | Abort(id: nat)
    | Decide(id: nat, chainActive: bool, poolDepth: nat)
    | SubmitRelease(id: nat)
    | Finish(id: nat, tx: Option<string>)
    | Restart

  predicate InPhase(s: State, id: nat, phase: Phase) {
    id in s.tasks && s.tasks[id].phase == phase
  }

  predicate Enabled(s: State, a: Action) {
    match a
    case Poll(_, _, _) => true
    case Guard(id) => InPhase(s, id, Started)
    case Abort(id) => InPhase(s, id, Passed)
    case Decide(id, _, _) => InPhase(s, id, Passed)
    case SubmitRelease(id) => InPhase(s, id, Recorded)
    case Finish(id, _) => InPhase(s, id, Submitted)
    case Restart => true
  }

  function Spawn(tasks: map<nat, Task>, from: nat, found: seq<RelayEvent>): map<nat, Task>
    decreases |found|
  {
    if found == [] then tasks
    else Spawn(tasks[from := Task(found[0], Started)], from + 1, found[1..])
  }

  function Enter(s: State, id: nat, phase: Phase): State
    requires id in s.tasks
  {
    s.(tasks := s.tasks[id := s.tasks[id].(phase := phase)])
  }

  function End(s: State, id: nat): State {
    s.(tasks := s.tasks - {id})
  }

  function Step(s: State, a: Action): State
    requires Enabled(s, a)
  {
    match a
    case Poll(chain, head, found) =>
      s.(lastBlock := s.lastBlock[chain := head + 1],
         tasks := Spawn(s.tasks, s.spawned, found), spawned := s.spawned + |found|)
    case Guard(id) =>
      if s.tasks[id].event.hash in s.rows then End(s, id) else Enter(s, id, Passed)
    case Abort(id) => End(s, id)
    case Decide(id, chainActive, poolDepth) =>
      var event := s.tasks[id].event;
      var decision := EvaluateRelayEligibility(chainActive, poolDepth, event.amount);
      var logged := s.(rows := Logged(s.rows, event, StatusOf(decision)));
      if decision.Approved? then Enter(logged, id, Recorded) else End(logged, id)
    case SubmitRelease(id) => Enter(s, id, Submitted).(submits := s.submits + [s.tasks[id].event.hash])
    case Finish(id, tx) =>
      var hash := s.tasks[id].event.hash;
      End(s, id).(rows := if tx.Some? then Updated(s.rows, hash, tx.value, Completed) else UpdatedFailed(s.rows, hash))
    case Restart => s.(lastBlock := map[], tasks := map[])
  }

  /** A restart keeps the relay log alone, and the next poll of every chain starts at its head. */
  lemma {:induction false} RestartStartsAtHead(s: State, chain: ChainId, head: nat)
    ensures var s' := Step(s, Restart);
            && s'.rows == s.rows && s'.tasks == map[]
            && ScanFrom(CursorOf(s'.lastBlock, chain), head) == head
  {
  }

  /** Where a transaction is mined. */
  datatype Place = Place(chain: ChainId, block: nat)

  /** Reported heads never decrease within a process. */
  predicate HeadsNeverDecrease(s: State, a: Action) {
    a.Poll? && a.chain in s.lastBlock ==> s.lastBlock[a.chain] <= a.head + 1
  }

  /** A transaction carries at most one `HotPathInitiated` log. */
  predicate OneLogPerTransaction(a: Action) {
    a.Poll? ==> forall i, j | 0 <= i < j < |a.found| :: a.found[i].hash != a.found[j].hash
  }

  /** A query returns logs of the blocks it asked for. */
  ghost predicate LogsInRange(s: State, a: Action, place: EventHash -> Place) {
    a.Poll? ==> forall i | 0 <= i < |a.found| ::
      && place(a.found[i].hash).chain == a.chain
      && ScanFrom(CursorOf(s.lastBlock, a.chain), a.head) <= place(a.found[i].hash).block <= a.head
  }

  /** What the at-most-once guarantee asks of the chains. */
  ghost predicate Honest(s: State, a: Action, place: EventHash -> Place) {
    HeadsNeverDecrease(s, a) && OneLogPerTransaction(a) && LogsInRange(s, a, place)
  }

  ghost predicate Allowed(s: State, run: seq<Action>)
    decreases |run|
  {
    run == [] || (Enabled(s, run[0]) && Allowed(Step(s, run[0]), run[1..]))
  }

  ghost function Run(s: State, run: seq<Action>): State
    requires Allowed(s, run)
    decreases |run|
  {
    if run == [] then s else Run(Step(s, run[0]), run[1..])
  }

  ghost predicate HonestRun(s: State, run: seq<Action>, place: EventHash -> Place)
    requires Allowed(s, run)
    decreases |run|
  {
    run == [] || (Honest(s, run[0], place) && HonestRun(Step(s, run[0]), run[1..], place))
  }

  // ----- At most one release per event -----

  ghost predicate ScannedBefore(s: State, hash: EventHash, place: EventHash -> Place) {
    place(hash).chain in s.lastBlock && place(hash).block < s.lastBlock[place(hash).chain]
  }

  ghost predicate TaskInv(s: State, t: Task, place: EventHash -> Place) {
    && ScannedBefore(s, t.event.hash, place)
    && (t.phase == Passed ==> t.event.hash !in s.rows)
    && (t.phase == Recorded ==>
          t.event.hash in s.rows && t.event.hash !in s.submits && s.rows[t.event.hash].status == Pending)
    && (t.phase == Submitted ==> t.event.hash in s.submits)
  }

  ghost predicate Inv(s: State, place: EventHash -> Place) {
    && (forall id | id in s.tasks :: id < s.spawned && TaskInv(s, s.tasks[id], place))
    && (forall a, b | a in s.tasks && b in s.tasks && a != b :: s.tasks[a].event.hash != s.tasks[b].event.hash)
    && Distinct(s.submits)
    && (forall h | h in s.submits :: h in s.rows && s.rows[h].status in {Pending, Completed, Failed})
    && (forall h | h in s.rows && s.rows[h].status in {Completed, Failed} :: h in s.submits)
  }

  lemma {:induction false} SpawnedTasks(tasks: map<nat, Task>, from: nat, found: seq<RelayEvent>)
    requires forall id | id in tasks :: id < from
    decreases |found|
    ensures var r := Spawn(tasks, from, found);
            && (forall id | id in tasks :: id in r && r[id] == tasks[id])
            && (forall id | id in r && id !in tasks ::
                  from <= id < from + |found| && r[id] == Task(found[id - from], Started))
  {
    if found != [] {
      var next := tasks[from := Task(found[0], Started)];
      SpawnedTasks(next, from + 1, found[1..]);
      var r := Spawn(tasks, from, found);
      assert r == Spawn(next, from + 1, found[1..]);
      forall id | id in tasks ensures id in r && r[id] == tasks[id] {
        assert id in next;
      }
      forall id | id in r && id !in tasks
        ensures from <= id < from + |found| && r[id] == Task(found[id - from], Started)
      {
        assert id == from ==> id in next;
        assert id != from ==> id !in next;
      }
    }
  }

  lemma {:induction false} PollInv(s: State, a: Action, place: EventHash -> Place)
    requires Inv(s, place) && a.Poll? && Honest(s, a, place)
    ensures Inv(Step(s, a), place)
  {
    var s' := Step(s, a);
    SpawnedTasks(s.tasks, s.spawned, a.found);
    forall id | id in s'.tasks ensures id < s'.spawned && TaskInv(s', s'.tasks[id], place) {
      if id in s.tasks {
        assert TaskInv(s, s.tasks[id], place);
      }
    }
    forall x, y | x in s'.tasks && y in s'.tasks && x < y
      ensures s'.tasks[x].event.hash != s'.tasks[y].event.hash
    {
      // An old task comes from below the cursor, a new one from above it.
      if x in s.tasks && y !in s.tasks {
        assert TaskInv(s, s.tasks[x], place);
      }
    }
  }

  lemma {:induction false} StepInv(s: State, a: Action, place: EventHash -> Place)
    requires Inv(s, place) && Enabled(s, a) && Honest(s, a, place)
    ensures Inv(Step(s, a), place)
  {
    match a
    case Poll(_, _, _) => PollInv(s, a, place);
    case Restart =>
    case Guard(id) => TaskStepInv(s, a, id, place);
    case Abort(id) => TaskStepInv(s, a, id, place);
    case Decide(id, _, _) => TaskStepInv(s, a, id, place);
    case SubmitRelease(id) => TaskStepInv(s, a, id, place);
    case Finish(id, _) => TaskStepInv(s, a, id, place);
  }

  /** The parts of the invariant that no task takes part in. */
  ghost predicate TableInv(s: State) {
    && Distinct(s.submits)
    && (forall h | h in s.submits :: h in s.rows && s.rows[h].status in {Pending, Completed, Failed})
    && (forall h | h in s.rows && s.rows[h].status in {Completed, Failed} :: h in s.submits)
  }

  lemma {:induction false} TaskStepTable(s: State, a: Action, id: nat, place: EventHash -> Place)
    requires Inv(s, place) && Enabled(s, a) && !a.Poll? && !a.Restart? && id == a.id
    ensures TableInv(Step(s, a))
  {
    assert TaskInv(s, s.tasks[id], place);
  }

  lemma {:induction false} OwnTaskInv(s: State, a: Action, id: nat, place: EventHash -> Place)
    requires Inv(s, place) && Enabled(s, a) && !a.Poll? && !a.Restart? && id == a.id && id in Step(s, a).tasks
    ensures TaskInv(Step(s, a), Step(s, a).tasks[id], place)
  {
    assert TaskInv(s, s.tasks[id], place);
  }

  lemma {:induction false} OtherTaskInv(s: State, a: Action, k: nat, place: EventHash -> Place)
    requires Inv(s, place) && Enabled(s, a) && !a.Poll? && !a.Restart? && k != a.id && k in Step(s, a).tasks
    ensures k in s.tasks && Step(s, a).tasks[k] == s.tasks[k] && TaskInv(Step(s, a), s.tasks[k], place)
  {
    assert TaskInv(s, s.tasks[k], place) && TaskInv(s, s.tasks[a.id], place);
    assert s.tasks[k].event.hash != s.tasks[a.id].event.hash;
  }

  lemma {:induction false} TaskStepInv(s: State, a: Action, id: nat, place: EventHash -> Place)
    requires Inv(s, place) && Enabled(s, a) && !a.Poll? && !a.Restart? && id == a.id
    ensures Inv(Step(s, a), place)
  {
    var s' := Step(s, a);
    TaskStepTable(s, a, id, place);
    forall k | k in s'.tasks
      ensures k in s.tasks && s'.tasks[k].event == s.tasks[k].event && TaskInv(s', s'.tasks[k], place)
    {
      if k == id {
        OwnTaskInv(s, a, id, place);
      } else {
        OtherTaskInv(s, a, k, place);
      }
    }
  }

  lemma {:induction false} RunInv(s: State, run: seq<Action>, place: EventHash -> Place)
    requires Inv(s, place) && Allowed(s, run) && HonestRun(s, run, place)
    ensures Inv(Run(s, run), place)
    decreases |run|
  {
    if run != [] {
      StepInv(s, run[0], place);
      RunInv(Step(s, run[0]), run[1..], place);
    }
  }

  /**
    In every run, with restarts and any interleaving of tasks, whose heads never decrease and
    whose transactions carry one log each and are mined in one place each, a release is
    submitted at most once per event hash; a rejected event is never submitted, and only submitted
    events are recorded as completed or failed.
   */
  lemma {:induction false} AtMostOneRelease(run: seq<Action>, place: EventHash -> Place)
    requires Allowed(INIT, run) && HonestRun(INIT, run, place)
    ensures var s := Run(INIT, run);
            && Distinct(s.submits)
            && (forall h | h in s.submits :: h in s.rows)
            && (forall h | h in s.rows && s.rows[h].status in {RejectedInactiveChain, RejectedInsufficientDepth} ::
                  h !in s.submits)
            && (forall h | h in s.rows && s.rows[h].status in {Completed, Failed} :: h in s.submits)
  {
    RunInv(INIT, run, place);
  }

  // ----- All three assumptions about the chains are needed -----

  lemma {:induction false} RunCons(s: State, a: Action, rest: seq<Action>)
    requires Enabled(s, a) && Allowed(Step(s, a), rest)
    ensures Allowed(s, [a] + rest) && Run(s, [a] + rest) == Run(Step(s, a), rest)
  {
    assert ([a] + rest)[1..] == rest;
  }

  lemma {:induction false} SpawnCons(tasks: map<nat, Task>, from: nat, event: RelayEvent, rest: seq<RelayEvent>)
    ensures Spawn(tasks, from, [event] + rest) == Spawn(tasks[from := Task(event, Started)], from + 1, rest)
    ensures [event] + [] == [event] && [event] + [event] == [event, event]
    ensures Spawn(tasks[from := Task(event, Started)], from + 1, []) == tasks[from := Task(event, Started)]
  {
    assert ([event] + rest)[1..] == rest;
  }

  /** Two tasks for one event that both pass the guard before either records it. */
  const RACE: seq<Action> :=
    [Guard(0)] + ([Guard(1)] + ([Decide(0, true, 1)] + ([Decide(1, true,
        1)] + ([SubmitRelease(0)] + ([SubmitRelease(1)] + [])))))

  lemma {:induction false} RaceSubmitsTwice(s: State, event: RelayEvent)
    requires s.tasks == map[0 := Task(event, Started), 1 := Task(event, Started)]
    requires event.hash !in s.rows && event.amount <= 1 && s.submits == []
    ensures Allowed(s, RACE) && Run(s, RACE).submits == [event.hash, event.hash]
  {
    var s1 := Step(s, Guard(0));
    var s2 := Step(s1, Guard(1));
    var s3 := Step(s2, Decide(0, true, 1));
    var s4 := Step(s3, Decide(1, true, 1));
    var s5 := Step(s4, SubmitRelease(0));
    var s6 := Step(s5, SubmitRelease(1));
    RunCons(s5, SubmitRelease(1), []);
    RunCons(s4, SubmitRelease(0), [SubmitRelease(1)] + []);
    RunCons(s3, Decide(1, true, 1), [SubmitRelease(0)] + ([SubmitRelease(1)] + []));
    RunCons(s2, Decide(0, true, 1), [Decide(1, true, 1)] + ([SubmitRelease(0)] + ([SubmitRelease(1)] + [])));
    RunCons(s1, Guard(1), [Decide(0, true, 1)] + ([Decide(1, true,
        1)] + ([SubmitRelease(0)] + ([SubmitRelease(1)] + []))));
    RunCons(s, Guard(0), [Guard(1)] + ([Decide(0, true, 1)] + ([Decide(1, true,
        1)] + ([SubmitRelease(0)] + ([SubmitRelease(1)] + [])))));
  }

  /** A transaction with two initiated logs is released twice: both share its hash. */
  lemma {:induction false} TwoLogsReleaseTwice(event: RelayEvent, place: EventHash -> Place)
    requires event.amount <= 1 && place(event.hash) == Place(0, 10)
    ensures var poll := Poll(0, 10, [event, event]);
            && HeadsNeverDecrease(INIT, poll) && LogsInRange(INIT, poll, place)
            && Allowed(INIT, [poll] + RACE)
            && Run(INIT, [poll] + RACE).submits == [event.hash, event.hash]
  {
    var poll := Poll(0, 10, [event, event]);
    var s := Step(INIT, poll);
    SpawnCons(map[], 0, event, [event]);
    SpawnCons(map[0 := Task(event, Started)], 1, event, []);
    RaceSubmitsTwice(s, event);
    RunCons(INIT, poll, RACE);
  }

  /** A head that falls back for one poll makes the next query repeat a block. */
  lemma {:induction false} FallingHeadReleasesTwice(event: RelayEvent, place: EventHash -> Place)
    requires event.amount <= 1 && place(event.hash) == Place(0, 10)
    ensures var first, lower, again := Poll(0, 10, [event]), Poll(0, 9, []), Poll(0, 10, [event]);
            var s1 := Step(INIT, first);
            var s2 := Step(s1, lower);
            && OneLogPerTransaction(first) && OneLogPerTransaction(again)
            && LogsInRange(INIT, first, place) && LogsInRange(s1, lower, place) && LogsInRange(s2, again, place)
            && Allowed(INIT, [first] + ([lower] + ([again] + RACE)))
            && Run(INIT, [first] + ([lower] + ([again] + RACE))).submits == [event.hash, event.hash]
  {
    var first, lower, again := Poll(0, 10, [event]), Poll(0, 9, []), Poll(0, 10, [event]);
    var s1 := Step(INIT, first);
    var s2 := Step(s1, lower);
    var s3 := Step(s2, again);
    SpawnCons(map[], 0, event, []);
    SpawnCons(s2.tasks, 1, event, []);
    RaceSubmitsTwice(s3, event);
    RunCons(s2, again, RACE);
    RunCons(s1, lower, [again] + RACE);
    RunCons(INIT, first, [lower] + ([again] + RACE));
  }

  /**
    A transaction that is mined again in a later block is found twice: `place` is not one
    function of the hash then, and all other assumptions hold.
   */
  lemma {:induction false} ReminedReleasesTwice(event: RelayEvent, before: EventHash -> Place,
      after: EventHash -> Place)
    requires event.amount <= 1 && before(event.hash) == Place(0, 10) && after(event.hash) == Place(0, 12)
    ensures var first, again := Poll(0, 10, [event]), Poll(0, 12, [event]);
            var s1 := Step(INIT, first);
            && HeadsNeverDecrease(INIT, first) && HeadsNeverDecrease(s1, again)
            && OneLogPerTransaction(first) && OneLogPerTransaction(again)
            && LogsInRange(INIT, first, before) && LogsInRange(s1, again, after)
            && Allowed(INIT, [first] + ([again] + RACE))
            && Run(INIT, [first] + ([again] + RACE)).submits == [event.hash, event.hash]
  {
    var first, again := Poll(0, 10, [event]), Poll(0, 12, [event]);
    var s1 := Step(INIT, first);
    var s2 := Step(s1, again);
    SpawnCons(map[], 0, event, []);
    SpawnCons(s1.tasks, 1, event, []);
    RaceSubmitsTwice(s2, event);
    RunCons(s1, again, RACE);
    RunCons(INIT, first, [again] + RACE);
  }
}
