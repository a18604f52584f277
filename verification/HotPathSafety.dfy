/**
  When a release can be submitted twice: exactly which states of the hot path
  (services/treasury/src/hot_path.rs) have a future that does it, and exactly which polls
  lead there.
 */
module HotPathSafety {
  import opened Wrappers
  import opened RelayRepo
  import opened HotPath

  // ----- States with no double submission ahead -----

  /** The task is past the guard and before the submission, or the guard will let it pass. */
  predicate MaySubmit(s: State, id: nat) {
    id in s.tasks
    && (s.tasks[id].phase in {Passed, Recorded} || (s.tasks[id].phase == Started && s.tasks[id].event.hash !in s.rows))
  }

  function HashOf(s: State, id: nat): EventHash
    requires id in s.tasks
  {
    s.tasks[id].event.hash
  }

  ghost predicate Safe(s: State) {
    && Distinct(s.submits)
    && (forall id | MaySubmit(s, id) :: HashOf(s, id) !in s.submits)
    && (forall a, b | MaySubmit(s, a) && MaySubmit(s, b) && a != b :: HashOf(s, a) != HashOf(s, b))
  }

  ghost predicate PollFree(run: seq<Action>) {
    forall i | 0 <= i < |run| :: !run[i].Poll?
  }

  /** Whatever the tasks do from here, in any order and with any restarts, no hash is submitted twice. */
  ghost predicate NeverTwice(s: State) {
    forall run | Allowed(s, run) && PollFree(run) :: Distinct(Run(s, run).submits)
  }

  // ----- Safe states stay safe -----

  lemma {:induction false} TaskStepSafe(s: State, a: Action, id: nat)
    requires Safe(s) && Enabled(s, a) && !a.Poll? && !a.Restart? && id == a.id
    ensures Safe(Step(s, a))
  {
    var s' := Step(s, a);
    forall k | MaySubmit(s', k) ensures MaySubmit(s, k) && HashOf(s', k) == HashOf(s, k) {
    }
    if a.SubmitRelease? {
      assert MaySubmit(s, id) && !MaySubmit(s', id);
      forall k | MaySubmit(s', k) ensures HashOf(s', k) !in s'.submits {
        assert MaySubmit(s, k) && k != id;
      }
    }
  }

  lemma {:induction false} RunSafe(s: State, run: seq<Action>)
    requires Safe(s) && Allowed(s, run) && PollFree(run)
    ensures Safe(Run(s, run))
    decreases |run|
  {
    if run != [] {
      var a := run[0];
      if !a.Restart? {
        TaskStepSafe(s, a, a.id);
      }
      assert PollFree(run[1..]) by {
        forall i | 0 <= i < |run[1..]| ensures !run[1..][i].Poll? {
          assert run[1..][i] == run[i + 1];
        }
      }
      RunSafe(Step(s, a), run[1..]);
    }
  }

  // ----- Unsafe states have a bad future -----

  lemma {:induction false} RunAppend(s: State, run: seq<Action>, more: seq<Action>)
    requires Allowed(s, run) && Allowed(Run(s, run), more)
    ensures Allowed(s, run + more) && Run(s, run + more) == Run(Run(s, run), more)
    decreases |run|
  {
    if run == [] {
      assert run + more == more;
    } else {
      RunAppend(Step(s, run[0]), run[1..], more);
      assert (run + more)[1..] == run[1..] + more && (run + more)[0] == run[0];
    }
  }

  predicate Past(s: State, id: nat) {
    id in s.tasks && s.tasks[id].phase in {Passed, Recorded}
  }

  ghost predicate OthersKept(s: State, s': State, id: nat) {
    && id in s.tasks && id in s'.tasks && s'.tasks[id].event == s.tasks[id].event
    && forall k | k in s.tasks && k != id :: k in s'.tasks && s'.tasks[k] == s.tasks[k]
  }

  lemma {:induction false} PassGuard(s: State, id: nat) returns (run: seq<Action>)
    requires MaySubmit(s, id)
    ensures Allowed(s, run) && PollFree(run) && Past(Run(s, run), id) && OthersKept(s, Run(s, run), id)
    ensures Run(s, run).rows == s.rows && Run(s, run).submits == s.submits
  {
    if s.tasks[id].phase == Started {
      run := [Guard(id)] + [];
      RunCons(s, Guard(id), []);
    } else {
      run := [];
    }
  }

  lemma {:induction false} SubmitPast(s: State, id: nat) returns (run: seq<Action>)
    requires Past(s, id)
    ensures Allowed(s, run) && PollFree(run) && OthersKept(s, Run(s, run), id)
    ensures Run(s, run).submits == s.submits + [HashOf(s, id)]
  {
    if s.tasks[id].phase == Passed {
      var decide := Decide(id, true, s.tasks[id].event.amount);
      RunCons(Step(s, decide), SubmitRelease(id), []);
      RunCons(s, decide, [SubmitRelease(id)] + []);
      run := [decide] + ([SubmitRelease(id)] + []);
    } else {
      RunCons(s, SubmitRelease(id), []);
      run := [SubmitRelease(id)] + [];
    }
  }

  lemma {:induction false} SubmitAllowed(s: State, id: nat) returns (run: seq<Action>)
    requires MaySubmit(s, id)
    ensures Allowed(s, run) && PollFree(run) && Run(s, run).submits == s.submits + [HashOf(s, id)]
  {
    var first := PassGuard(s, id);
    var more := SubmitPast(Run(s, first), id);
    RunAppend(s, first, more);
    run := first + more;
  }

  lemma {:induction false} SubmitBoth(s: State, a: nat, b: nat) returns (run: seq<Action>)
    requires MaySubmit(s, a) && MaySubmit(s, b) && a != b
    ensures Allowed(s, run) && PollFree(run) && Run(s, run).submits == s.submits + [HashOf(s, a)] + [HashOf(s, b)]
  {
    var r1 := PassGuard(s, a);
    var s1 := Run(s, r1);
    var r2 := PassGuard(s1, b);
    var s2 := Run(s1, r2);
    RunAppend(s, r1, r2);
    var r3 := SubmitPast(s2, a);
    var s3 := Run(s2, r3);
    RunAppend(s, r1 + r2, r3);
    var r4 := SubmitPast(s3, b);
    RunAppend(s, r1 + r2 + r3, r4);
    run := r1 + r2 + r3 + r4;
  }

  lemma {:induction false} UnsafeHasBadFuture(s: State)
    requires !Safe(s)
    ensures !NeverTwice(s)
  {
    if !Distinct(s.submits) {
      assert Allowed(s, []) && PollFree([]) && Run(s, []) == s;
    } else if id :| MaySubmit(s, id) && HashOf(s, id) in s.submits {
      var run := SubmitAllowed(s, id);
      Repeats(s.submits, HashOf(s, id));
    } else {
      var a, b :| MaySubmit(s, a) && MaySubmit(s, b) && a != b && HashOf(s, a) == HashOf(s, b);
      var run := SubmitBoth(s, a, b);
      Repeats(s.submits + [HashOf(s, a)], HashOf(s, b));
    }
  }

  /**
    Without further polls no hash will be submitted twice, if and only if none was, no task
    that may still submit has a submitted hash, and no two such tasks share one.
   */
  lemma {:induction false} NeverTwiceExactly(s: State)
    ensures NeverTwice(s) <==> Safe(s)
  {
    if Safe(s) {
      forall run | Allowed(s, run) && PollFree(run) ensures Distinct(Run(s, run).submits) {
        RunSafe(s, run);
      }
    } else {
      UnsafeHasBadFuture(s);
    }
  }

  // ----- Polls -----

  ghost predicate Numbered(s: State) {
    forall id | id in s.tasks :: id < s.spawned
  }

  /** Nothing found is new to the table and yet already submitted, in hand, or found twice. */
  ghost predicate FreshPoll(s: State, found: seq<RelayEvent>) {
    && (forall i | 0 <= i < |found| && found[i].hash !in s.rows :: found[i].hash !in s.submits)
    && (forall i, id | 0 <= i < |found| && found[i].hash !in s.rows
        && MaySubmit(s, id) :: found[i].hash != HashOf(s, id))
    && (forall i, j | 0 <= i < j < |found| && found[i].hash !in s.rows :: found[i].hash != found[j].hash)
  }

  /** The task for `found[k]` is there and has not begun. */
  ghost predicate SpawnedAt(tasks: map<nat, Task>, from: nat, found: seq<RelayEvent>, k: nat) {
    k < |found| && from + k in tasks && tasks[from + k] == Task(found[k], Started)
  }

  lemma {:induction false} SpawnsAll(tasks: map<nat, Task>, from: nat, found: seq<RelayEvent>, k: nat)
    requires (forall id | id in tasks :: id < from) && k < |found|
    ensures SpawnedAt(Spawn(tasks, from, found), from, found, k)
    decreases |found|
  {
    var next := tasks[from := Task(found[0], Started)];
    if k == 0 {
      SpawnedTasks(next, from + 1, found[1..]);
      assert from in next;
    } else {
      SpawnsAll(next, from + 1, found[1..], k - 1);
      assert SpawnedAt(Spawn(tasks, from, found), from + 1, found[1..], k - 1);
    }
  }

  ghost predicate Polled(s: State, s': State, found: seq<RelayEvent>) {
    && s'.rows == s.rows && s'.submits == s.submits
    && (forall id | id in s.tasks :: id < s.spawned && id in s'.tasks && s'.tasks[id] == s.tasks[id])
    && (forall k: nat | k < |found| :: SpawnedAt(s'.tasks, s.spawned, found, k))
    && (forall id | id in s'.tasks && id !in s.tasks :: s.spawned <= id < s.spawned + |found|)
  }

  lemma {:induction false} PollSpawns(s: State, chain: ChainId, head: nat, found: seq<RelayEvent>)
    requires Numbered(s)
    ensures Polled(s, Step(s, Poll(chain, head, found)), found)
  {
    var s' := Step(s, Poll(chain, head, found));
    assert s'.tasks == Spawn(s.tasks, s.spawned, found);
    SpawnedTasks(s.tasks, s.spawned, found);
    forall k: nat | k < |found| ensures SpawnedAt(s'.tasks, s.spawned, found, k) {
      SpawnsAll(s.tasks, s.spawned, found, k);
    }
  }

  lemma {:induction false} FreshStaysSafe(s: State, s': State, found: seq<RelayEvent>)
    requires Polled(s, s', found) && Safe(s) && FreshPoll(s, found)
    ensures Safe(s')
  {
    forall id: nat | MaySubmit(s', id)
      ensures if id in s.tasks then MaySubmit(s, id) && HashOf(s', id) == HashOf(s, id)
              else s.spawned <= id < s.spawned + |found| && HashOf(s', id) == found[id - s.spawned].hash
                   && found[id - s.spawned].hash !in s.rows
    {
      if id !in s.tasks {
        assert SpawnedAt(s'.tasks, s.spawned, found, id - s.spawned);
      }
    }
    forall a, b | MaySubmit(s', a) && MaySubmit(s', b) && a < b ensures HashOf(s', a) != HashOf(s', b) {
    }
  }

  lemma {:induction false} StaleIsUnsafe(s: State, s': State, found: seq<RelayEvent>)
    requires Polled(s, s', found) && Safe(s')
    ensures Safe(s) && FreshPoll(s, found)
  {
    forall id | MaySubmit(s, id) ensures MaySubmit(s', id) && HashOf(s', id) == HashOf(s, id) {
    }
    forall k: nat | k < |found| && found[k].hash !in s.rows
      ensures MaySubmit(s', s.spawned + k) && HashOf(s', s.spawned + k) == found[k].hash
    {
      assert SpawnedAt(s'.tasks, s.spawned, found, k);
    }
    forall i, j | 0 <= i < j < |found| && found[i].hash !in s.rows ensures found[i].hash != found[j].hash {
      if found[j].hash !in s.rows {
        assert HashOf(s', s.spawned + i) != HashOf(s', s.spawned + j);
      }
    }
  }

  /** A poll keeps the tasks from ever submitting twice exactly when what it found is fresh. */
  lemma {:induction false} PollSafeExactly(s: State, chain: ChainId, head: nat, found: seq<RelayEvent>)
    requires Numbered(s)
    ensures NeverTwice(Step(s, Poll(chain, head, found))) <==> NeverTwice(s) && FreshPoll(s, found)
  {
    var s' := Step(s, Poll(chain, head, found));
    PollSpawns(s, chain, head, found);
    NeverTwiceExactly(s);
    NeverTwiceExactly(s');
    if Safe(s) && FreshPoll(s, found) {
      FreshStaysSafe(s, s', found);
    } else if Safe(s') {
      StaleIsUnsafe(s, s', found);
    }
  }

  // ----- Whole runs -----

  ghost predicate FreshPolls(s: State, run: seq<Action>)
    requires Allowed(s, run)
    decreases |run|
  {
    run == [] || ((run[0].Poll? ==> FreshPoll(s, run[0].found)) && FreshPolls(Step(s, run[0]), run[1..]))
  }

  /** At every point of the run. */
  ghost predicate AlwaysNeverTwice(s: State, run: seq<Action>)
    requires Allowed(s, run)
    decreases |run|
  {
    NeverTwice(s) && (run == [] || AlwaysNeverTwice(Step(s, run[0]), run[1..]))
  }

  lemma {:induction false} StepNumbered(s: State, a: Action)
    requires Numbered(s) && Enabled(s, a)
    ensures Numbered(Step(s, a))
  {
    if a.Poll? {
      PollSpawns(s, a.chain, a.head, a.found);
      SpawnedTasks(s.tasks, s.spawned, a.found);
    }
  }

  lemma {:induction false} StepNeverTwice(s: State, a: Action)
    requires Numbered(s) && Enabled(s, a) && NeverTwice(s)
    ensures NeverTwice(Step(s, a)) <==> (a.Poll? ==> FreshPoll(s, a.found))
  {
    if a.Poll? {
      PollSafeExactly(s, a.chain, a.head, a.found);
    } else {
      NeverTwiceExactly(s);
      NeverTwiceExactly(Step(s, a));
      if !a.Restart? {
        TaskStepSafe(s, a, a.id);
      }
    }
  }

  lemma {:induction false} AlwaysExactly(s: State, run: seq<Action>)
    requires Numbered(s) && NeverTwice(s) && Allowed(s, run)
    ensures AlwaysNeverTwice(s, run) <==> FreshPolls(s, run)
    decreases |run|
  {
    if run != [] {
      StepNeverTwice(s, run[0]);
      StepNumbered(s, run[0]);
      if NeverTwice(Step(s, run[0])) {
        AlwaysExactly(Step(s, run[0]), run[1..]);
      } else {
        NotAlways(Step(s, run[0]), run[1..]);
      }
    }
  }

  lemma {:induction false} NotAlways(s: State, run: seq<Action>)
    requires Allowed(s, run) && !NeverTwice(s)
    ensures !AlwaysNeverTwice(s, run)
  {
  }

  /**
    At every point of a run with concurrent tasks and restarts the tasks in hand cannot
    submit a hash twice, if and only if every poll of the run was fresh.
   */
  lemma {:induction false} ReleasedOnceExactly(run: seq<Action>)
    requires Allowed(INIT, run)
    ensures AlwaysNeverTwice(INIT, run) <==> FreshPolls(INIT, run)
  {
    NeverTwiceExactly(INIT);
    AlwaysExactly(INIT, run);
  }

  // ----- What makes polls fresh -----

  lemma {:induction false} HonestPollIsFresh(s: State, a: Action, place: EventHash -> Place)
    requires Inv(s, place) && a.Poll? && Honest(s, a, place)
    ensures FreshPoll(s, a.found)
  {
    forall i, id | 0 <= i < |a.found| && MaySubmit(s, id) ensures a.found[i].hash != HashOf(s, id) {
      // What is in hand was mined below the cursor, what is found above it.
      assert TaskInv(s, s.tasks[id], place);
    }
  }

  /**
    Heads that never decrease, one log per transaction and no transaction that is mined in two
    places make every poll fresh.
   */
  lemma {:induction false} HonestPollsAreFresh(s: State, run: seq<Action>, place: EventHash -> Place)
    requires Inv(s, place) && Allowed(s, run) && HonestRun(s, run, place)
    ensures FreshPolls(s, run)
    decreases |run|
  {
    if run != [] {
      if run[0].Poll? {
        HonestPollIsFresh(s, run[0], place);
      }
      StepInv(s, run[0], place);
      HonestPollsAreFresh(Step(s, run[0]), run[1..], place);
    }
  }

  /** So nothing is ever submitted twice in an honest run, nor can be by the tasks in hand. */
  lemma {:induction false} HonestRunReleasesOnce(run: seq<Action>, place: EventHash -> Place)
    requires Allowed(INIT, run) && HonestRun(INIT, run, place)
    ensures AlwaysNeverTwice(INIT, run) && Distinct(Run(INIT, run).submits)
  {
    HonestPollsAreFresh(INIT, run, place);
    ReleasedOnceExactly(run);
    AlwaysAtTheEnd(INIT, run);
    NeverTwiceExactly(Run(INIT, run));
  }

  lemma {:induction false} AlwaysAtTheEnd(s: State, run: seq<Action>)
    requires Allowed(s, run) && AlwaysNeverTwice(s, run)
    ensures NeverTwice(Run(s, run))
    decreases |run|
  {
    if run != [] {
      AlwaysAtTheEnd(Step(s, run[0]), run[1..]);
    }
  }
}
