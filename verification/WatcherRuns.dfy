/**
  The watcher's verification tasks (services/treasury/src/watcher.rs) as they interleave with
  the caching loop and with each other, one await at a time. A restart forgets the cache and
  the tasks, not the alerts.
 */
module WatcherRuns {
  import opened Wrappers
  import opened ByteStrings
  import opened RelayEvents

  /** Before the check of earlier alerts; past it; classified; past the pause, if one was due. */
  datatype Phase = Started | Checked | Classified(kind: AlertType) | Reacted(alert: Alert)

  datatype Task = Task(release: ReleasedEvent, phase: Phase)

  /** `pauses` is history: the transfers for which a `pause()` went through, oldest first. */
  datatype State = State(
    cache: Cache, alerts: map<Bytes, Alert>, tasks: map<nat, Task>, spawned: nat, pauses: seq<Bytes>)

  const INIT := State(map[], map[], map[], 0, [])

  /** `pause` is the answer of `pause_contract`, which may fail or never try. */
  datatype Action =
    | PollInitiated(poll: LogPoll)
    | PollReleased(release: ReleasedEvent)
    | Check(id: nat)
    | Look(id: nat)
    | React(id: nat, pause: Option<string>)
    | Store(id: nat)
    | Restart

  predicate Enabled(s: State, a: Action) {
    match a
    case PollInitiated(_) => true
    case PollReleased(_) => true
    case Check(id) => id in s.tasks && s.tasks[id].phase.Started?
    case Look(id) => id in s.tasks && s.tasks[id].phase.Checked?
    case React(id, _) => id in s.tasks && s.tasks[id].phase.Classified?
    case Store(id) => id in s.tasks && s.tasks[id].phase.Reacted?
    case Restart => true
  }

  function Enter(s: State, id: nat, phase: Phase): State
    requires id in s.tasks
  {
    s.(tasks := s.tasks[id := s.tasks[id].(phase := phase)])
  }

  function Step(s: State, a: Action): State
    requires Enabled(s, a)
  {
    match a
    case PollInitiated(poll) => s.(cache := Cached(s.cache, poll.logs, poll.chain))
    case PollReleased(release) => s.(tasks := s.tasks[s.spawned := Task(release, Started)], spawned := s.spawned + 1)
    case Check(id) =>
      if s.tasks[id].release.transferId in s.alerts then s.(tasks := s.tasks - {id}) else Enter(s, id, Checked)
    case Look(id) => Enter(s, id, Classified(Classify(s.cache, s.tasks[id].release)))
    case React(id, pause) =>
      var t := s.tasks[id];
      if t.phase.kind == Verified then Enter(s, id, Reacted(Alert(Verified, None)))
      else
        var s' := Enter(s, id, Reacted(Alert(t.phase.kind, pause)));
        if pause.None? then s' else s'.(pauses := s.pauses + [t.release.transferId])
    case Store(id) =>
      var t := s.tasks[id];
      s.(tasks := s.tasks - {id},
         alerts := if t.release.transferId in s.alerts then s.alerts
                   else s.alerts[t.release.transferId := t.phase.alert])
    case Restart => s.(cache := map[], tasks := map[])
  }

  ghost predicate Allowed(s: State, run: seq<Action>)
    decreases |run|
  {
    run == [] || (Enabled(s, run[0]) && Allowed(Step(s, run[0]), run[1..]))
  }

  ghost function Run(s: State, run: seq<Action>): State
    requires Allowed(s, run)
    decreases |run|
  {
    if run == [] then s else Run(Step(s, run[0]), run[1..])
  }

  function TransferOf(s: State, id: nat): Bytes
    requires id in s.tasks
  {
    s.tasks[id].release.transferId
  }

  lemma {:induction false} RunCons(s: State, a: Action, rest: seq<Action>)
    requires Enabled(s, a) && Allowed(Step(s, a), rest)
    ensures Allowed(s, [a] + rest) && Run(s, [a] + rest) == Run(Step(s, a), rest)
  {
    assert ([a] + rest)[1..] == rest;
  }

  /** A verification that nothing comes between does what `VerifyRelease` does. */
  lemma {:induction false} UndisturbedVerification(s: State, id: nat, pause: Option<string>)
    returns (run: seq<Action>)
    requires id in s.tasks && s.tasks[id].phase.Started?
    ensures Allowed(s, run)
    ensures var release, s' := s.tasks[id].release, Run(s, run);
            && s'.tasks == s.tasks - {id} && s'.cache == s.cache
            && (release.transferId in s.alerts ==> s'.alerts == s.alerts && s'.pauses == s.pauses)
            && (release.transferId !in s.alerts ==>
                  var kind := Classify(s.cache, release);
                  && s'.alerts == s.alerts[release.transferId := Alert(kind, if kind == Verified then None else pause)]
                  && s'.pauses == s.pauses + (if kind != Verified && pause.Some? then [release.transferId] else []))
  {
    var s1 := Step(s, Check(id));
    if s.tasks[id].release.transferId in s.alerts {
      RunCons(s, Check(id), []);
      run := [Check(id)] + [];
    } else {
      var s2 := Step(s1, Look(id));
      var s3 := Step(s2, React(id, pause));
      RunCons(s3, Store(id), []);
      RunCons(s2, React(id, pause), [Store(id)] + []);
      RunCons(s1, Look(id), [React(id, pause)] + ([Store(id)] + []));
      RunCons(s, Check(id), [Look(id)] + ([React(id, pause)] + ([Store(id)] + [])));
      run := [Check(id)] + ([Look(id)] + ([React(id, pause)] + ([Store(id)] + [])));
    }
  }

  // ----- What a stored alert says -----

  ghost predicate Inv(s: State) {
    && (forall h | h in s.alerts && s.alerts[h].pauseTx.Some? :: h in s.pauses)
    && (forall id | id in s.tasks && s.tasks[id].phase.Reacted? && s.tasks[id].phase.alert.pauseTx.Some? ::
          TransferOf(s, id) in s.pauses)
  }

  lemma {:induction false} StepInv(s: State, a: Action)
    requires Inv(s) && Enabled(s, a)
    ensures Inv(Step(s, a))
  {
  }

  ghost predicate Settled(s: State, s': State) {
    && (forall h | h in s.alerts :: h in s'.alerts && s'.alerts[h] == s.alerts[h])
    && s.pauses <= s'.pauses
  }

  lemma {:induction false} RunInv(s: State, run: seq<Action>)
    requires Inv(s) && Allowed(s, run)
    ensures Inv(Run(s, run)) && Settled(s, Run(s, run))
    decreases |run|
  {
    if run != [] {
      StepInv(s, run[0]);
      assert Settled(s, Step(s, run[0]));
      RunInv(Step(s, run[0]), run[1..]);
    }
  }

  /**
    Under every interleaving and with restarts: an alert whose detail names a pause belongs to
    a transfer for which one went through, and the first alert of a transfer stands for ever.
   */
  lemma {:induction false} AlertsTellPauses(before: seq<Action>, after: seq<Action>)
    requires Allowed(INIT, before) && Allowed(Run(INIT, before), after)
    ensures var s, s' := Run(INIT, before), Run(Run(INIT, before), after);
            && (forall h | h in s'.alerts && s'.alerts[h].pauseTx.Some? :: h in s'.pauses)
            && (forall h | h in s.alerts :: h in s'.alerts && s'.alerts[h] == s.alerts[h])
  {
    RunInv(INIT, before);
    RunInv(Run(INIT, before), after);
  }

  // ----- When every stored anomaly has been paused -----

  predicate IsAnomaly(s: State, id: nat) {
    id in s.tasks
    && match s.tasks[id].phase
       case Classified(kind) => kind != Verified
       case Reacted(alert) => alert.kind != Verified
       case _ => false
  }

  ghost predicate AnomaliesPaused(s: State) {
    forall h | h in s.alerts && s.alerts[h].kind != Verified :: h in s.pauses
  }

  /** No alert about to be stored belongs to an anomaly without a pause. */
  ghost predicate Covered(s: State) {
    && AnomaliesPaused(s)
    && (forall id | IsAnomaly(s, id) && s.tasks[id].phase.Reacted? ::
          TransferOf(s, id) in s.pauses || TransferOf(s, id) in s.alerts)
  }

  /** Every pause asked for goes through. */
  ghost predicate PausesGoThrough(run: seq<Action>) {
    forall i | 0 <= i < |run| && run[i].React? :: run[i].pause.Some?
  }

  ghost predicate PausedAhead(s: State) {
    forall run | Allowed(s, run) && PausesGoThrough(run) :: AnomaliesPaused(Run(s, run))
  }

  /** The pause goes through, or none is due, or the transfer is paused or recorded already. */
  predicate Harmless(s: State, a: Action)
    requires Enabled(s, a)
  {
    a.React? && IsAnomaly(s, a.id) && a.pause.None? ==>
            TransferOf(s, a.id) in s.pauses || TransferOf(s, a.id) in s.alerts
  }

  lemma {:induction false} StepCovered(s: State, a: Action)
    requires Covered(s) && Enabled(s, a) && Harmless(s, a)
    ensures Covered(Step(s, a))
  {
    var s' := Step(s, a);
    forall id | IsAnomaly(s', id) && s'.tasks[id].phase.Reacted?
      ensures TransferOf(s', id) in s'.pauses || TransferOf(s', id) in s'.alerts
    {
      if !(a.React? && a.id == id) {
        assert IsAnomaly(s, id) && s.tasks[id] == s'.tasks[id];
      }
    }
    if a.Store? {
      assert s.tasks[a.id].phase.alert.kind != Verified ==> IsAnomaly(s, a.id);
    }
  }

  lemma {:induction false} CoveredIsPausedAhead(s: State, run: seq<Action>)
    requires Covered(s) && Allowed(s, run) && PausesGoThrough(run)
    ensures AnomaliesPaused(Run(s, run))
    decreases |run|
  {
    if run != [] {
      StepCovered(s, run[0]);
      assert PausesGoThrough(run[1..]) by {
        forall i | 0 <= i < |run[1..]| && run[1..][i].React? ensures run[1..][i].pause.Some? {
          assert run[1..][i] == run[i + 1];
        }
      }
      CoveredIsPausedAhead(Step(s, run[0]), run[1..]);
    }
  }

  lemma {:induction false} PausedAheadExactly(s: State)
    ensures PausedAhead(s) <==> Covered(s)
  {
    if Covered(s) {
      forall run | Allowed(s, run) && PausesGoThrough(run) ensures AnomaliesPaused(Run(s, run)) {
        CoveredIsPausedAhead(s, run);
      }
    } else if !AnomaliesPaused(s) {
      assert Allowed(s, []) && PausesGoThrough([]) && Run(s, []) == s;
    } else {
      var id :| IsAnomaly(s, id) && s.tasks[id].phase.Reacted?
                && TransferOf(s, id) !in s.pauses && TransferOf(s, id) !in s.alerts;
      RunCons(s, Store(id), []);
      assert PausesGoThrough([Store(id)] + []);
      assert !AnomaliesPaused(Step(s, Store(id)));
    }
  }

  ghost predicate AlwaysPausedAhead(s: State, run: seq<Action>)
    requires Allowed(s, run)
    decreases |run|
  {
    PausedAhead(s) && (run == [] || AlwaysPausedAhead(Step(s, run[0]), run[1..]))
  }

  ghost predicate HarmlessRun(s: State, run: seq<Action>)
    requires Allowed(s, run)
    decreases |run|
  {
    run == [] || (Harmless(s, run[0]) && HarmlessRun(Step(s, run[0]), run[1..]))
  }

  lemma {:induction false} AlwaysPausedExactly(s: State, run: seq<Action>)
    requires Covered(s) && Allowed(s, run)
    ensures AlwaysPausedAhead(s, run) <==> HarmlessRun(s, run)
    decreases |run|
  {
    PausedAheadExactly(s);
    if run != [] {
      PausedAheadExactly(Step(s, run[0]));
      if Harmless(s, run[0]) {
        StepCovered(s, run[0]);
        AlwaysPausedExactly(Step(s, run[0]), run[1..]);
      } else {
        FailedPauseUncovers(s, run[0]);
        NotAlways(Step(s, run[0]), run[1..]);
      }
    }
  }

  lemma {:induction false} FailedPauseUncovers(s: State, a: Action)
    requires Enabled(s, a) && !Harmless(s, a)
    ensures !Covered(Step(s, a))
  {
    assert IsAnomaly(Step(s, a), a.id);
  }

  lemma {:induction false} NotAlways(s: State, run: seq<Action>)
    requires Allowed(s, run) && !PausedAhead(s)
    ensures !AlwaysPausedAhead(s, run)
  {
  }

  /**
    At every point of a run the stored anomalies are paused, and stay so while later pauses go
    through, if and only if no pause failed for a transfer that was neither paused nor recorded.
   */
  lemma {:induction false} AnomaliesPausedExactly(run: seq<Action>)
    requires Allowed(INIT, run)
    ensures AlwaysPausedAhead(INIT, run) <==> HarmlessRun(INIT, run)
  {
    AlwaysPausedExactly(INIT, run);
  }

  // ----- A failed pause is never made up for -----

  /** A task of the transfer is between the alert check and the pause. */
  ghost predicate StillReacting(s: State, h: Bytes) {
    exists id | id in s.tasks :: TransferOf(s, id) == h && (s.tasks[id].phase.Checked? || s.tasks[id].phase.Classified?)
  }

  lemma {:induction false} StepNotMadeUp(s: State, a: Action, h: Bytes)
    requires Enabled(s, a) && h in s.alerts && !StillReacting(s, h) && h !in s.pauses
    ensures h in Step(s, a).alerts && !StillReacting(Step(s, a), h) && h !in Step(s, a).pauses
  {
    var s' := Step(s, a);
    forall id | id in s'.tasks && TransferOf(s', id) == h ensures !s'.tasks[id].phase.Checked?
        && !s'.tasks[id].phase.Classified? {
      if id in s.tasks {
        assert !(s.tasks[id].phase.Checked? || s.tasks[id].phase.Classified?) || TransferOf(s, id) != h;
      }
    }
  }

  /** Once the alert is stored and no task of the transfer is reacting, no future pauses for it: not with any polls. */
  lemma {:induction false} FailedPauseNeverMadeUp(s: State, run: seq<Action>, h: Bytes)
    requires Allowed(s, run) && h in s.alerts && !StillReacting(s, h) && h !in s.pauses
    ensures h !in Run(s, run).pauses
    decreases |run|
  {
    if run != [] {
      StepNotMadeUp(s, run[0], h);
      FailedPauseNeverMadeUp(Step(s, run[0]), run[1..], h);
    }
  }

  lemma {:induction false} FiveSteps(s: State, a: Action, b: Action, c: Action, d: Action, e: Action)
      returns (run: seq<Action>)
    requires Enabled(s, a) && Enabled(Step(s, a), b) && Enabled(Step(Step(s, a), b), c)
    requires Enabled(Step(Step(Step(s, a), b), c), d) && Enabled(Step(Step(Step(Step(s, a), b), c), d), e)
    ensures Allowed(s, run) && Run(s, run) == Step(Step(Step(Step(Step(s, a), b), c), d), e)
  {
    var s1 := Step(s, a);
    var s2 := Step(s1, b);
    var s3 := Step(s2, c);
    var s4 := Step(s3, d);
    RunCons(s4, e, []);
    RunCons(s3, d, [e] + []);
    RunCons(s2, c, [d] + ([e] + []));
    RunCons(s1, b, [c] + ([d] + ([e] + [])));
    RunCons(s, a, [b] + ([c] + ([d] + ([e] + []))));
    run := [a] + ([b] + ([c] + ([d] + ([e] + []))));
  }

  /** Without a pauser's key, say, an unknown release is recorded and the contract is never paused for it. */
  lemma {:induction false} AlertWithoutPause(release: ReleasedEvent) returns (run: seq<Action>)
    ensures Allowed(INIT, run)
    ensures var s, h := Run(INIT, run), release.transferId;
            && h in s.alerts && s.alerts[h] == Alert(SourceNotFound, None)
            && forall later | Allowed(s, later) :: h !in Run(s, later).pauses
  {
    run := FiveSteps(INIT, PollReleased(release), Check(0), Look(0), React(0, None), Store(0));
    var s := Run(INIT, run);
    forall later | Allowed(s, later) ensures release.transferId !in Run(s, later).pauses {
      FailedPauseNeverMadeUp(s, later, release.transferId);
    }
  }

  // ----- When a transfer can pause twice -----

  /** Left alone, the task will ask for a pause, unless an alert for its transfer comes first. */
  predicate MayPause(s: State, id: nat) {
    id in s.tasks
    && match s.tasks[id].phase
       case Started => TransferOf(s, id) !in s.alerts && Classify(s.cache, s.tasks[id].release) != Verified
       case Checked => Classify(s.cache, s.tasks[id].release) != Verified
       case Classified(kind) => kind != Verified
       case Reacted(_) => false
  }

  ghost predicate Safe(s: State) {
    && Distinct(s.pauses)
    && (forall id | MayPause(s, id) :: TransferOf(s, id) !in s.pauses)
    && (forall a, b | MayPause(s, a) && MayPause(s, b) && a != b :: TransferOf(s, a) != TransferOf(s, b))
  }

  ghost predicate PollFree(run: seq<Action>) {
    forall i | 0 <= i < |run| :: !run[i].PollInitiated? && !run[i].PollReleased?
  }

  ghost predicate NeverPausesTwice(s: State) {
    forall run | Allowed(s, run) && PollFree(run) :: Distinct(Run(s, run).pauses)
  }

  lemma {:induction false} TaskStepSafe(s: State, a: Action, id: nat)
    requires Safe(s) && Enabled(s, a) && (a.Check? || a.Look? || a.React? || a.Store?) && id == a.id
    ensures Safe(Step(s, a))
  {
    var s' := Step(s, a);
    forall k | MayPause(s', k) ensures MayPause(s, k) && TransferOf(s', k) == TransferOf(s, k) {
    }
    if a.React? && s.tasks[id].phase.kind != Verified {
      assert MayPause(s, id) && !MayPause(s', id);
      forall k | MayPause(s', k) ensures TransferOf(s', k) !in s'.pauses {
        assert MayPause(s, k) && k != id;
      }
    }
  }

  lemma {:induction false} RunSafe(s: State, run: seq<Action>)
    requires Safe(s) && Allowed(s, run) && PollFree(run)
    ensures Safe(Run(s, run))
    decreases |run|
  {
    if run != [] {
      var a := run[0];
      if !a.Restart? {
        TaskStepSafe(s, a, a.id);
      }
      assert PollFree(run[1..]) by {
        forall i | 0 <= i < |run[1..]| ensures !run[1..][i].PollInitiated? && !run[1..][i].PollReleased? {
          assert run[1..][i] == run[i + 1];
        }
      }
      RunSafe(Step(s, a), run[1..]);
    }
  }

  lemma {:induction false} RunAppend(s: State, run: seq<Action>, more: seq<Action>)
    requires Allowed(s, run) && Allowed(Run(s, run), more)
    ensures Allowed(s, run + more) && Run(s, run + more) == Run(Run(s, run), more)
    decreases |run|
  {
    if run == [] {
      assert run + more == more;
    } else {
      RunAppend(Step(s, run[0]), run[1..], more);
      assert (run + more)[1..] == run[1..] + more && (run + more)[0] == run[0];
    }
  }

  ghost predicate OthersKept(s: State, s': State, id: nat) {
    && id in s.tasks && id in s'.tasks && s'.tasks[id].release == s.tasks[id].release
    && forall k | k in s.tasks && k != id :: k in s'.tasks && s'.tasks[k] == s.tasks[k]
  }

  predicate Due(s: State, id: nat) {
    id in s.tasks && s.tasks[id].phase.Classified? && s.tasks[id].phase.kind != Verified
  }

  lemma {:induction false} BecomeDue(s: State, id: nat) returns (run: seq<Action>)
    requires MayPause(s, id)
    ensures Allowed(s, run) && PollFree(run) && Due(Run(s, run), id) && OthersKept(s, Run(s, run), id)
    ensures Run(s, run).alerts == s.alerts && Run(s, run).cache == s.cache && Run(s, run).pauses == s.pauses
  {
    if s.tasks[id].phase.Started? {
      RunCons(Step(s, Check(id)), Look(id), []);
      RunCons(s, Check(id), [Look(id)] + []);
      run := [Check(id)] + ([Look(id)] + []);
    } else if s.tasks[id].phase.Checked? {
      RunCons(s, Look(id), []);
      run := [Look(id)] + [];
    } else {
      run := [];
    }
  }

  lemma {:induction false} PauseDue(s: State, id: nat) returns (run: seq<Action>)
    requires Due(s, id)
    ensures Allowed(s, run) && PollFree(run) && OthersKept(s, Run(s, run), id)
    ensures Run(s, run).pauses == s.pauses + [TransferOf(s, id)]
  {
    RunCons(s, React(id, Some("")), []);
    run := [React(id, Some(""))] + [];
  }

  lemma {:induction false} PauseBoth(s: State, a: nat, b: nat) returns (run: seq<Action>)
    requires MayPause(s, a) && MayPause(s, b) && a != b
    ensures Allowed(s, run) && PollFree(run) && Run(s, run).pauses == s.pauses + [TransferOf(s, a)] + [TransferOf(s, b)]
  {
    var r1 := BecomeDue(s, a);
    var s1 := Run(s, r1);
    var r2 := BecomeDue(s1, b);
    var s2 := Run(s1, r2);
    RunAppend(s, r1, r2);
    var r3 := PauseDue(s2, a);
    var s3 := Run(s2, r3);
    RunAppend(s, r1 + r2, r3);
    var r4 := PauseDue(s3, b);
    RunAppend(s, r1 + r2 + r3, r4);
    run := r1 + r2 + r3 + r4;
  }

  lemma {:induction false} UnsafeHasBadFuture(s: State)
    requires !Safe(s)
    ensures !NeverPausesTwice(s)
  {
    if !Distinct(s.pauses) {
      assert Allowed(s, []) && PollFree([]) && Run(s, []) == s;
    } else if id :| MayPause(s, id) && TransferOf(s, id) in s.pauses {
      var first := BecomeDue(s, id);
      var more := PauseDue(Run(s, first), id);
      RunAppend(s, first, more);
      Repeats(s.pauses, TransferOf(s, id));
      assert PollFree(first + more);
    } else {
      var a, b :| MayPause(s, a) && MayPause(s, b) && a != b && TransferOf(s, a) == TransferOf(s, b);
      var run := PauseBoth(s, a, b);
      Repeats(s.pauses + [TransferOf(s, a)], TransferOf(s, b));
    }
  }

  /**
    Without further polls no transfer will have paused the contract twice, if and only if none
    has, no task that is going to pause is for a paused transfer, and no two such tasks share one.
   */
  lemma {:induction false} NeverPausesTwiceExactly(s: State)
    ensures NeverPausesTwice(s) <==> Safe(s)
  {
    if Safe(s) {
      forall run | Allowed(s, run) && PollFree(run) ensures Distinct(Run(s, run).pauses) {
        RunSafe(s, run);
      }
    } else {
      UnsafeHasBadFuture(s);
    }
  }

  /** Two releases of one unknown transfer in one poll are enough to pause twice. */
  lemma {:induction false} TwoReleasesPauseTwice(release: ReleasedEvent)
    ensures var run := [PollReleased(release)] + ([PollReleased(release)] + []);
            Allowed(INIT, run) && !NeverPausesTwice(Run(INIT, run))
  {
    var s1 := Step(INIT, PollReleased(release));
    var s2 := Step(s1, PollReleased(release));
    RunCons(s1, PollReleased(release), []);
    RunCons(INIT, PollReleased(release), [PollReleased(release)] + []);
    assert MayPause(s2, 0) && MayPause(s2, 1) && TransferOf(s2, 0) == TransferOf(s2, 1);
    NeverPausesTwiceExactly(s2);
  }

  // ----- Honest releases over runs -----

  /** What the caching loop polled since the last restart. */
  function PolledSince(run: seq<Action>): seq<LogPoll> {
    if run == [] then []
    else
      var before, last := PolledSince(run[..|run| - 1]), run[|run| - 1];
      if last.Restart? then [] else if last.PollInitiated? then before + [last.poll] else before
  }

  lemma {:induction false} RunSnoc(s: State, run: seq<Action>)
    requires Allowed(s, run) && run != []
    ensures Allowed(s, run[..|run| - 1])
    ensures Enabled(Run(s, run[..|run| - 1]), run[|run| - 1])
    ensures Run(s, run) == Step(Run(s, run[..|run| - 1]), run[|run| - 1])
    decreases |run|
  {
    if |run| > 1 {
      var s', rest := Step(s, run[0]), run[1..];
      RunSnoc(s', rest);
      assert run[..|run| - 1][1..] == rest[..|rest| - 1] && run[..|run| - 1][0] == run[0];
      assert rest[|rest| - 1] == run[|run| - 1];
    } else {
      assert run[1..] == [] && run[..0] == [];
    }
  }

  lemma {:induction false} CacheIsPolls(run: seq<Action>)
    requires Allowed(INIT, run)
    ensures Run(INIT, run).cache == CachedAll(map[], PolledSince(run))
  {
    if run != [] {
      var n := |run| - 1;
      RunSnoc(INIT, run);
      CacheIsPolls(run[..n]);
      if run[n].PollInitiated? {
        var before := PolledSince(run[..n]);
        assert (before + [run[n].poll])[..|before|] == before;
      }
    }
  }

  /** What a task makes of a release is decided by the latest poll since the last restart that named its id. */
  lemma {:induction false} ClassifiedByLatestPoll(run: seq<Action>, release: ReleasedEvent)
    requires Allowed(INIT, run)
    ensures var latest := Latest(PolledSince(run), release.transferId);
            && (Classify(Run(INIT, run).cache, release) == Verified
                <==>
                     latest.Some? && latest.value.recipient == release.recipient
                     && latest.value.amount == release.amount)
            && (Classify(Run(INIT, run).cache, release) == SourceNotFound <==> latest.None?)
  {
    CacheIsPolls(run);
    CacheHoldsLatest(PolledSince(run), release.transferId);
  }

  /**
    The task of an honest release is classified as verified if and only if, since the last
    restart, the latest poll that named its event id carried its recipient and amount.
   */
  lemma {:induction false} HonestTaskVerifiedExactly(run: seq<Action>, id: nat, log: RpcLog, chain: ChainId,
                                                     topic0: string, tx: string, destChain: ChainId)
    requires Allowed(INIT, run) && Enabled(Run(INIT, run), Look(id)) && ParseHotPathEvent(log, chain).Some?
    requires var event := ParseHotPathEvent(log, chain).value;
             Some(Run(INIT, run).tasks[id].release)
             == ParseReleased(EchoLog(topic0, tx, event.recipient, event.amount, event.eventId), destChain)
    ensures var event := ParseHotPathEvent(log, chain).value;
            var latest := Latest(PolledSince(run), event.eventId);
            Step(Run(INIT, run), Look(id)).tasks[id].phase == Classified(Verified)
            <==> latest.Some? && latest.value.recipient == event.recipient && latest.value.amount == event.amount
  {
    var event := ParseHotPathEvent(log, chain).value;
    WatcherReadsWhatRelayerReads(log, chain);
    EchoIsParsed(topic0, tx, event.recipient, event.amount, event.eventId, destChain);
    ClassifiedByLatestPoll(run, Run(INIT, run).tasks[id].release);
  }

  /** A watcher that restarts between an initiated event and its honest release pauses the contract. */
  lemma {:induction false} RestartPausesHonestRelease(log: RpcLog, chain: ChainId, release: ReleasedEvent)
    returns (run: seq<Action>)
    requires ParseInitiated(log, chain).Some? && ParseInitiated(log, chain).value.0 == release.transferId
    requires VerifyAgainst(release, ParseInitiated(log, chain).value.1) == Verified
    ensures Allowed(INIT, run) && run != [] && run[0] == PollInitiated(LogPoll(chain, [log]))
    ensures release.transferId in Run(INIT, run).pauses
  {
    var poll := PollInitiated(LogPoll(chain, [log]));
    var s := Step(Step(INIT, poll), Restart);
    var rest := FiveSteps(s, PollReleased(release), Check(0), Look(0), React(0, Some("tx")), Store(0));
    RunCons(Step(INIT, poll), Restart, rest);
    RunCons(INIT, poll, [Restart] + rest);
    run := [poll] + ([Restart] + rest);
  }
}
