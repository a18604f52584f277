/**
  `relay_event` as it runs from start to end (services/treasury/src/hot_path.rs), and the
  steps of the concurrent model that it amounts to when nothing comes between them.
 */
module HotPathTask {
  import opened Wrappers
  import opened RelayRepo
  import opened HotPath

  /** What the task learns from outside: the active set, its settings, the pool and the submission. */
  datatype Outside = Outside(chainActive: bool, configured: bool, poolDepth: Option<nat>, releaseTx: Option<string>)

  /** The depth handed to the eligibility check; it is not fetched for an inactive chain. */
  function DepthSeen(outside: Outside): Option<nat> {
    if outside.chainActive then outside.poolDepth else Some(0)
  }

  method RelayEventTask(repo: Repository, event: RelayEvent, outside: Outside) returns (submitted: bool)
    modifies repo
    ensures submitted <==> Releases(old(repo.rows), event, outside)
    ensures repo.rows == TaskRows(old(repo.rows), event, outside)
    ensures forall h | h in old(repo.rows) :: h in repo.rows && repo.rows[h] == old(repo.rows)[h]
  {
    submitted := false;
    var recorded := repo.RelayAlreadyRecorded(event.hash);
    if recorded || !outside.configured {
      return;
    }
    var depth := DepthSeen(outside);
    if depth.None? {
      return;
    }
    var decision := EvaluateRelayEligibility(outside.chainActive, depth.value, event.amount);
    repo.InsertRelayLog(event, StatusOf(decision));
    if !decision.Approved? {
      return;
    }
    submitted := true;
    if outside.releaseTx.Some? {
      repo.UpdateRelayLog(event.hash, outside.releaseTx.value, Completed);
    } else {
      repo.UpdateRelayLogFailed(event.hash);
    }
  }

  /** The steps of one undisturbed task. */
  function TaskSteps(id: nat, known: bool, event: RelayEvent, outside: Outside): seq<Action> {
    if known then [Guard(id)] + []
    else if !outside.configured || DepthSeen(outside).None? then [Guard(id)] + ([Abort(id)] + [])
    else
      var depth := DepthSeen(outside).value;
      if EvaluateRelayEligibility(outside.chainActive, depth, event.amount).Approved?
      then [Guard(id)] + ([Decide(id, outside.chainActive, depth)] + ([SubmitRelease(id)] + ([Finish(id,
          outside.releaseTx)] + [])))
      else [Guard(id)] + ([Decide(id, outside.chainActive, depth)] + [])
  }

  /** The table after one undisturbed task. */
  function TaskRows(rows: RelayRows, event: RelayEvent, outside: Outside): RelayRows {
    if event.hash in rows || !outside.configured || (outside.chainActive && outside.poolDepth.None?) then rows
    else if !outside.chainActive then rows[event.hash := RelayRow(event, None, RejectedInactiveChain)]
    else if outside.poolDepth.value < event.amount then rows[event.hash := RelayRow(event, None,
        RejectedInsufficientDepth)]
    else rows[event.hash := RelayRow(event, outside.releaseTx, if outside.releaseTx.Some? then Completed else Failed)]
  }

  predicate Releases(rows: RelayRows, event: RelayEvent, outside: Outside) {
    event.hash !in rows && outside.configured && outside.chainActive
    && outside.poolDepth.Some? && event.amount <= outside.poolDepth.value
  }

  /** Those steps are enabled one after the other, end the task, and do to the table what the task does. */
  lemma {:induction false} UndisturbedTask(s: State, id: nat, outside: Outside)
    requires InPhase(s, id, Started)
    ensures var event := s.tasks[id].event;
            var run := TaskSteps(id, event.hash in s.rows, event, outside);
            && Allowed(s, run)
            && Run(s, run).rows == TaskRows(s.rows, event, outside)
            && Run(s, run).submits == s.submits + (if Releases(s.rows, event, outside) then [event.hash] else [])
            && Run(s, run).tasks == s.tasks - {id}
  {
    var event := s.tasks[id].event;
    var s1 := Step(s, Guard(id));
    if event.hash in s.rows {
      RunCons(s, Guard(id), []);
    } else if !outside.configured || DepthSeen(outside).None? {
      RunCons(s1, Abort(id), []);
      RunCons(s, Guard(id), [Abort(id)] + []);
    } else {
      DecidedTask(s1, id, outside, DepthSeen(outside).value);
      var depth := DepthSeen(outside).value;
      if Releases(s.rows, event, outside) {
        RunCons(s, Guard(id), [Decide(id, outside.chainActive, depth)] + ([SubmitRelease(id)] + ([Finish(id,
            outside.releaseTx)] + [])));
      } else {
        RunCons(s, Guard(id), [Decide(id, outside.chainActive, depth)] + []);
      }
    }
  }

  lemma {:induction false} DecidedTask(s: State, id: nat, outside: Outside, depth: nat)
    requires InPhase(s, id, Passed) && s.tasks[id].event.hash !in s.rows && outside.configured
            && DepthSeen(outside) == Some(depth)
    ensures var event := s.tasks[id].event;
            var run := if Releases(s.rows, event, outside)
                       then [Decide(id, outside.chainActive, depth)] + ([SubmitRelease(id)] + ([Finish(id,
                           outside.releaseTx)] + []))
                       else [Decide(id, outside.chainActive, depth)] + [];
            && Allowed(s, run)
            && Run(s, run).rows == TaskRows(s.rows, event, outside)
            && Run(s, run).submits == s.submits + (if Releases(s.rows, event, outside) then [event.hash] else [])
            && Run(s, run).tasks == s.tasks - {id}
  {
    var decide := Decide(id, outside.chainActive, depth);
    var s1 := Step(s, decide);
    if Releases(s.rows, s.tasks[id].event, outside) {
      var s2 := Step(s1, SubmitRelease(id));
      RunCons(s2, Finish(id, outside.releaseTx), []);
      RunCons(s1, SubmitRelease(id), [Finish(id, outside.releaseTx)] + []);
      RunCons(s, decide, [SubmitRelease(id)] + ([Finish(id, outside.releaseTx)] + []));
    } else {
      RunCons(s, decide, []);
    }
  }
}
