/**
  A reserve transfer from its plan to its completion, over the three loops of
  services/treasury/src/reserve_path.rs, and the transfer that never gets there.
 */
module ReserveTransfer {
  import opened Wrappers
  import opened ReserveRepo
  import opened ReservePath

  /** No loop is in the middle of anything. */
  predicate Quiet(s: State) {
    s.planner.PlannerIdle? && s.queue == [] && s.relayer.Ready? && s.watcher.WatcherIdle? && s.stuck == []
  }

  /** Planner, relayer and watcher take a new op through all five statuses; its row tells the whole story. */
  lemma {:induction false} TransferCompletes(s: State, id: OpId, source: ChainId, dest: ChainId, amount: nat,
                                             tx: string, messageId: string, message: string, attestation: string,
                                             destTx: string) returns (run: seq<Action>)
    requires Quiet(s) && id !in s.rows && "0x" <= attestation
    ensures Allowed(s, run) && Quiet(Run(s, run))
    ensures Run(s, run).rows
         == s.rows[id := ReserveRow(source, dest, amount, Completed, Some(messageId), Some(tx), Some(message),
                                    Some(attestation), Some(destTx))]
    ensures Run(s, run).bridgeIns == s.bridgeIns + [id]
  {
    var bridged := BridgedRow(s, id, source, dest, amount, tx, messageId);
    var s1 := Run(s, bridged);
    var relayed := RelayedRow(s1, id, message, attestation, destTx);
    var s2 := Run(s1, relayed);
    var completed := CompletedRow(s2, id);
    RunAppend(s1, relayed, completed);
    RunAppend(s, bridged, relayed + completed);
    run := bridged + (relayed + completed);
  }

  lemma {:induction false} BridgedRow(s: State, id: OpId, source: ChainId, dest: ChainId, amount: nat, tx: string,
                                      messageId: string) returns (run: seq<Action>)
    requires Quiet(s) && id !in s.rows
    ensures Allowed(s, run) && Quiet(Run(s, run)) && Run(s, run).bridgeIns == s.bridgeIns
    ensures Run(s, run).rows
         == s.rows[id := ReserveRow(source, dest, amount, Submitted, Some(messageId), Some(tx), None, None, None)]
  {
    var plan, bridge := PlanOp(id, source, dest, amount), BridgeReserveOk(tx, Some(messageId));
    RunCons(Step(s, plan), bridge, []);
    RunCons(s, plan, [bridge] + []);
    run := [plan] + ([bridge] + []);
  }

  lemma {:induction false} RelayedRow(s: State, id: OpId, message: string, attestation: string, destTx: string)
    returns (run: seq<Action>)
    requires Quiet(s) && id in s.rows && "0x" <= attestation
    requires s.rows[id].status == Submitted && s.rows[id].messageId.Some? && s.rows[id].sourceTx.Some?
    requires s.rows[id].attestation.None?
    ensures Allowed(s, run) && Quiet(Run(s, run)) && Run(s, run).bridgeIns == s.bridgeIns + [id]
    ensures Run(s, run).rows
         == s.rows[id := s.rows[id].(status := Relayed, messageBytes := Some(message),
                                     attestation := Some(attestation), destTx := Some(destTx))]
  {
    var list, attest := ListAwaiting([id]), Attest(message, attestation);
    var s1 := Step(s, list);
    var s2 := Step(s1, attest);
    var s3 := Step(s2, SubmitBridgeIn);
    RunCons(s3, BridgeInOk(destTx), []);
    RunCons(s2, SubmitBridgeIn, [BridgeInOk(destTx)] + []);
    RunCons(s1, attest, [SubmitBridgeIn] + ([BridgeInOk(destTx)] + []));
    RunCons(s, list, [attest] + ([SubmitBridgeIn] + ([BridgeInOk(destTx)] + [])));
    run := [list] + ([attest] + ([SubmitBridgeIn] + ([BridgeInOk(destTx)] + [])));
  }

  lemma {:induction false} CompletedRow(s: State, id: OpId) returns (run: seq<Action>)
    requires Quiet(s) && id in s.rows && s.rows[id].status != Completed && s.rows[id].messageId.Some?
    ensures Allowed(s, run) && Quiet(Run(s, run)) && Run(s, run).bridgeIns == s.bridgeIns
    ensures Run(s, run).rows == s.rows[id := s.rows[id].(status := Completed)]
  {
    var observe := Observe(s.rows[id].dest, s.rows[id].messageId.value, Some(id));
    RunCons(Step(s, observe), MarkCompleted, []);
    RunCons(s, observe, [MarkCompleted] + []);
    run := [observe] + ([MarkCompleted] + []);
  }

  // ----- Stuck -----

  /** Exactly a pending, submitted or relayed op can be listed as stuck, and is then marked failed. */
  lemma {:induction false} StuckIsFailedExactly(s: State, id: OpId)
    requires Quiet(s) && id in s.rows
    ensures Enabled(s, ListStuck([id])) <==> s.rows[id].status != Completed && s.rows[id].status != Failed
    ensures s.rows[id].status in {Pending, Submitted, Relayed} ==>
              var run := [ListStuck([id])] + ([FailStuck] + []);
              && Allowed(s, run) && Quiet(Run(s, run))
              && Run(s, run).rows == s.rows[id := s.rows[id].(status := Failed)]
  {
    var list := ListStuck([id]);
    assert [id][0] == id;
    if Enabled(s, list) {
      RunCons(Step(s, list), FailStuck, []);
      RunCons(s, list, [FailStuck] + []);
    }
  }

  // ----- Without a message id -----

  /** Bridged without a message id, and in no loop's hands but perhaps the stuck list's. */
  ghost predicate Stranded(s: State, id: OpId) {
    && id in s.rows && s.rows[id].messageId.None? && s.rows[id].status in {Submitted, Failed}
    && !Relaying(s, id) && s.planner != Bridging(id) && s.watcher != Found(id)
  }

  lemma {:induction false} StepKeepsStranded(s: State, a: Action, id: OpId)
    requires Enabled(s, a) && (a.PlanOp? ==> a.id !in s.rows) && Stranded(s, id)
    ensures Stranded(Step(s, a), id) && Step(s, a).rows[id].(status := Submitted) == s.rows[id].(status := Submitted)
  {
    var s' := Step(s, a);
    if Relaying(s', id) {
      RelayingBefore(s, a, id);
    }
  }

  /**
    A transfer whose bridging transaction gave no message id is never attested, relayed or
    completed: all that can happen to its row is to be marked failed.
   */
  lemma {:induction false} StrandedForGood(s: State, run: seq<Action>, id: OpId)
    requires Allowed(s, run) && FreshRun(s, run) && Stranded(s, id)
    ensures Stranded(Run(s, run), id)
    ensures Run(s, run).rows[id].(status := Submitted) == s.rows[id].(status := Submitted)
    decreases |run|
  {
    if run != [] {
      StepKeepsStranded(s, run[0], id);
      StrandedForGood(Step(s, run[0]), run[1..], id);
    }
  }
}
