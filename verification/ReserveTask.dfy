/**
  `relay_one` as it runs from start to end (services/treasury/src/reserve_path.rs), and the
  steps of the concurrent model that it amounts to when nothing comes between them.
 */
module ReserveTask {
  import opened Wrappers
  import opened ReserveRepo
  import opened ReservePath
  import opened Hex

  /** What the relayer learns from outside: its settings, Circle's answer, and the submission. */
  datatype Outside = Outside(
    sourceDomain: bool, answer: Option<CircleMessage>, destConfigured: bool, bridgeInTx: Option<string>)

  /** The first message of Circle's answer. */
  datatype CircleMessage = CircleMessage(message: string, attestation: string)

  /** `fetch_circle_attestation`: a pending attestation is no hex text yet. */
  predicate IsAttested(answer: Option<CircleMessage>) {
    answer.Some? && "0x" <= answer.value.attestation
  }

  predicate Attests(listed: Listed, outside: Outside) {
    listed.row.sourceTx.Some? && outside.sourceDomain && IsAttested(outside.answer)
  }

  predicate ValidHex(answer: CircleMessage) {
    DecodeHex(answer.message).Some? && DecodeHex(answer.attestation).Some?
  }

  predicate Dispatches(listed: Listed, outside: Outside) {
    Attests(listed, outside) && outside.destConfigured && ValidHex(outside.answer.value)
  }

  /** The table after one listed row. */
  function RowsAfter(rows: ReserveRows, listed: Listed, outside: Outside): ReserveRows {
    if !Attests(listed, outside) then rows
    else
      var attested := Attested(rows, listed.id, outside.answer.value.message, outside.answer.value.attestation);
      if !outside.destConfigured then attested
      else if ValidHex(outside.answer.value) && outside.bridgeInTx.Some?
          then MarkedRelayed(attested, listed.id, outside.bridgeInTx.value)
      else MarkedFailed(attested, listed.id)
  }

  method RelayOne(repo: Repository, listed: Listed, outside: Outside) returns (dispatched: bool)
    modifies repo
    ensures dispatched <==> Dispatches(listed, outside)
    ensures dispatched <==>
              && listed.row.sourceTx.Some? && outside.sourceDomain && outside.destConfigured
              && outside.answer.Some? && "0x" <= outside.answer.value.attestation
              && DecodeHex(outside.answer.value.message).Some? && DecodeHex(outside.answer.value.attestation).Some?
    ensures repo.rows == RowsAfter(old(repo.rows), listed, outside)
    ensures forall k | k in repo.rows && k != listed.id :: k in old(repo.rows) && repo.rows[k] == old(repo.rows)[k]
    ensures listed.row.sourceTx.None? || !outside.sourceDomain || !IsAttested(outside.answer) ==>
              repo.rows == old(repo.rows)
    ensures listed.id !in old(repo.rows) ==> repo.rows == old(repo.rows)
    ensures Attests(listed, outside) && listed.id in old(repo.rows) ==>
              var before, after := old(repo.rows)[listed.id], repo.rows[listed.id];
              && after.messageBytes == Some(outside.answer.value.message)
              && after.attestation == Some(outside.answer.value.attestation)
              && after.status == (if !outside.destConfigured then before.status
                                  else if dispatched && outside.bridgeInTx.Some? then Relayed else Failed)
              && after.destTx == (if dispatched && outside.bridgeInTx.Some? then outside.bridgeInTx else before.destTx)
              && (after.source, after.dest, after.amount, after.messageId, after.sourceTx)
                 == (before.source, before.dest, before.amount, before.messageId, before.sourceTx)
  {
    dispatched := false;
    if listed.row.sourceTx.None? || !outside.sourceDomain || !IsAttested(outside.answer) {
      return;
    }
    repo.UpdateAttestation(listed.id, outside.answer.value.message, outside.answer.value.attestation);
    if !outside.destConfigured {
      return;
    }
    if !ValidHex(outside.answer.value) {
      repo.UpdateFailed(listed.id);
      return;
    }
    dispatched := true;
    if outside.bridgeInTx.Some? {
      repo.UpdateRelayed(listed.id, outside.bridgeInTx.value);
    } else {
      repo.UpdateFailed(listed.id);
    }
  }

  /** How an attested row ends. */
  function Ending(configured: bool, valid: bool, tx: Option<string>): seq<Action> {
    if !configured then [StopAfterAttest] + []
    else if !valid then [BadHex] + []
    else [SubmitBridgeIn] + ((if tx.Some? then [BridgeInOk(tx.value)] else [BridgeInFailed]) + [])
  }

  function RowSteps(listed: Listed, outside: Outside): seq<Action> {
    if Attests(listed, outside) then
      [Attest(outside.answer.value.message, outside.answer.value.attestation)]
      + Ending(outside.destConfigured, ValidHex(outside.answer.value), outside.bridgeInTx)
    else [SkipRow] + []
  }

  lemma {:induction false} EndingRuns(s: State, configured: bool, valid: bool, tx: Option<string>)
    requires s.relayer.HasAttestation?
    ensures var run := Ending(configured, valid, tx);
            && Allowed(s, run) && Run(s, run).relayer.Ready? && Run(s, run).queue == s.queue
            && Run(s, run).rows == (if !configured then s.rows
                                    else if valid && tx.Some? then MarkedRelayed(s.rows, s.relayer.id, tx.value)
                                    else MarkedFailed(s.rows, s.relayer.id))
            && Run(s, run).bridgeIns == s.bridgeIns + (if configured && valid then [s.relayer.id] else [])
  {
    if !configured {
      RunCons(s, StopAfterAttest, []);
    } else if !valid {
      RunCons(s, BadHex, []);
    } else {
      var last := if tx.Some? then BridgeInOk(tx.value) else BridgeInFailed;
      RunCons(Step(s, SubmitBridgeIn), last, []);
      RunCons(s, SubmitBridgeIn, [last] + []);
    }
  }

  /** Those steps are enabled one after the other, finish the row, and do to the table what `relay_one` does. */
  lemma {:induction false} UndisturbedRow(s: State, outside: Outside)
    requires s.relayer.Ready? && s.queue != []
    ensures var listed := s.queue[0];
            var run := RowSteps(listed, outside);
            && Allowed(s, run)
            && Run(s, run).rows == RowsAfter(s.rows, listed, outside)
            && Run(s, run).bridgeIns == s.bridgeIns + (if Dispatches(listed, outside) then [listed.id] else [])
            && Run(s, run).relayer.Ready? && Run(s, run).queue == s.queue[1..]
  {
    if Attests(s.queue[0], outside) {
      var attest := Attest(outside.answer.value.message, outside.answer.value.attestation);
      var valid := ValidHex(outside.answer.value);
      EndingRuns(Step(s, attest), outside.destConfigured, valid, outside.bridgeInTx);
      RunCons(s, attest, Ending(outside.destConfigured, valid, outside.bridgeInTx));
    } else {
      RunCons(s, SkipRow, []);
    }
  }
}
