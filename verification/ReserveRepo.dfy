/** The `treasury.reserve_ops` table (services/treasury/src/db/reserve_repo.rs). */
module ReserveRepo {
  import opened Wrappers

  type ChainId = nat
  type OpId = string

  datatype ReserveStatus = Pending | Submitted | Relayed | Completed | Failed

  datatype ReserveRow = ReserveRow(
    source: ChainId, dest: ChainId, amount: nat, status: ReserveStatus,
    messageId: Option<string>, sourceTx: Option<string>,
    messageBytes: Option<string>, attestation: Option<string>, destTx: Option<string>)

  type ReserveRows = map<OpId, ReserveRow>

  // ----- Statements. No UPDATE looks at the status. -----

  /** `INSERT … ON CONFLICT (op_id) DO NOTHING`. */
  function Inserted(rows: ReserveRows, id: OpId, source: ChainId, dest: ChainId, amount: nat): ReserveRows {
    if id in rows then rows
    else rows[id := ReserveRow(source, dest, amount, Pending, None, None, None, None, None)]
  }

  function MarkedSubmitted(rows: ReserveRows, id: OpId, tx: string, messageId: Option<string>): ReserveRows {
    if id !in rows then rows
    else rows[id := rows[id].(status := Submitted, sourceTx := Some(tx), messageId := messageId)]
  }

  function Attested(rows: ReserveRows, id: OpId, message: string, attestation: string): ReserveRows {
    if id !in rows then rows
    else rows[id := rows[id].(messageBytes := Some(message), attestation := Some(attestation))]
  }

  function MarkedRelayed(rows: ReserveRows, id: OpId, tx: string): ReserveRows {
    if id !in rows then rows else rows[id := rows[id].(status := Relayed, destTx := Some(tx))]
  }

  function MarkedCompleted(rows: ReserveRows, id: OpId): ReserveRows {
    if id !in rows then rows else rows[id := rows[id].(status := Completed)]
  }

  function MarkedFailed(rows: ReserveRows, id: OpId): ReserveRows {
    if id !in rows then rows else rows[id := rows[id].(status := Failed)]
  }

  // ----- Queries -----

  /** The rows `list_awaiting_attestation` selects from. */
  predicate AwaitsAttestation(row: ReserveRow) {
    row.status == Submitted && row.messageId.Some? && row.attestation.None?
  }

  /** The rows `list_stuck` selects from; their age is left to the caller. */
  predicate Unfinished(row: ReserveRow) {
    row.status in {Pending, Submitted, Relayed}
  }

  predicate Matches(row: ReserveRow, dest: ChainId, messageId: string) {
    row.dest == dest && row.messageId == Some(messageId)
  }

  class Repository {
    var rows: ReserveRows

    constructor ()
      ensures rows == map[]
    {
      rows := map[];
    }

    method InsertReserveOp(id: OpId, source: ChainId, dest: ChainId, amount: nat)
      modifies this
      ensures rows == Inserted(old(rows), id, source, dest, amount)
    {
      if id !in rows {
        rows := rows[id := ReserveRow(source, dest, amount, Pending, None, None, None, None, None)];
      }
    }

    method UpdateSubmitted(id: OpId, tx: string, messageId: Option<string>)
      modifies this
      ensures rows == MarkedSubmitted(old(rows), id, tx, messageId)
    {
      if id in rows {
        rows := rows[id := rows[id].(status := Submitted, sourceTx := Some(tx), messageId := messageId)];
      }
    }

    method UpdateAttestation(id: OpId, message: string, attestation: string)
      modifies this
      ensures rows == Attested(old(rows), id, message, attestation)
    {
      if id in rows {
        rows := rows[id := rows[id].(messageBytes := Some(message), attestation := Some(attestation))];
      }
    }

    method UpdateRelayed(id: OpId, tx: string)
      modifies this
      ensures rows == MarkedRelayed(old(rows), id, tx)
    {
      if id in rows {
        rows := rows[id := rows[id].(status := Relayed, destTx := Some(tx))];
      }
    }

    method UpdateCompleted(id: OpId)
      modifies this
      ensures rows == MarkedCompleted(old(rows), id)
    {
      if id in rows {
        rows := rows[id := rows[id].(status := Completed)];
      }
    }

    method UpdateFailed(id: OpId)
      modifies this
      ensures rows == MarkedFailed(old(rows), id)
    {
      if id in rows {
        rows := rows[id := rows[id].(status := Failed)];
      }
    }

    method FindByDestAndMessageId(dest: ChainId, messageId: string) returns (found: Option<OpId>)
      ensures found.Some? ==> found.value in rows && Matches(rows[found.value], dest, messageId)
      ensures found.None? ==> forall id | id in rows :: !Matches(rows[id], dest, messageId)
    {
      if exists id | id in rows :: Matches(rows[id], dest, messageId) {
        var id :| id in rows && Matches(rows[id], dest, messageId);
        return Some(id);
      }
      return None;
    }
  }
}
