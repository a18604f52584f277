/** The `treasury.relay_logs` table (services/treasury/src/db/relay_repo.rs). */
module RelayRepo {
  import opened Wrappers

  type EventHash = string

  datatype RelayStatus = Pending | Completed | Failed | RejectedInactiveChain | RejectedInsufficientDepth

  datatype RelayEvent = RelayEvent(hash: EventHash, destChain: nat, amount: nat)

  datatype RelayRow = RelayRow(event: RelayEvent, destTx: Option<string>, status: RelayStatus)

  type RelayRows = map<EventHash, RelayRow>

  /** `INSERT … ON CONFLICT (source_event_hash) DO NOTHING`. */
  function Logged(rows: RelayRows, event: RelayEvent, status: RelayStatus): RelayRows {
    if event.hash in rows then rows else rows[event.hash := RelayRow(event, None, status)]
  }

  function Updated(rows: RelayRows, hash: EventHash, tx: string, status: RelayStatus): RelayRows {
    if hash !in rows then rows else rows[hash := rows[hash].(destTx := Some(tx), status := status)]
  }

  function UpdatedFailed(rows: RelayRows, hash: EventHash): RelayRows {
    if hash !in rows then rows else rows[hash := rows[hash].(status := Failed)]
  }

  class Repository {
    var rows: RelayRows

    constructor ()
      ensures rows == map[]
    {
      rows := map[];
    }

    method RelayAlreadyRecorded(hash: EventHash) returns (recorded: bool)
      ensures recorded <==> hash in rows
    {
      recorded := hash in rows;
    }

    method InsertRelayLog(event: RelayEvent, status: RelayStatus)
      modifies this
      ensures rows == Logged(old(rows), event, status)
    {
      if event.hash !in rows {
        rows := rows[event.hash := RelayRow(event, None, status)];
      }
    }

    method UpdateRelayLog(hash: EventHash, tx: string, status: RelayStatus)
      modifies this
      ensures rows == Updated(old(rows), hash, tx, status)
    {
      if hash in rows {
        rows := rows[hash := rows[hash].(destTx := Some(tx), status := status)];
      }
    }

    method UpdateRelayLogFailed(hash: EventHash)
      modifies this
      ensures rows == UpdatedFailed(old(rows), hash)
    {
      if hash in rows {
        rows := rows[hash := rows[hash].(status := Failed)];
      }
    }
  }
}
