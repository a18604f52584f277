/**
  The `treasury.rebalance_ops` table: each SQL statement as a function on its rows, and
  the repository that holds them (services/treasury/src/db/rebalance_repo.rs).
 */
module RebalanceRepo {
  import opened Wrappers
  import opened Rebalance

  const DAY_MS: nat := 86_400_000

  /** "{source}-{dest}-{milliseconds}". */
  datatype OpId = OpId(source: ChainId, dest: ChainId, ms: nat)

  datatype OpStatus = Pending | Submitted | Failed

  datatype OpRow = OpRow(
    source: ChainId, dest: ChainId, amount: nat, status: OpStatus, createdAt: nat,
    sourceTx: Option<string>, ccipMessageId: Option<string>)

  type Rows = map<OpId, OpRow>

  predicate Active(row: OpRow, now: nat) {
    row.status != Failed && row.createdAt + DAY_MS > now
  }

  /** `op_in_flight`: a pending or submitted op of this pair inside the 24 hour window. */
  predicate InFlight(rows: Rows, source: ChainId, dest: ChainId, now: nat) {
    exists id | id in rows :: rows[id].source == source && rows[id].dest == dest && Active(rows[id], now)
  }

  /** An op that did not fail keeps its pair occupied for 24 hours to the millisecond; a failed one never does. */
  lemma {:induction false} InFlightForADay(id: OpId, row: OpRow, now: nat)
    requires row.createdAt <= now
    ensures InFlight(map[id := row], row.source, row.dest, row.createdAt + 86_399_999) <==> row.status != Failed
    ensures !InFlight(map[id := row], row.source, row.dest, row.createdAt + 86_400_000)
    ensures InFlight(map[id := row], row.source, row.dest, now)
            <==> (row.status == Pending || row.status == Submitted) && now - row.createdAt < 24 * 60 * 60 * 1000
  {
    var rows := map[id := row];
    assert id in rows;
  }

  /** Only the pair itself is occupied, whatever else is stored. */
  lemma {:induction false} InFlightNamesPair(rows: Rows, source: ChainId, dest: ChainId, now: nat)
    ensures InFlight(rows, source, dest, now)
            <==> exists id | id in rows :: InFlight(map[id := rows[id]], source, dest, now)
  {
    forall id | id in rows
      ensures InFlight(map[id := rows[id]], source, dest, now)
              <==> rows[id].source == source && rows[id].dest == dest && Active(rows[id], now)
    {
      assert id in map[id := rows[id]];
    }
  }

  /** `INSERT … ON CONFLICT (op_id) DO NOTHING`. */
  function Inserted(rows: Rows, id: OpId, amount: nat, now: nat): Rows {
    if id in rows then rows
    else rows[id := OpRow(id.source, id.dest, amount, Pending, now, None, None)]
  }

  function MarkedSubmitted(rows: Rows, id: OpId, tx: string, ccip: Option<string>): Rows {
    if id !in rows then rows
    else rows[id := rows[id].(status := Submitted, sourceTx := Some(tx), ccipMessageId := ccip)]
  }

  function MarkedFailed(rows: Rows, id: OpId): Rows {
    if id !in rows then rows else rows[id := rows[id].(status := Failed)]
  }

  class Repository {
    var rows: Rows

    constructor ()
      ensures rows == map[]
    {
      rows := map[];
    }

    method OpInFlight(source: ChainId, dest: ChainId, now: nat) returns (inFlight: bool)
      ensures inFlight == InFlight(rows, source, dest, now)
    {
      inFlight := exists id | id in rows :: rows[id].source == source && rows[id].dest == dest && Active(rows[id], now);
    }

    method InsertRebalanceOp(id: OpId, amount: nat, now: nat)
      modifies this
      ensures rows == Inserted(old(rows), id, amount, now)
    {
      if id !in rows {
        rows := rows[id := OpRow(id.source, id.dest, amount, Pending, now, None, None)];
      }
    }

    method UpdateRebalanceOpSubmitted(id: OpId, tx: string, ccip: Option<string>)
      modifies this
      ensures rows == MarkedSubmitted(old(rows), id, tx, ccip)
    {
      if id in rows {
        rows := rows[id := rows[id].(status := Submitted, sourceTx := Some(tx), ccipMessageId := ccip)];
      }
    }

    method UpdateRebalanceOpFailed(id: OpId)
      modifies this
      ensures rows == MarkedFailed(old(rows), id)
    {
      if id in rows {
        rows := rows[id := rows[id].(status := Failed)];
      }
    }
  }
}
