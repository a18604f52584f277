/** The `treasury.decommission_ops` table (services/treasury/src/db/decommission_repo.rs). */
module DrainRepo {
  import opened Addresses

  type ChainId = nat

  datatype Pair = Pair(source: ChainId, target: ChainId)

  /** "decom-{source}-{target}-{address}", with the address as the plan spells it. */
  datatype OpId = OpId(pair: Pair, address: string)

  datatype DrainStatus = Pending | Submitted | Completed | Failed

  datatype DrainRow = DrainRow(pair: Pair, holder: string, amount: nat, status: DrainStatus)

  type DrainRows = map<OpId, DrainRow>

  // ----- Statements -----

  function Inserted(rows: DrainRows, id: OpId, amount: nat): DrainRows {
    if id in rows then rows else rows[id := DrainRow(id.pair, id.address, amount, Pending)]
  }

  function Marked(rows: DrainRows, id: OpId, status: DrainStatus): DrainRows {
    if id !in rows then rows else rows[id := rows[id].(status := status)]
  }

  predicate CompletedFor(row: DrainRow, pair: Pair) {
    row.pair == pair && row.status == Completed
  }

  /** The lower-case addresses `completed_holders` yields to the orchestrator. */
  function CompletedHolders(rows: DrainRows, pair: Pair): set<string> {
    set id | id in rows && CompletedFor(rows[id], pair) :: Lower(rows[id].holder)
  }

  predicate HasIncomplete(rows: DrainRows) {
    exists id | id in rows :: rows[id].status in {Pending, Submitted}
  }

  class Repository {
    var rows: DrainRows

    constructor ()
      ensures rows == map[]
    {
      rows := map[];
    }

    method Completed(pair: Pair) returns (holders: set<string>)
      ensures holders == CompletedHolders(rows, pair)
      ensures forall a :: a in holders <==> exists id | id in rows ::
                rows[id].pair == pair && rows[id].status == DrainStatus.Completed && Lower(rows[id].holder) == a
    {
      holders := set id | id in rows && CompletedFor(rows[id], pair) :: Lower(rows[id].holder);
    }

    method InsertHolderOp(id: OpId, amount: nat)
      modifies this
      ensures rows == Inserted(old(rows), id, amount)
    {
      if id !in rows {
        rows := rows[id := DrainRow(id.pair, id.address, amount, Pending)];
      }
    }

    method Mark(id: OpId, status: DrainStatus)
      modifies this
      ensures rows == Marked(old(rows), id, status)
    {
      if id in rows {
        rows := rows[id := rows[id].(status := status)];
      }
    }
  }
}
