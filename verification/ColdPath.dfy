/**
  The life of cold-path operations: the submission loop of `run_rebalance_cycle`
  (services/treasury/src/cold_path.rs) against the `rebalance_ops` table.
 */
module ColdPath {
  import opened Wrappers
  import opened Rebalance
  import opened RebalanceLaws
  import opened RebalanceRepo

  // ----- Decision -----

  datatype Decision = Submit | SkipInsufficientDepth | SkipOpInFlight

  function EvaluateRebalanceOp(liveDepth: nat, required: nat, inFlight: bool): Decision {
    if liveDepth < required then SkipInsufficientDepth
    else if inFlight then SkipOpInFlight
    else Submit
  }

  // ----- One op, as the loop body runs it -----

  datatype Receipt = Receipt(tx: string, ccipMessageId: Option<string>)

  /** How many chunks are confirmed before the first one that fails. */
  function ConfirmedPrefix(outcomes: seq<Option<Receipt>>): (n: nat)
    ensures n <= |outcomes|
  {
    if outcomes == [] || outcomes[0].None? then 0 else 1 + ConfirmedPrefix(outcomes[1..])
  }

  lemma {:induction false} PrefixIsConfirmed(outcomes: seq<Option<Receipt>>)
    ensures forall i | 0 <= i < ConfirmedPrefix(outcomes) :: outcomes[i].Some?
    ensures ConfirmedPrefix(outcomes) < |outcomes| ==> outcomes[ConfirmedPrefix(outcomes)].None?
  {
    if outcomes != [] {
      PrefixIsConfirmed(outcomes[1..]);
      assert forall i | 1 <= i < |outcomes| :: outcomes[i] == outcomes[1..][i - 1];
    }
  }

  /** What a submission leaves alone in the row of its op. */
  function Unsettled(row: OpRow): OpRow {
    row.(status := Pending, sourceTx := None, ccipMessageId := None)
  }

  /** The row carries transaction and message id of the receipt. */
  predicate CarriesReceipt(row: OpRow, receipt: Option<Receipt>) {
    && receipt.Some? && row.sourceTx == Some(receipt.value.tx) && row.ccipMessageId == receipt.value.ccipMessageId
  }

  /**
    Submits the chunks of an op in turn: every confirmation rewrites the row as submitted,
    the first failure marks it failed and stops.
   */
  method SubmitChunks(repo: Repository, id: OpId, chunks: seq<nat>, outcomes: seq<Option<Receipt>>)
    returns (confirmed: nat)
    requires id in repo.rows && chunks != [] && |outcomes| == |chunks|
    modifies repo
    ensures confirmed == Sum(chunks[..ConfirmedPrefix(outcomes)])
    ensures repo.rows.Keys == old(repo.rows.Keys)
    ensures forall k | k in repo.rows && k != id :: repo.rows[k] == old(repo.rows[k])
    ensures Unsettled(repo.rows[id]) == Unsettled(old(repo.rows[id]))
    ensures repo.rows[id].status == if ConfirmedPrefix(outcomes) == |chunks| then Submitted else Failed
    ensures ConfirmedPrefix(outcomes) > 0 ==>
              CarriesReceipt(repo.rows[id], outcomes[ConfirmedPrefix(outcomes) - 1])
    ensures ConfirmedPrefix(outcomes) == 0 ==>
              && repo.rows[id].sourceTx == old(repo.rows[id]).sourceTx
              && repo.rows[id].ccipMessageId == old(repo.rows[id]).ccipMessageId
  {
    confirmed := 0;
    var i := 0;
    while i < |chunks|
      invariant i <= ConfirmedPrefix(outcomes) <= |chunks|
      invariant ConfirmedPrefix(outcomes) == i + ConfirmedPrefix(outcomes[i..])
      invariant confirmed == Sum(chunks[..i])
      invariant repo.rows.Keys == old(repo.rows.Keys)
      invariant forall k | k in repo.rows && k != id :: repo.rows[k] == old(repo.rows[k])
      invariant Unsettled(repo.rows[id]) == Unsettled(old(repo.rows[id]))
      invariant i > 0 ==> repo.rows[id].status == Submitted && CarriesReceipt(repo.rows[id], outcomes[i - 1])
      invariant i == 0 ==> repo.rows[id] == old(repo.rows[id])
    {
      if outcomes[i].None? {
        repo.UpdateRebalanceOpFailed(id);
        return;
      }
      var receipt := outcomes[i].value;
      repo.UpdateRebalanceOpSubmitted(id, receipt.tx, receipt.ccipMessageId);
      SumAppend(chunks[..i], chunks[i]);
      assert chunks[..i + 1] == chunks[..i] + [chunks[i]];
      confirmed := confirmed + chunks[i];
      i := i + 1;
    }
    assert chunks[..i] == chunks;
  }

  lemma {:induction false} SumAppend(xs: seq<nat>, x: nat)
    ensures Sum(xs + [x]) == Sum(xs) + x
  {
    if xs == [] {
      assert xs + [x] == [x];
    } else {
      SumAppend(xs[1..], x);
      assert (xs + [x])[1..] == xs[1..] + [x];
    }
  }

  lemma {:induction false} SumOfPrefix(xs: seq<nat>, n: nat)
    requires n <= |xs|
    ensures Sum(xs[..n]) <= Sum(xs)
    ensures (forall x | x in xs :: x > 0) ==> (Sum(xs[..n]) == Sum(xs) <==> n == |xs|)
  {
    if n == 0 {
      if xs != [] {
        assert xs[0] in xs;
      }
    } else {
      SumOfPrefix(xs[1..], n - 1);
      assert forall x | x in xs[1..] :: x in xs;
      assert xs[..n][1..] == xs[1..][..n - 1];
    }
  }

  /** The cap is known and positive, and every chunk of the amount is confirmed. */
  ghost predicate AllConfirm(amount: nat, cap: Option<nat>, chain: nat -> Option<Receipt>) {
    && cap.Some? && cap.value > 0
    && forall i: nat | i < |Chunks(amount, cap.value)| :: chain(i).Some?
  }

  lemma {:induction false} PrefixIsAll(amount: nat, cap: nat, chain: nat -> Option<Receipt>,
                                       outcomes: seq<Option<Receipt>>)
    requires cap > 0 && |outcomes| == |Chunks(amount, cap)|
    requires forall i: nat | i < |outcomes| :: outcomes[i] == chain(i)
    ensures ConfirmedPrefix(outcomes) == |outcomes| <==> AllConfirm(amount, Some(cap), chain)
  {
    PrefixIsConfirmed(outcomes);
    if ConfirmedPrefix(outcomes) == |outcomes| {
      forall i: nat | i < |Chunks(amount, cap)| ensures chain(i).Some? {
        assert outcomes[i].Some?;
      }
    }
  }

  /** A recorded op from the cap to its last chunk; without a cap, or with a zero one, it fails at once. */
  method SubmitRecorded(repo: Repository, id: OpId, amount: nat, cap: Option<nat>, chain: nat -> Option<Receipt>)
    returns (confirmed: nat)
    requires id in repo.rows && amount > 0
    modifies repo
    ensures confirmed <= amount && (confirmed == amount <==> AllConfirm(amount, cap, chain))
    ensures repo.rows.Keys == old(repo.rows.Keys)
    ensures forall k | k in repo.rows && k != id :: repo.rows[k] == old(repo.rows[k])
    ensures Unsettled(repo.rows[id]) == Unsettled(old(repo.rows[id]))
    ensures repo.rows[id].status == if confirmed == amount then Submitted else Failed
  {
    if cap.None? || cap.value == 0 {
      repo.UpdateRebalanceOpFailed(id);
      return 0;
    }
    ChunksOfAmount(amount, cap.value);
    var chunks := SplitAmountByCap(amount, cap.value);
    var outcomes := seq(|chunks|, i requires 0 <= i < |chunks| => chain(i));
    SumOfPrefix(chunks, ConfirmedPrefix(outcomes));
    PrefixIsAll(amount, cap.value, chain, outcomes);
    confirmed := SubmitChunks(repo, id, chunks, outcomes);
  }

  /**
    One planned op from depth check to last chunk. A new op ends `Submitted` exactly when
    its whole amount was confirmed, `Failed` otherwise; no op confirms more than its amount.
   */
  method ProcessOp(repo: Repository, op: Op, liveDepth: nat, now: nat, cap: Option<nat>,
                   chain: nat -> Option<Receipt>)
    returns (decision: Decision, confirmed: nat)
    requires op.amount > 0
    modifies repo
    ensures decision == SkipInsufficientDepth <==> liveDepth < op.amount
    ensures decision == Submit <==> op.amount <= liveDepth && !InFlight(old(repo.rows), op.source, op.dest, now)
    ensures confirmed <= op.amount
    ensures confirmed == op.amount <==> decision == Submit && AllConfirm(op.amount, cap, chain)
    ensures decision != Submit ==> confirmed == 0 && repo.rows == old(repo.rows)
    ensures var id := OpId(op.source, op.dest, now);
            decision == Submit ==>
              && repo.rows.Keys == old(repo.rows).Keys + {id}
              && (forall k | k in old(repo.rows) && k != id :: repo.rows[k] == old(repo.rows)[k])
              && (repo.rows[id].status == Submitted <==> confirmed == op.amount)
              && (repo.rows[id].status == Failed <==> confirmed < op.amount)
              && (id !in old(repo.rows) ==> repo.rows[id].amount == op.amount && repo.rows[id].createdAt == now)
  {
    confirmed := 0;
    var inFlight := repo.OpInFlight(op.source, op.dest, now);
    decision := EvaluateRebalanceOp(liveDepth, op.amount, inFlight);
    if decision != Submit {
      return;
    }
    var id := OpId(op.source, op.dest, now);
    repo.InsertRebalanceOp(id, op.amount, now);
    confirmed := SubmitRecorded(repo, id, op.amount, cap, chain);
  }
}
