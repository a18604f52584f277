/**
  One op of a rebalance cycle (services/treasury/src/cold_path.rs) as the steps of the
  concurrent model that it amounts to when nothing comes between them.
 */
module ColdPathTask {
  import opened Wrappers
  import opened Rebalance
  import opened RebalanceLaws
  import opened RebalanceRepo
  import opened ColdPath
  import opened ColdPathRuns

  /** Nothing but the row `id` and its history differ, and of the row only status, transaction and message id. */
  ghost predicate OnlyRow(s: State, s': State, id: OpId) {
    && id in s.rows && s'.rows.Keys == s.rows.Keys && s'.now == s.now && s'.interrupted == s.interrupted
    && (forall k | k in s.rows && k != id :: s'.rows[k] == s.rows[k])
    && (forall k | k != id :: ConfirmedOf(s', k) == ConfirmedOf(s, k))
    && Unsettled(s'.rows[id]) == Unsettled(s.rows[id])
  }

  /** The row carries the receipt of the last confirmed chunk. */
  ghost predicate LastReceipt(row: OpRow, outcomes: seq<Option<Receipt>>) {
    var n := ConfirmedPrefix(outcomes);
    n > 0 ==> CarriesReceipt(row, outcomes[n - 1])
  }

  /** The chunks of an op in turn, up to the first that fails: what `SubmitChunks` does. */
  lemma {:induction false} UndisturbedChunks(s: State, outcomes: seq<Option<Receipt>>) returns (run: seq<Action>)
    requires s.proc.Chunking? && s.proc.id in s.rows && |outcomes| == |s.proc.todo| > 0
    ensures Allowed(s, run)
    ensures var id, s' := s.proc.id, Run(s, run);
            && s'.proc.Idle? && OnlyRow(s, s', id)
            && ConfirmedOf(s', id) == ConfirmedOf(s, id) + Sum(s.proc.todo[..ConfirmedPrefix(outcomes)])
            && s'.rows[id].status == (if ConfirmedPrefix(outcomes) == |outcomes| then Submitted else Failed)
            && LastReceipt(s'.rows[id], outcomes)
            && (ConfirmedPrefix(outcomes) == 0 ==> s'.rows[id] == s.rows[id].(status := Failed))
    decreases |outcomes|
  {
    var id, todo := s.proc.id, s.proc.todo;
    if outcomes[0].None? {
      RunCons(s, ChunkFailed, []);
      run := [ChunkFailed] + [];
      assert todo[..0] == [];
    } else {
      var confirm := ChunkConfirmed(outcomes[0].value);
      var s1 := Step(s, confirm);
      var rest := outcomes[1..];
      assert ConfirmedPrefix(outcomes) == 1 + ConfirmedPrefix(rest);
      FirstOfSum(todo, ConfirmedPrefix(rest));
      if |todo| == 1 {
        assert rest == [];
        RunCons(s, confirm, []);
        run := [confirm] + [];
      } else {
        var more := UndisturbedChunks(s1, rest);
        RunCons(s, confirm, more);
        run := [confirm] + more;
      }
    }
  }

  lemma {:induction false} FirstOfSum(xs: seq<nat>, n: nat)
    requires n < |xs|
    ensures Sum(xs[..n + 1]) == xs[0] + Sum(xs[1..][..n])
  {
    assert xs[..n + 1][1..] == xs[1..][..n];
  }

  /**
    An op that nothing comes between does what `ProcessOp` does: it is left alone unless the
    depth suffices and its pair is not in flight; then its row is new, and ends submitted with
    its whole amount confirmed if every chunk is confirmed, and failed otherwise.
   */
  lemma {:induction false} UndisturbedOp(s: State, op: Op, liveDepth: nat, cap: Option<nat>,
                                         chain: nat -> Option<Receipt>) returns (run: seq<Action>)
    requires s.proc.Idle? && op.amount > 0 && OpId(op.source, op.dest, s.now) !in s.rows
    ensures Allowed(s, run) && Run(s, run).proc.Idle?
    ensures liveDepth < op.amount || InFlight(s.rows, op.source, op.dest, s.now) ==> Run(s, run) == s
    ensures var id, s' := OpId(op.source, op.dest, s.now), Run(s, run);
            op.amount <= liveDepth && !InFlight(s.rows, op.source, op.dest, s.now) ==>
              && s'.rows.Keys == s.rows.Keys + {id} && (forall k | k in s.rows :: s'.rows[k] == s.rows[k])
              && s'.rows[id].(sourceTx := None, ccipMessageId := None)
                 == OpRow(op.source, op.dest, op.amount,
                          if AllConfirm(op.amount, cap, chain) then Submitted else Failed, s.now, None, None)
              && ConfirmedOf(s', id) - ConfirmedOf(s, id) <= op.amount
              && (ConfirmedOf(s', id) - ConfirmedOf(s, id) == op.amount <==> AllConfirm(op.amount, cap, chain))
  {
    var begin := Begin(op, liveDepth);
    var s1 := Step(s, begin);
    if !Submits(s, op, liveDepth) {
      RunCons(s, begin, []);
      run := [begin] + [];
    } else {
      var rest := UndisturbedSubmission(s1, op.amount, cap, chain);
      RunCons(s, begin, rest);
      run := [begin] + rest;
    }
  }

  lemma {:induction false} UndisturbedSubmission(s: State, amount: nat, cap: Option<nat>,
                                                 chain: nat -> Option<Receipt>) returns (run: seq<Action>)
    requires amount > 0 && s.proc.AwaitingCap? && s.proc.amount == amount && s.proc.id in s.rows
    ensures Allowed(s, run)
    ensures var id, s' := s.proc.id, Run(s, run);
            && s'.proc.Idle? && OnlyRow(s, s', id)
            && s'.rows[id].status == (if AllConfirm(amount, cap, chain) then Submitted else Failed)
            && ConfirmedOf(s', id) - ConfirmedOf(s, id) <= amount
            && (ConfirmedOf(s', id) - ConfirmedOf(s, id) == amount <==> AllConfirm(amount, cap, chain))
  {
    var read := ReadCap(cap);
    var s1 := Step(s, read);
    if cap.None? || cap.value == 0 {
      RunCons(s, read, []);
      run := [read] + [];
    } else {
      var chunks := Chunks(amount, cap.value);
      ChunksOfAmount(amount, cap.value);
      var outcomes := seq(|chunks|, i requires 0 <= i < |chunks| => chain(i));
      PrefixIsAll(amount, cap.value, chain, outcomes);
      SumOfPrefix(chunks, ConfirmedPrefix(outcomes));
      var more := UndisturbedChunks(s1, outcomes);
      RunCons(s, read, more);
      run := [read] + more;
    }
  }
}
