/**
  The reserve path (services/treasury/src/reserve_path.rs): planner, relayer and watcher
  loops that share the `reserve_ops` table. A step is one await of one loop; the loops
  interleave freely and a restart forgets everything but the table.

  Which ops the planner submits and which rows are old enough to be stuck is left open:
  every choice is a step.
 */
module ReservePath {
  import opened Wrappers
  import opened ReserveRepo

  datatype Planner = PlannerIdle | Bridging(id: OpId)

  /** A row of `list_awaiting_attestation` as it was when it was listed. */
  datatype Listed = Listed(id: OpId, row: ReserveRow)

  datatype Relayer =
    | Ready                    // about to take the next listed row
    | HasAttestation(id: OpId) // stored the attestation, not yet submitted
    | Submitting(id: OpId)     // inside submit_bridge_in

  datatype Watcher = WatcherIdle | Found(id: OpId)

  /** `observed` and `bridgeIns` are history: completion events seen, and ops handed to `submit_bridge_in`. */
  datatype State = State(
    rows: ReserveRows, planner: Planner, queue: seq<Listed>, relayer: Relayer,
    watcher: Watcher, stuck: seq<OpId>, observed: set<(ChainId, string)>, bridgeIns: seq<OpId>)

  const INIT := State(map[], PlannerIdle, [], Ready, WatcherIdle, [], {}, [])

  datatype Action =
    | PlanOp(id: OpId, source: ChainId, dest: ChainId, amount: nat)
    | BridgeReserveOk(tx: string, messageId: Option<string>)
    | BridgeReserveFailed
    | ListAwaiting(ids: seq<OpId>)
    | SkipRow                                  // still pending, or not configured
    | Attest(message: string, attestation: string)
    | StopAfterAttest                          // destination not configured
    | BadHex
    | SubmitBridgeIn
    | BridgeInOk(tx: string)
    | BridgeInFailed
    | Observe(dest: ChainId, eventMessageId: string, found: Option<OpId>)
    | MarkCompleted
    | ListStuck(aged: seq<OpId>)
    | FailStuck
    | Restart

  predicate Enabled(s: State, a: Action) {
    match a
    case PlanOp(_, _, _, _) => s.planner.PlannerIdle?
    case BridgeReserveOk(_, _) => s.planner.Bridging?
    case BridgeReserveFailed => s.planner.Bridging?
    case ListAwaiting(ids) =>
      && s.relayer.Ready? && s.queue == []
      && (forall i, j | 0 <= i < j < |ids| :: ids[i] != ids[j])
      && (forall i | 0 <= i < |ids| :: ids[i] in s.rows && AwaitsAttestation(s.rows[ids[i]]))
    case SkipRow => s.relayer.Ready? && s.queue != []
    case Attest(_, attestation) =>
      s.relayer.Ready? && s.queue != [] && s.queue[0].row.sourceTx.Some? && "0x" <= attestation
    case StopAfterAttest => s.relayer.HasAttestation?
    case BadHex => s.relayer.HasAttestation?
    case SubmitBridgeIn => s.relayer.HasAttestation?
    case BridgeInOk(_) => s.relayer.Submitting?
    case BridgeInFailed => s.relayer.Submitting?
    case Observe(dest, mid, found) =>
      && s.watcher.WatcherIdle? && s.stuck == []
      && (found.Some? ==> found.value in s.rows && Matches(s.rows[found.value], dest, mid))
      && (found.None? ==> forall id | id in s.rows :: !Matches(s.rows[id], dest, mid))
    case MarkCompleted => s.watcher.Found?
    case ListStuck(aged) =>
      && s.watcher.WatcherIdle? && s.stuck == []
      && (forall i | 0 <= i < |aged| :: aged[i] in s.rows && Unfinished(s.rows[aged[i]]))
    case FailStuck => s.watcher.WatcherIdle? && s.stuck != []
    case Restart => true
  }

  function Snapshot(rows: ReserveRows, ids: seq<OpId>): (r: seq<Listed>)
    requires forall i | 0 <= i < |ids| :: ids[i] in rows
    ensures |r| == |ids| && forall i | 0 <= i < |ids| :: r[i] == Listed(ids[i], rows[ids[i]])
  {
    seq(|ids|, i requires 0 <= i < |ids| => Listed(ids[i], rows[ids[i]]))
  }

  function Step(s: State, a: Action): State
    requires Enabled(s, a)
  {
    match a
    case PlanOp(id, source, dest, amount) =>
      s.(rows := Inserted(s.rows, id, source, dest, amount), planner := Bridging(id))
    case BridgeReserveOk(tx, mid) => s.(rows := MarkedSubmitted(s.rows, s.planner.id, tx, mid), planner := PlannerIdle)
    case BridgeReserveFailed => s.(rows := MarkedFailed(s.rows, s.planner.id), planner := PlannerIdle)
    case ListAwaiting(ids) => s.(queue := Snapshot(s.rows, ids))
    case SkipRow => s.(queue := s.queue[1..])
    case Attest(message, attestation) =>
      var id := s.queue[0].id;
      s.(rows := Attested(s.rows, id, message, attestation), relayer := HasAttestation(id), queue := s.queue[1..])
    case StopAfterAttest => s.(relayer := Ready)
    case BadHex => s.(rows := MarkedFailed(s.rows, s.relayer.id), relayer := Ready)
    case SubmitBridgeIn => s.(relayer := Submitting(s.relayer.id), bridgeIns := s.bridgeIns + [s.relayer.id])
    case BridgeInOk(tx) => s.(rows := MarkedRelayed(s.rows, s.relayer.id, tx), relayer := Ready)
    case BridgeInFailed => s.(rows := MarkedFailed(s.rows, s.relayer.id), relayer := Ready)
    case Observe(dest, mid, found) =>
      var seen := s.(observed := s.observed + {(dest, mid)});
      if found.Some? && s.rows[found.value].status != Completed then seen.(watcher := Found(found.value)) else seen
    case MarkCompleted => s.(rows := MarkedCompleted(s.rows, s.watcher.id), watcher := WatcherIdle)
    case ListStuck(aged) => s.(stuck := aged)
    case FailStuck => s.(rows := MarkedFailed(s.rows, s.stuck[0]), stuck := s.stuck[1..])
    case Restart => s.(planner := PlannerIdle, queue := [], relayer := Ready, watcher := WatcherIdle, stuck := [])
  }

  ghost predicate Allowed(s: State, run: seq<Action>)
    decreases |run|
  {
    run == [] || (Enabled(s, run[0]) && Allowed(Step(s, run[0]), run[1..]))
  }

  ghost function Run(s: State, run: seq<Action>): State
    requires Allowed(s, run)
    decreases |run|
  {
    if run == [] then s else Run(Step(s, run[0]), run[1..])
  }

  // ----- bridgeIn at most once per op -----

  ghost predicate Attestable(s: State, id: OpId) {
    id in s.rows && id !in s.bridgeIns
  }

  ghost predicate Once(s: State) {
    && Distinct(s.bridgeIns)
    && (forall id | id in s.bridgeIns :: id in s.rows && s.rows[id].attestation.Some?)
    && (s.relayer.HasAttestation? ==> Attestable(s, s.relayer.id) && s.rows[s.relayer.id].attestation.Some?)
    && (forall i | 0 <= i < |s.queue| :: Attestable(s, s.queue[i].id))
    && (forall i | 0 <= i < |s.queue| :: !s.relayer.Ready? ==> s.queue[i].id != s.relayer.id)
    && (forall i, j | 0 <= i < j < |s.queue| :: s.queue[i].id != s.queue[j].id)
  }

  lemma {:induction false} StepKeepsAttestation(s: State, a: Action, id: OpId)
    requires Enabled(s, a) && id in s.rows
    ensures id in Step(s, a).rows && (s.rows[id].attestation.Some? ==> Step(s, a).rows[id].attestation.Some?)
  {
  }

  lemma {:induction false} ListOnce(s: State, a: Action)
    requires Once(s) && a.ListAwaiting? && Enabled(s, a)
    ensures Once(Step(s, a))
  {
  }

  lemma {:induction false} QueueOnce(s: State, a: Action)
    requires Once(s) && (a.SkipRow? || a.Attest?) && Enabled(s, a)
    ensures Once(Step(s, a))
  {
    var s' := Step(s, a);
    assert forall i | 0 <= i < |s'.queue| :: s'.queue[i] == s.queue[i + 1];
    forall id | id in s.rows ensures id in s'.rows && (s.rows[id].attestation.Some? ==> s'.rows[id].attestation.Some?) {
      StepKeepsAttestation(s, a, id);
    }
  }

  lemma {:induction false} OtherOnce(s: State, a: Action)
    requires Once(s) && !a.ListAwaiting? && !a.SkipRow? && !a.Attest? && Enabled(s, a)
    ensures Once(Step(s, a))
  {
    var s' := Step(s, a);
    forall id | id in s.rows ensures id in s'.rows && (s.rows[id].attestation.Some? ==> s'.rows[id].attestation.Some?) {
      StepKeepsAttestation(s, a, id);
    }
  }

  lemma {:induction false} StepOnce(s: State, a: Action)
    requires Once(s) && Enabled(s, a)
    ensures Once(Step(s, a))
  {
    if a.ListAwaiting? {
      ListOnce(s, a);
    } else if a.SkipRow? || a.Attest? {
      QueueOnce(s, a);
    } else {
      OtherOnce(s, a);
    }
  }

  lemma {:induction false} RunOnce(s: State, run: seq<Action>)
    requires Once(s) && Allowed(s, run)
    ensures Once(Run(s, run))
    decreases |run|
  {
    if run != [] {
      StepOnce(s, run[0]);
      RunOnce(Step(s, run[0]), run[1..]);
    }
  }

  /**
    Under every interleaving and any number of restarts, `submit_bridge_in` is called at
    most once per reserve op, and only after its attestation was stored.
   */
  lemma {:induction false} AtMostOneBridgeIn(run: seq<Action>)
    requires Allowed(INIT, run)
    ensures var s := Run(INIT, run);
            Distinct(s.bridgeIns) && forall id | id in s.bridgeIns :: id in s.rows && s.rows[id].attestation.Some?
  {
    RunOnce(INIT, run);
  }

  // ----- Who has an op in hand -----

  /** Listed for relaying or being relayed. */
  predicate Relaying(s: State, id: OpId) {
    || (exists i | 0 <= i < |s.queue| :: s.queue[i].id == id)
    || (!s.relayer.Ready? && s.relayer.id == id)
  }

  /** Some loop still has the op in hand and may move it away from `completed`. */
  predicate Held(s: State, id: OpId) {
    Relaying(s, id) || id in s.stuck || s.planner == Bridging(id)
  }

  // ----- What a status says -----

  /**
    Op ids are made of source, destination and millisecond, so the planner can take up an id
    that has a row already. That clashes if the row was bridged before, unless it is completed
    and nobody has it in hand.
   */
  predicate Clash(s: State, id: OpId) {
    id in s.rows && s.rows[id].messageId.Some?
    && (s.rows[id].status != Completed || Held(s, id) || s.watcher == Found(id))
  }

  predicate Harmless(s: State, a: Action) {
    a.PlanOp? ==> !Clash(s, a.id)
  }

  ghost predicate HarmlessRun(s: State, run: seq<Action>)
    requires Allowed(s, run)
    decreases |run|
  {
    run == [] || (Harmless(s, run[0]) && HarmlessRun(Step(s, run[0]), run[1..]))
  }

  ghost predicate Bridged(s: State, id: OpId) {
    id in s.rows && s.rows[id].sourceTx.Some? && s.rows[id].messageId.Some?
  }

  /** A relayed row has all it needs and was dispatched; a completed row's completion event was observed. */
  ghost predicate RowEarned(s: State, id: OpId)
    requires id in s.rows
  {
    var row := s.rows[id];
    && (row.status == Relayed ==>
          row.sourceTx.Some? && row.messageId.Some? && row.attestation.Some? && row.destTx.Some? && id in s.bridgeIns)
    && (row.status == Completed ==> row.messageId.Some? && (row.dest, row.messageId.value) in s.observed)
  }

  ghost predicate RowSound(s: State, id: OpId)
    requires id in s.rows
  {
    var row := s.rows[id];
    && (row.status == Submitted ==> row.sourceTx.Some?)
    && (row.messageId.Some? ==> row.sourceTx.Some?)
    && RowEarned(s, id)
  }

  // What each loop knows about the row it is working on.

  ghost predicate PlannerSound(s: State) {
    s.planner.Bridging? ==>
      var id := s.planner.id;
      id in s.rows
      && (s.rows[id].messageId.None?
          || (s.rows[id].status == Completed && !Relaying(s, id) && id !in s.stuck && s.watcher != Found(id)))
  }

  ghost predicate RelayerSound(s: State) {
    && (forall i | 0 <= i < |s.queue| :: Bridged(s, s.queue[i].id) && s.queue[i].row.sourceTx.Some?)
    && (!s.relayer.Ready? ==> Bridged(s, s.relayer.id) && s.rows[s.relayer.id].attestation.Some?)
    && (s.relayer.Submitting? ==> s.relayer.id in s.bridgeIns)
  }

  ghost predicate WatcherSound(s: State) {
    s.watcher.Found? ==>
      && s.stuck == [] && Bridged(s, s.watcher.id)
      && (s.rows[s.watcher.id].dest, s.rows[s.watcher.id].messageId.value) in s.observed
  }

  ghost predicate ActorsSound(s: State) {
    PlannerSound(s) && RelayerSound(s) && WatcherSound(s)
  }

  ghost predicate Sound(s: State) {
    (forall id | id in s.rows :: RowSound(s, id)) && ActorsSound(s)
  }

  lemma {:induction false} StepRowSound(s: State, a: Action, id: OpId)
    requires Sound(s) && Enabled(s, a) && id in Step(s, a).rows
    ensures RowSound(Step(s, a), id)
  {
    if id in s.rows {
      assert RowSound(s, id);
    }
  }

  /** A row that is being relayed or completed keeps what the bridge gave it. */
  lemma {:induction false} StepKeepsBridged(s: State, a: Action, id: OpId)
    requires Sound(s) && Enabled(s, a) && Bridged(s, id) && (a.BridgeReserveOk? ==> s.planner.id != id)
    ensures Bridged(Step(s, a), id)
    ensures var row, row' := s.rows[id], Step(s, a).rows[id];
            row'.dest == row.dest && row'.messageId == row.messageId && row'.sourceTx == row.sourceTx
            && (row.attestation.Some? ==> row'.attestation.Some?)
  {
  }

  lemma {:induction false} PlannerElsewhere(s: State, id: OpId)
    requires Sound(s) && (Relaying(s, id) || s.watcher == Found(id))
    ensures s.planner != Bridging(id)
  {
  }

  lemma {:induction false} StepRelayerSound(s: State, a: Action)
    requires Sound(s) && Enabled(s, a)
    ensures RelayerSound(Step(s, a))
  {
    var s' := Step(s, a);
    forall i | 0 <= i < |s'.queue| ensures Bridged(s', s'.queue[i].id) && s'.queue[i].row.sourceTx.Some? {
      if a.ListAwaiting? {
        assert RowSound(s, a.ids[i]);
      } else if a.SkipRow? || a.Attest? {
        assert s'.queue[i] == s.queue[i + 1];
        StepKeepsBridged(s, a, s.queue[i + 1].id);
      } else {
        PlannerElsewhere(s, s.queue[i].id);
        StepKeepsBridged(s, a, s.queue[i].id);
      }
    }
    if !s.relayer.Ready? {
      PlannerElsewhere(s, s.relayer.id);
      StepKeepsBridged(s, a, s.relayer.id);
    }
    if a.Attest? {
      StepKeepsBridged(s, a, s.queue[0].id);
    }
  }

  lemma {:induction false} StepPlannerSound(s: State, a: Action)
    requires Sound(s) && Enabled(s, a) && Harmless(s, a)
    ensures PlannerSound(Step(s, a))
  {
    var s' := Step(s, a);
    if s'.planner.Bridging? {
      var id := s'.planner.id;
      if a.PlanOp? {
        PlanKeepsPlannerSound(s, a);
      } else {
        assert s.planner == s'.planner;
        if Relaying(s', id) {
          RelayingBefore(s, a, id);
        }
      }
    }
  }

  lemma {:induction false} PlanKeepsPlannerSound(s: State, a: Action)
    requires Sound(s) && a.PlanOp? && Enabled(s, a) && Harmless(s, a)
    ensures PlannerSound(Step(s, a))
  {
    var s' := Step(s, a);
    assert Relaying(s', a.id) == Relaying(s, a.id);
  }

  /** An op that is being relayed was so before, or has just been listed. */
  lemma {:induction false} RelayingBefore(s: State, a: Action, id: OpId)
    requires Enabled(s, a) && Relaying(Step(s, a), id)
    ensures Relaying(s, id) || (id in s.rows && AwaitsAttestation(s.rows[id]))
  {
    var s' := Step(s, a);
    if exists i | 0 <= i < |s'.queue| :: s'.queue[i].id == id {
      var i :| 0 <= i < |s'.queue| && s'.queue[i].id == id;
      if a.ListAwaiting? {
        assert a.ids[i] == id;
      } else if a.SkipRow? || a.Attest? {
        assert s.queue[i + 1].id == id;
      } else {
        assert s.queue[i].id == id;
      }
    } else if a.Attest? {
      assert s.queue[0].id == id;
    }
  }

  lemma {:induction false} StepActorsSound(s: State, a: Action)
    requires Sound(s) && Enabled(s, a) && Harmless(s, a)
    ensures ActorsSound(Step(s, a))
  {
    StepRelayerSound(s, a);
    StepPlannerSound(s, a);
    if a.Observe? && a.found.Some? {
      assert RowSound(s, a.found.value);
    }
    if s.watcher.Found? {
      PlannerElsewhere(s, s.watcher.id);
      StepKeepsBridged(s, a, s.watcher.id);
    }
  }

  lemma {:induction false} StepSound(s: State, a: Action)
    requires Sound(s) && Enabled(s, a) && Harmless(s, a)
    ensures Sound(Step(s, a))
  {
    forall id | id in Step(s, a).rows ensures RowSound(Step(s, a), id) {
      StepRowSound(s, a, id);
    }
    StepActorsSound(s, a);
  }

  lemma {:induction false} RunSound(s: State, run: seq<Action>)
    requires Sound(s) && Allowed(s, run) && HarmlessRun(s, run)
    ensures Sound(Run(s, run))
    decreases |run|
  {
    if run != [] {
      StepSound(s, run[0]);
      RunSound(Step(s, run[0]), run[1..]);
    }
  }

  /**
    Under every interleaving in which the planner takes up no clashing id: a relayed row has
    its source transaction, message id, attestation and destination transaction and went
    through `submit_bridge_in`; and a row is completed only if the completion event of its
    destination and message id was observed.
   */
  lemma {:induction false} StatusIsEarned(run: seq<Action>, id: OpId)
    requires Allowed(INIT, run) && HarmlessRun(INIT, run) && id in Run(INIT, run).rows
    ensures RowEarned(Run(INIT, run), id)
  {
    RunSound(INIT, run);
    assert RowSound(Run(INIT, run), id);
  }

  // ----- Clashing ids, and only they, make a status lie -----

  ghost predicate Earned(s: State) {
    forall id | id in s.rows :: RowEarned(s, id)
  }

  ghost predicate PlanFree(run: seq<Action>) {
    forall i | 0 <= i < |run| :: !run[i].PlanOp?
  }

  /** Whatever the loops do with what they have, every status stays earned. */
  ghost predicate EarnedAhead(s: State) {
    forall run | Allowed(s, run) && PlanFree(run) :: Earned(Run(s, run))
  }

  lemma {:induction false} RunCons(s: State, a: Action, rest: seq<Action>)
    requires Enabled(s, a) && Allowed(Step(s, a), rest)
    ensures Allowed(s, [a] + rest) && Run(s, [a] + rest) == Run(Step(s, a), rest)
    ensures !a.PlanOp? && PlanFree(rest) ==> PlanFree([a] + rest)
  {
    assert ([a] + rest)[1..] == rest;
  }

  lemma {:induction false} RunAppend(s: State, run: seq<Action>, more: seq<Action>)
    requires Allowed(s, run) && Allowed(Run(s, run), more)
    ensures Allowed(s, run + more) && Run(s, run + more) == Run(Run(s, run), more)
    ensures PlanFree(run) && PlanFree(more) ==> PlanFree(run + more)
    decreases |run|
  {
    if run == [] {
      assert run + more == more;
    } else {
      RunAppend(Step(s, run[0]), run[1..], more);
      assert (run + more)[1..] == run[1..] + more && (run + more)[0] == run[0];
    }
  }

  lemma {:induction false} PlanFreeTail(run: seq<Action>)
    requires PlanFree(run) && run != []
    ensures PlanFree(run[1..])
  {
    forall i | 0 <= i < |run[1..]| ensures !run[1..][i].PlanOp? {
      assert run[1..][i] == run[i + 1];
    }
  }

  lemma {:induction false} PlanFreeIsHarmless(s: State, run: seq<Action>)
    requires Allowed(s, run) && PlanFree(run)
    ensures HarmlessRun(s, run)
    decreases |run|
  {
    if run != [] {
      PlanFreeTail(run);
      PlanFreeIsHarmless(Step(s, run[0]), run[1..]);
    }
  }

  ghost predicate QueueReady(s: State) {
    forall i | 0 <= i < |s.queue| :: s.queue[i].row.sourceTx.Some?
  }

  /** The relayer can work its way to the submission of any op it has in hand. */
  lemma {:induction false} ReachSubmission(s: State, id: OpId) returns (run: seq<Action>)
    requires QueueReady(s) && Relaying(s, id) && id in s.rows
    ensures Allowed(s, run) && PlanFree(run)
    ensures var s' := Run(s, run);
            s'.relayer == Submitting(id) && id in s'.rows && s'.planner == s.planner
    decreases |s.queue|, if s.relayer.Ready? then 0 else if s.relayer.HasAttestation? then 2 else 1
  {
    if s.relayer == Submitting(id) {
      return [];
    }
    var a: Action;
    if s.relayer.Ready? {
      a := if s.queue[0].id == id then Attest("0x", "0x") else SkipRow;
    } else if s.relayer.id == id {
      a := SubmitBridgeIn;
    } else {
      a := if s.relayer.Submitting? then BridgeInFailed else StopAfterAttest;
    }
    var s' := Step(s, a);
    StillRelaying(s, a, id);
    var rest := ReachSubmission(s', id);
    RunCons(s, a, rest);
    run := [a] + rest;
  }

  lemma {:induction false} StillRelaying(s: State, a: Action, id: OpId)
    requires Enabled(s, a) && Relaying(s, id) && QueueReady(s)
    requires a.SkipRow? ==> s.queue[0].id != id
    requires a.BridgeInFailed? || a.StopAfterAttest? ==> s.relayer.id != id
    requires a.SkipRow? || a.Attest? || a.SubmitBridgeIn? || a.BridgeInFailed? || a.StopAfterAttest?
    ensures Relaying(Step(s, a), id) && QueueReady(Step(s, a))
  {
    var s' := Step(s, a);
    if a.SkipRow? || a.Attest? {
      assert forall i | 0 <= i < |s'.queue| :: s'.queue[i] == s.queue[i + 1];
    }
    if exists i | 0 <= i < |s.queue| :: s.queue[i].id == id {
      var i :| 0 <= i < |s.queue| && s.queue[i].id == id;
      if (a.SkipRow? || a.Attest?) && i > 0 {
        assert s'.queue[i - 1].id == id;
      } else if !a.SkipRow? && !a.Attest? {
        assert s'.queue[i].id == id;
      }
    }
  }

  /** What the planner and the watcher need to spoil the row. */
  ghost predicate Spoilable(s: State, id: OpId) {
    && s.planner == Bridging(id) && id in s.rows && s.rows[id].messageId.Some?
    && (s.watcher.Found? ==> s.stuck == [])
  }

  lemma {:induction false} FreeWatcher(s: State, id: OpId) returns (run: seq<Action>)
    requires Spoilable(s, id) && s.watcher != Found(id) && (s.rows[id].status != Completed || id in s.stuck)
    ensures Allowed(s, run) && PlanFree(run)
    ensures var s' := Run(s, run);
            && Spoilable(s', id) && s'.watcher.WatcherIdle? && s'.stuck == [] && s'.rows[id].status != Completed
    decreases |s.stuck|, if s.watcher.Found? then 1 else 0
  {
    if s.watcher.WatcherIdle? && s.stuck == [] {
      return [];
    }
    var a := if s.watcher.Found? then MarkCompleted else FailStuck;
    var s' := Step(s, a);
    if a.FailStuck? && s.stuck[0] != id && id in s.stuck {
      assert id in s'.stuck;
    }
    var rest := FreeWatcher(s', id);
    RunCons(s, a, rest);
    run := [a] + rest;
  }

  lemma {:induction false} FoundIsSpoilt(s: State, id: OpId) returns (run: seq<Action>)
    requires s.planner == Bridging(id) && id in s.rows && s.watcher == Found(id)
    ensures Allowed(s, run) && PlanFree(run) && !Earned(Run(s, run))
  {
    var s1 := Step(s, BridgeReserveOk("", None));
    var s2 := Step(s1, MarkCompleted);
    RunCons(s1, MarkCompleted, []);
    RunCons(s, BridgeReserveOk("", None), [MarkCompleted] + []);
    assert !RowEarned(s2, id);
    run := [BridgeReserveOk("", None)] + ([MarkCompleted] + []);
  }

  lemma {:induction false} ObservedIsSpoilt(s: State, id: OpId) returns (run: seq<Action>)
    requires Spoilable(s, id) && s.watcher.WatcherIdle? && s.stuck == [] && s.rows[id].status != Completed
    ensures Allowed(s, run) && PlanFree(run) && !Earned(Run(s, run))
  {
    var a := Observe(s.rows[id].dest, s.rows[id].messageId.value, Some(id));
    var rest := FoundIsSpoilt(Step(s, a), id);
    RunCons(s, a, rest);
    run := [a] + rest;
  }

  lemma {:induction false} RelayedIsSpoilt(s: State, id: OpId) returns (run: seq<Action>)
    requires s.planner == Bridging(id) && id in s.rows && s.relayer == Submitting(id)
    ensures Allowed(s, run) && PlanFree(run) && !Earned(Run(s, run))
  {
    var s1 := Step(s, BridgeReserveOk("", None));
    var s2 := Step(s1, BridgeInOk(""));
    RunCons(s1, BridgeInOk(""), []);
    RunCons(s, BridgeReserveOk("", None), [BridgeInOk("")] + []);
    assert !RowEarned(s2, id);
    run := [BridgeReserveOk("", None)] + ([BridgeInOk("")] + []);
  }

  lemma {:induction false} ClashIsSpoilt(s: State, a: Action) returns (run: seq<Action>)
    requires Sound(s) && a.PlanOp? && Enabled(s, a) && Clash(s, a.id)
    ensures Allowed(Step(s, a), run) && PlanFree(run) && !Earned(Run(Step(s, a), run))
  {
    var s', id := Step(s, a), a.id;
    assert s'.rows == s.rows && Relaying(s', id) == Relaying(s, id);
    if s.watcher == Found(id) {
      run := FoundIsSpoilt(s', id);
    } else if Relaying(s, id) {
      var first := ReachSubmission(s', id);
      var more := RelayedIsSpoilt(Run(s', first), id);
      RunAppend(s', first, more);
      run := first + more;
    } else {
      var first := FreeWatcher(s', id);
      var more := ObservedIsSpoilt(Run(s', first), id);
      RunAppend(s', first, more);
      run := first + more;
    }
  }

  lemma {:induction false} SoundIsEarnedAhead(s: State)
    requires Sound(s)
    ensures EarnedAhead(s)
  {
    forall run | Allowed(s, run) && PlanFree(run) ensures Earned(Run(s, run)) {
      PlanFreeIsHarmless(s, run);
      RunSound(s, run);
      forall id | id in Run(s, run).rows ensures RowEarned(Run(s, run), id) {
        assert RowSound(Run(s, run), id);
      }
    }
  }

  /** At every point of the run. */
  ghost predicate AlwaysEarnedAhead(s: State, run: seq<Action>)
    requires Allowed(s, run)
    decreases |run|
  {
    EarnedAhead(s) && (run == [] || AlwaysEarnedAhead(Step(s, run[0]), run[1..]))
  }

  lemma {:induction false} AlwaysEarnedExactly(s: State, run: seq<Action>)
    requires Sound(s) && Allowed(s, run)
    ensures AlwaysEarnedAhead(s, run) <==> HarmlessRun(s, run)
    decreases |run|
  {
    SoundIsEarnedAhead(s);
    if run != [] {
      if Harmless(s, run[0]) {
        StepSound(s, run[0]);
        AlwaysEarnedExactly(Step(s, run[0]), run[1..]);
      } else {
        var bad := ClashIsSpoilt(s, run[0]);
        assert !EarnedAhead(Step(s, run[0]));
        NotAlways(Step(s, run[0]), run[1..]);
      }
    }
  }

  lemma {:induction false} NotAlways(s: State, run: seq<Action>)
    requires Allowed(s, run) && !EarnedAhead(s)
    ensures !AlwaysEarnedAhead(s, run)
  {
  }

  /**
    At every point of a run the loops can only bring about earned statuses, if and only if the
    planner never took up a clashing id.
   */
  lemma {:induction false} StatusIsEarnedExactly(run: seq<Action>)
    requires Allowed(INIT, run)
    ensures AlwaysEarnedAhead(INIT, run) <==> HarmlessRun(INIT, run)
  {
    AlwaysEarnedExactly(INIT, run);
  }

  // ----- When a completed row stays completed -----

  predicate IsCompleted(s: State, id: OpId) {
    id in s.rows && s.rows[id].status == Completed
  }

  /** The planner takes up no id that has a row. */
  ghost predicate FreshRun(s: State, run: seq<Action>)
    requires Allowed(s, run)
    decreases |run|
  {
    run == [] || ((run[0].PlanOp? ==> run[0].id !in s.rows) && FreshRun(Step(s, run[0]), run[1..]))
  }

  ghost predicate StaysCompleted(s: State, id: OpId) {
    forall run | Allowed(s, run) && FreshRun(s, run) :: IsCompleted(Run(s, run), id)
  }

  lemma {:induction false} PlanFreeIsFresh(s: State, run: seq<Action>)
    requires Allowed(s, run) && PlanFree(run)
    ensures FreshRun(s, run)
    decreases |run|
  {
    if run != [] {
      PlanFreeTail(run);
      PlanFreeIsFresh(Step(s, run[0]), run[1..]);
    }
  }

  lemma {:induction false} UnheldStaysCompleted(s: State, run: seq<Action>, id: OpId)
    requires Allowed(s, run) && FreshRun(s, run) && IsCompleted(s, id) && !Held(s, id)
    ensures IsCompleted(Run(s, run), id)
    decreases |run|
  {
    if run != [] {
      StepKeepsUnheld(s, run[0], id);
      UnheldStaysCompleted(Step(s, run[0]), run[1..], id);
    }
  }

  lemma {:induction false} StepKeepsUnheld(s: State, a: Action, id: OpId)
    requires Enabled(s, a) && (a.PlanOp? ==> a.id !in s.rows) && IsCompleted(s, id) && !Held(s, id)
    ensures IsCompleted(Step(s, a), id) && !Held(Step(s, a), id)
  {
    var s' := Step(s, a);
    if Relaying(s', id) {
      RelayingBefore(s, a, id);
    }
  }

  /** A stuck list is worked off row by row, so each of its ops is marked failed in the end. */
  lemma {:induction false} StuckIsFailed(s: State, id: OpId) returns (run: seq<Action>)
    requires s.watcher.WatcherIdle? && id in s.stuck && id in s.rows
    ensures Allowed(s, run) && PlanFree(run)
    ensures id in Run(s, run).rows && Run(s, run).rows[id].status == Failed
    decreases |s.stuck|
  {
    var s' := Step(s, FailStuck);
    var rest: seq<Action> := [];
    if s.stuck[0] != id {
      assert id in s.stuck[1..];
      rest := StuckIsFailed(s', id);
    }
    RunCons(s, FailStuck, rest);
    run := [FailStuck] + rest;
  }

  /** What the loops rely on to get on with their work, whatever ids the planner takes up. */
  ghost predicate Workable(s: State) {
    && QueueReady(s) && (s.stuck != [] ==> s.watcher.WatcherIdle?)
    && (forall id | id in s.rows && s.rows[id].status == Submitted :: s.rows[id].sourceTx.Some?)
  }

  lemma {:induction false} StepWorkable(s: State, a: Action)
    requires Workable(s) && Enabled(s, a)
    ensures Workable(Step(s, a))
  {
    var s' := Step(s, a);
    if a.SkipRow? || a.Attest? {
      assert forall i | 0 <= i < |s'.queue| :: s'.queue[i] == s.queue[i + 1];
    }
  }

  lemma {:induction false} RunWorkable(s: State, run: seq<Action>)
    requires Workable(s) && Allowed(s, run)
    ensures Workable(Run(s, run))
    decreases |run|
  {
    if run != [] {
      StepWorkable(s, run[0]);
      RunWorkable(Step(s, run[0]), run[1..]);
    }
  }

  /** Whoever holds an op can still see it fail. */
  lemma {:induction false} HeldCanFail(s: State, id: OpId) returns (run: seq<Action>)
    requires Workable(s) && id in s.rows && Held(s, id)
    ensures Allowed(s, run) && PlanFree(run)
    ensures id in Run(s, run).rows && Run(s, run).rows[id].status == Failed
  {
    if id in s.stuck {
      run := StuckIsFailed(s, id);
    } else if s.planner == Bridging(id) {
      RunCons(s, BridgeReserveFailed, []);
      run := [BridgeReserveFailed] + [];
    } else {
      var first := ReachSubmission(s, id);
      RunCons(Run(s, first), BridgeInFailed, []);
      RunAppend(s, first, [BridgeInFailed] + []);
      run := first + ([BridgeInFailed] + []);
    }
  }

  /**
    `completed` is not absorbing by itself, because no UPDATE looks at the status. In every
    reachable state it stays for good exactly when no loop holds the op any more.
   */
  lemma {:induction false} CompletedStaysExactlyWhenUnheld(before: seq<Action>, id: OpId)
    requires Allowed(INIT, before) && IsCompleted(Run(INIT, before), id)
    ensures StaysCompleted(Run(INIT, before), id) <==> !Held(Run(INIT, before), id)
  {
    var s := Run(INIT, before);
    RunWorkable(INIT, before);
    if !Held(s, id) {
      forall run | Allowed(s, run) && FreshRun(s, run) ensures IsCompleted(Run(s, run), id) {
        UnheldStaysCompleted(s, run, id);
      }
    } else {
      var run := HeldCanFail(s, id);
      PlanFreeIsFresh(s, run);
      assert !StaysCompleted(s, id);
    }
  }

  lemma {:induction false} SubmissionReached(s: State, id: OpId, m: string) returns (run: seq<Action>)
    requires s.planner == Bridging(id) && id in s.rows && s.rows[id].attestation.None? && s.relayer.Ready?
            && s.queue == []
    ensures Allowed(s, run) && PlanFree(run)
    ensures var s' := Run(s, run);
            && s'.relayer == Submitting(id) && id in s'.rows && s'.watcher == s.watcher && s'.stuck == s.stuck
            && s'.rows[id].status == Submitted && s'.rows[id].messageId == Some(m) && s'.planner.PlannerIdle?
            && s'.rows[id].dest == s.rows[id].dest && s'.rows[id].source == s.rows[id].source
                && s'.rows.Keys == s.rows.Keys
  {
    var bridge, list, attest := BridgeReserveOk("tx", Some(m)), ListAwaiting([id]), Attest("0x", "0x");
    var s1 := Step(s, bridge);
    var s2 := Step(s1, list);
    var s3 := Step(s2, attest);
    RunCons(s3, SubmitBridgeIn, []);
    RunCons(s2, attest, [SubmitBridgeIn] + []);
    RunCons(s1, list, [attest] + ([SubmitBridgeIn] + []));
    RunCons(s, bridge, [list] + ([attest] + ([SubmitBridgeIn] + [])));
    run := [bridge] + ([list] + ([attest] + ([SubmitBridgeIn] + [])));
  }

  lemma {:induction false} CompletionOvertakes(s: State, id: OpId) returns (run: seq<Action>)
    requires s.relayer == Submitting(id) && id in s.rows && s.watcher.WatcherIdle? && s.stuck == []
    requires s.rows[id].status == Submitted && s.rows[id].messageId.Some?
    ensures Allowed(s, run) && PlanFree(run) && IsCompleted(Run(s, run), id) && Held(Run(s, run), id)
  {
    var observe := Observe(s.rows[id].dest, s.rows[id].messageId.value, Some(id));
    var s1 := Step(s, observe);
    RunCons(s1, MarkCompleted, []);
    RunCons(s, observe, [MarkCompleted] + []);
    run := [observe] + ([MarkCompleted] + []);
  }

  /** A completion event can overtake the relayer: the op completes while it is being submitted, and can fail then. */
  lemma {:induction false} CompletedCanBeLost(id: OpId, m: string) returns (run: seq<Action>)
    ensures Allowed(INIT, run) && HarmlessRun(INIT, run) && IsCompleted(Run(INIT, run), id)
    ensures !StaysCompleted(Run(INIT, run), id)
  {
    var plan := PlanOp(id, 0, 1, 5);
    var s := Step(INIT, plan);
    var first := SubmissionReached(s, id, m);
    var more := CompletionOvertakes(Run(s, first), id);
    RunAppend(s, first, more);
    PlanFreeIsHarmless(s, first + more);
    RunCons(INIT, plan, first + more);
    run := [plan] + (first + more);
    assert run[1..] == first + more;
    CompletedStaysExactlyWhenUnheld(run, id);
  }

  /**
    An op that fails on its way can be planned again in its millisecond, when no op of its pair
    is in flight; its id then clashes, and a status that is not earned lies ahead.
   */
  lemma {:induction false} ClashHappens(id: OpId, source: ChainId, dest: ChainId, amount: nat, m: string)
    returns (run: seq<Action>)
    ensures Allowed(INIT, run) && HarmlessRun(INIT, run)
    ensures var s, again := Run(INIT, run), PlanOp(id, source, dest, amount);
            && s.rows.Keys == {id} && s.rows[id].source == source && s.rows[id].dest == dest
            && s.rows[id].status == Failed && Clash(s, id)
            && Enabled(s, again) && !EarnedAhead(Step(s, again))
  {
    var plan := PlanOp(id, source, dest, amount);
    var s0 := Step(INIT, plan);
    var first := SubmissionReached(s0, id, m);
    var s1 := Run(s0, first);
    RunCons(s1, BridgeInFailed, []);
    var last := [BridgeInFailed] + [];
    RunAppend(s0, first, last);
    PlanFreeIsHarmless(s0, first + last);
    RunCons(INIT, plan, first + last);
    run := [plan] + (first + last);
    assert run[1..] == first + last;
    RunSound(INIT, run);
    var bad := ClashIsSpoilt(Run(INIT, run), plan);
  }
}
