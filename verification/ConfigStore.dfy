/**
  The versioned configuration store (packages/shared-types/src/config-store-adapter-impl.ts):
  writes that bump a customer's version, and idempotent replay by request id.
 */
module ConfigStore {
  import opened Wrappers

  datatype Snapshot = Snapshot(
    customerId: string, configVersion: nat, updatedAt: string, allowedChains: seq<string>,
    active: bool, scenario: string, activationThreshold: real)

  datatype Operation = UpsertConfig | UpdateScenario

  datatype IdempotencyRecord = IdempotencyRecord(
    customerId: string, requestId: string, operation: Operation,
    snapshot: Option<Snapshot>, effectiveAt: Option<string>)

  datatype Call =
    | Upsert(customerId: string, requestId: string, timestamp: string,
             allowedChains: seq<string>, active: bool, activationThreshold: real)
    | Scenario(customerId: string, requestId: string, timestamp: string, scenario: string)

  datatype Reply = Reply(snapshot: Option<Snapshot>, effectiveAt: Option<string>, replay: bool)

  datatype Store = Store(snapshots: map<string, Snapshot>, records: map<string, IdempotencyRecord>)

  const EMPTY := Store(map[], map[])

  function OperationOf(call: Call): Operation {
    if call.Upsert? then UpsertConfig else UpdateScenario
  }

  /** The text under which both operations file their idempotency records. */
  function Key(customerId: string, requestId: string): string {
    customerId + "::" + requestId
  }

  function KeyOf(call: Call): string {
    Key(call.customerId, call.requestId)
  }

  function Current(store: Store, customerId: string): Option<Snapshot> {
    if customerId in store.snapshots then Some(store.snapshots[customerId]) else None
  }

  /** The snapshot a call writes; a scenario update without a configuration writes none. */
  function NextSnapshot(call: Call, current: Option<Snapshot>): Option<Snapshot> {
    match call
    case Upsert(customerId, _, timestamp, chains, active, threshold) =>
      Some(Snapshot(customerId, if current.Some? then current.value.configVersion + 1 else 1, timestamp, chains, active,
                    if current.Some? then current.value.scenario else "normal", threshold))
    case Scenario(_, _, timestamp, scenario) =>
      if current.None? then None
      else Some(current.value.(scenario := scenario, configVersion := current.value.configVersion + 1,
          updatedAt := timestamp))
  }

  function EffectiveAt(call: Call, next: Option<Snapshot>): Option<string> {
    if call.Scenario? && next.Some? then Some(call.timestamp) else None
  }

  /** The record under the call's key is of the same operation, so the call is answered from it. */
  predicate Replays(store: Store, call: Call) {
    KeyOf(call) in store.records && store.records[KeyOf(call)].operation == OperationOf(call)
  }

  function Answer(store: Store, call: Call): Reply {
    if Replays(store, call) then
      var record := store.records[KeyOf(call)];
      Reply(record.snapshot, record.effectiveAt, true)
    else
      var next := NextSnapshot(call, Current(store, call.customerId));
      Reply(next, EffectiveAt(call, next), false)
  }

  function After(store: Store, call: Call): Store {
    if Replays(store, call) then store
    else
      var reply := Answer(store, call);
      Store(if reply.snapshot.Some? then store.snapshots[reply.snapshot.value.customerId := reply.snapshot.value]
            else store.snapshots,
            store.records[KeyOf(call) := IdempotencyRecord(call.customerId, call.requestId, OperationOf(call),
                                                           reply.snapshot, reply.effectiveAt)])
  }

  /** What the in-memory database keeps. */
  ghost predicate WellFormed(store: Store) {
    && (forall c | c in store.snapshots :: store.snapshots[c].customerId == c)
    && (forall k | k in store.records && store.records[k].operation == UpsertConfig :: store.records[k].snapshot.Some?)
  }

  class Adapter {
    var snapshotsByCustomer: map<string, Snapshot>
    var idempotencyByKey: map<string, IdempotencyRecord>

    ghost function View(): Store
      reads this
    {
      Store(snapshotsByCustomer, idempotencyByKey)
    }

    constructor ()
      ensures View() == EMPTY
    {
      snapshotsByCustomer, idempotencyByKey := map[], map[];
    }

    /** `None` is the storage error thrown for an upsert record without a snapshot. */
    method Upsert(call: Call) returns (reply: Option<Reply>)
      requires call.Upsert? && WellFormed(View())
      modifies this
      ensures WellFormed(View()) && View() == After(old(View()), call)
      ensures reply == Some(Answer(old(View()), call))
    {
      var key := KeyOf(call);
      if key in idempotencyByKey && idempotencyByKey[key].operation == UpsertConfig {
        var record := idempotencyByKey[key];
        if record.snapshot.None? {
          return None;
        }
        return Some(Reply(record.snapshot, record.effectiveAt, true));
      }
      var current := if call.customerId in snapshotsByCustomer
          then Some(snapshotsByCustomer[call.customerId]) else None;
      var next := NextSnapshot(call, current);
      snapshotsByCustomer := snapshotsByCustomer[next.value.customerId := next.value];
      idempotencyByKey := idempotencyByKey[key := IdempotencyRecord(call.customerId, call.requestId, UpsertConfig,
          next, None)];
      return Some(Reply(next, None, false));
    }

    method UpdateScenario(call: Call) returns (reply: Reply)
      requires call.Scenario? && WellFormed(View())
      modifies this
      ensures WellFormed(View()) && View() == After(old(View()), call)
      ensures reply == Answer(old(View()), call)
    {
      var key := KeyOf(call);
      if key in idempotencyByKey && idempotencyByKey[key].operation == Operation.UpdateScenario {
        var record := idempotencyByKey[key];
        return Reply(record.snapshot, record.effectiveAt, true);
      }
      var current := if call.customerId in snapshotsByCustomer
          then Some(snapshotsByCustomer[call.customerId]) else None;
      var next := NextSnapshot(call, current);
      if next.Some? {
        snapshotsByCustomer := snapshotsByCustomer[next.value.customerId := next.value];
      }
      var effectiveAt := if next.Some? then Some(call.timestamp) else None;
      idempotencyByKey := idempotencyByKey[key :=
        IdempotencyRecord(call.customerId, call.requestId, Operation.UpdateScenario, next, effectiveAt)];
      return Reply(next, effectiveAt, false);
    }
  }

  // ----- Every sequence of calls -----

  function StoreAfter(calls: seq<Call>): Store {
    if calls == [] then EMPTY else After(StoreAfter(calls[..|calls| - 1]), calls[|calls| - 1])
  }

  /** The answer to call `i`. */
  function ReplyTo(calls: seq<Call>, i: nat): Reply
    requires i < |calls|
  {
    Answer(StoreAfter(calls[..i]), calls[i])
  }

  /** How many calls for this customer wrote a snapshot. */
  function Writes(calls: seq<Call>, customerId: string): nat {
    if calls == [] then 0
    else
      var n := |calls| - 1;
      var reply := ReplyTo(calls, n);
      Writes(calls[..n], customerId)
      + (if calls[n].customerId == customerId && !reply.replay && reply.snapshot.Some? then 1 else 0)
  }

  /**
    A customer's version is the number of calls that wrote a snapshot for them: versions
    are gapless from 1, and there is no snapshot before the first write.
   */
  lemma {:induction false} VersionCountsWrites(calls: seq<Call>, customerId: string)
    ensures WellFormed(StoreAfter(calls))
    ensures customerId in StoreAfter(calls).snapshots <==> Writes(calls, customerId) > 0
    ensures customerId in StoreAfter(calls).snapshots ==>
              StoreAfter(calls).snapshots[customerId].configVersion == Writes(calls, customerId)
  {
    if calls != [] {
      var n := |calls| - 1;
      VersionCountsWrites(calls[..n], customerId);
      VersionCountsWrites(calls[..n], calls[n].customerId);
    }
  }

  /** The snapshot a writing call answers with carries the number of writes up to and with it. */
  lemma {:induction false} WriteAnswersItsNumber(calls: seq<Call>, i: nat)
    requires i < |calls| && !ReplyTo(calls, i).replay && ReplyTo(calls, i).snapshot.Some?
    ensures ReplyTo(calls, i).snapshot.value.customerId == calls[i].customerId
    ensures ReplyTo(calls, i).snapshot.value.configVersion == Writes(calls[..i], calls[i].customerId) + 1
  {
    VersionCountsWrites(calls[..i], calls[i].customerId);
  }

  // ----- What a snapshot holds -----

  /** Call `i` wrote a snapshot for the customer. */
  ghost predicate Wrote(calls: seq<Call>, i: nat, customerId: string) {
    i < |calls| && calls[i].customerId == customerId && !ReplyTo(calls, i).replay && ReplyTo(calls, i).snapshot.Some?
  }

  datatype Which = AnyCall | Upserts | Scenarios

  predicate Fits(call: Call, which: Which) {
    which.AnyCall? || (which.Upserts? && call.Upsert?) || (which.Scenarios? && call.Scenario?)
  }

  /** The latest call that wrote for the customer: of any kind, the upserts only, or the scenario updates only. */
  ghost function LatestWriting(calls: seq<Call>, customerId: string, which: Which): (r: Option<Call>)
    ensures r.Some? ==> r.value in calls && r.value.customerId == customerId && Fits(r.value, which)
  {
    if calls == [] then None
    else
      var n := |calls| - 1;
      if Wrote(calls, n, customerId) && Fits(calls[n], which) then Some(calls[n])
      else LatestWriting(calls[..n], customerId, which)
  }

  ghost predicate HoldsLatest(calls: seq<Call>, customerId: string, snapshot: Snapshot) {
    var write, upsert := LatestWriting(calls, customerId, AnyCall), LatestWriting(calls, customerId, Upserts);
    var scenario := LatestWriting(calls, customerId, Scenarios);
    && write.Some? && upsert.Some?
    && snapshot.customerId == customerId && snapshot.updatedAt == write.value.timestamp
    && snapshot.allowedChains == upsert.value.allowedChains && snapshot.active == upsert.value.active
    && snapshot.activationThreshold == upsert.value.activationThreshold
    && snapshot.scenario == (if scenario.Some? then scenario.value.scenario else "normal")
  }

  lemma {:induction false} NothingWritten(calls: seq<Call>, customerId: string, which: Which)
    requires customerId !in StoreAfter(calls).snapshots
    ensures LatestWriting(calls, customerId, which).None?
  {
    if calls != [] {
      VersionCountsWrites(calls, customerId);
      VersionCountsWrites(calls[..|calls| - 1], customerId);
      NothingWritten(calls[..|calls| - 1], customerId, which);
    }
  }

  lemma {:induction false} UnwrittenSame(calls: seq<Call>, customerId: string)
    requires calls != [] && !Wrote(calls, |calls| - 1, customerId)
    ensures Current(StoreAfter(calls), customerId) == Current(StoreAfter(calls[..|calls| - 1]), customerId)
  {
    var n := |calls| - 1;
    VersionCountsWrites(calls[..n], customerId);
    VersionCountsWrites(calls[..n], calls[n].customerId);
  }

  /**
    Over every sequence of calls, a customer's snapshot has the chains, the active flag and the
    threshold of their latest writing upsert, the scenario of their latest writing scenario
    update ("normal" if there is none), and the time of their latest writing call.
   */
  lemma {:induction false} SnapshotHoldsLatest(calls: seq<Call>, customerId: string)
    requires customerId in StoreAfter(calls).snapshots
    ensures HoldsLatest(calls, customerId, StoreAfter(calls).snapshots[customerId])
  {
    var n := |calls| - 1;
    if !Wrote(calls, n, customerId) {
      UnwrittenSame(calls, customerId);
      SnapshotHoldsLatest(calls[..n], customerId);
    } else {
      VersionCountsWrites(calls[..n], customerId);
      if customerId in StoreAfter(calls[..n]).snapshots {
        SnapshotHoldsLatest(calls[..n], customerId);
      } else {
        NothingWritten(calls[..n], customerId, Scenarios);
      }
    }
  }

  /** The reply to a writing call carries the snapshot it wrote and, for a scenario update, its time. */
  lemma {:induction false} WriteAnswersSnapshot(calls: seq<Call>, i: nat)
    requires i < |calls| && Wrote(calls, i, calls[i].customerId)
    ensures calls[i].customerId in StoreAfter(calls[..i + 1]).snapshots
    ensures ReplyTo(calls, i).snapshot == Some(StoreAfter(calls[..i + 1]).snapshots[calls[i].customerId])
    ensures ReplyTo(calls, i).effectiveAt == if calls[i].Scenario? then Some(calls[i].timestamp) else None
    ensures HoldsLatest(calls[..i + 1], calls[i].customerId, ReplyTo(calls, i).snapshot.value)
  {
    assert calls[..i + 1][..i] == calls[..i];
    VersionCountsWrites(calls[..i], calls[i].customerId);
    SnapshotHoldsLatest(calls[..i + 1], calls[i].customerId);
  }

  /** A call that is no replay writes, unless it is a scenario update of a customer nobody has written for. */
  lemma {:induction false} WritesExactly(calls: seq<Call>, i: nat)
    requires i < |calls| && !ReplyTo(calls, i).replay
    ensures Wrote(calls, i, calls[i].customerId) <==> calls[i].Upsert? || Writes(calls[..i], calls[i].customerId) > 0
    ensures !Wrote(calls, i, calls[i].customerId) ==> ReplyTo(calls, i) == Reply(None, None, false)
  {
    VersionCountsWrites(calls[..i], calls[i].customerId);
  }

  /** A replay leaves the store as it is. */
  lemma {:induction false} ReplayChangesNothing(calls: seq<Call>, i: nat)
    requires i < |calls| && ReplyTo(calls, i).replay
    ensures StoreAfter(calls[..i + 1]) == StoreAfter(calls[..i])
  {
    assert calls[..i + 1][..i] == calls[..i];
  }

  // ----- What a replay answers -----

  /** Call `i` is the latest before `j` that files under the same key. */
  ghost predicate LatestWithKey(calls: seq<Call>, i: nat, j: nat)
    requires j < |calls|
  {
    i < j && KeyOf(calls[i]) == KeyOf(calls[j])
    && forall k | i < k < j :: KeyOf(calls[k]) != KeyOf(calls[j])
  }

  /** The record under a key holds the operation and the answer of the latest call with that key. */
  lemma {:induction false} RecordOfLatest(calls: seq<Call>, i: nat, n: nat)
    requires i < n <= |calls|
    requires forall k | i < k < n :: KeyOf(calls[k]) != KeyOf(calls[i])
    ensures var records := StoreAfter(calls[..n]).records;
            && KeyOf(calls[i]) in records
            && records[KeyOf(calls[i])].operation == OperationOf(calls[i])
            && records[KeyOf(calls[i])].snapshot == ReplyTo(calls, i).snapshot
            && records[KeyOf(calls[i])].effectiveAt == ReplyTo(calls, i).effectiveAt
    decreases n
  {
    assert calls[..n][..n - 1] == calls[..n - 1];
    if i < n - 1 {
      RecordOfLatest(calls, i, n - 1);
    }
  }

  lemma {:induction false} NoRecordBeforeFirst(calls: seq<Call>, n: nat, key: string)
    requires n <= |calls| && forall k | 0 <= k < n :: KeyOf(calls[k]) != key
    ensures key !in StoreAfter(calls[..n]).records
  {
    if n > 0 {
      assert calls[..n][..n - 1] == calls[..n - 1];
      NoRecordBeforeFirst(calls, n - 1, key);
    }
  }

  /**
    A call is a replay exactly when the latest earlier call under its key was the same
    operation, and then it is answered with that call's snapshot and effective time.
   */
  lemma {:induction false} ReplayExactly(calls: seq<Call>, i: nat, j: nat)
    requires j < |calls| && LatestWithKey(calls, i, j)
    ensures ReplyTo(calls, j).replay <==> OperationOf(calls[i]) == OperationOf(calls[j])
    ensures ReplyTo(calls, j).replay ==>
              ReplyTo(calls, j).snapshot == ReplyTo(calls, i).snapshot
              && ReplyTo(calls, j).effectiveAt == ReplyTo(calls, i).effectiveAt
  {
    RecordOfLatest(calls, i, j);
  }

  /** No joined key stands for two different operations, whoever the customers are. */
  ghost predicate KeysUsedConsistently(calls: seq<Call>) {
    forall i, j | 0 <= i < j < |calls| && KeyOf(calls[i]) == KeyOf(calls[j]) ::
        OperationOf(calls[i]) == OperationOf(calls[j])
  }

  /**
    While that holds, every later call with a request's key repeats the first call's answer,
    which is a snapshot of the first caller.
   */
  lemma {:induction false} ReplayRepeatsFirst(calls: seq<Call>, first: nat, j: nat)
    requires first < j < |calls| && KeysUsedConsistently(calls) && KeyOf(calls[first]) == KeyOf(calls[j])
    requires forall k | 0 <= k < first :: KeyOf(calls[k]) != KeyOf(calls[j])
    ensures !ReplyTo(calls, first).replay
    ensures ReplyTo(calls, j) == ReplyTo(calls, first).(replay := true)
    ensures ReplyTo(calls, j).snapshot.Some? ==> ReplyTo(calls, j).snapshot.value.customerId == calls[first].customerId
    decreases j
  {
    NoRecordBeforeFirst(calls, first, KeyOf(calls[first]));
    OwnWrite(calls, first);
    var i := LatestIndex(calls, first, j);
    ReplayExactly(calls, i, j);
    if first < i {
      ReplayRepeatsFirst(calls, first, i);
    }
  }

  lemma {:induction false} OwnWrite(calls: seq<Call>, i: nat)
    requires i < |calls| && !ReplyTo(calls, i).replay
    ensures ReplyTo(calls, i).snapshot.Some? ==> ReplyTo(calls, i).snapshot.value.customerId == calls[i].customerId
  {
    if ReplyTo(calls, i).snapshot.Some? {
      WriteAnswersItsNumber(calls, i);
    }
  }

  lemma {:induction false} LatestIndex(calls: seq<Call>, first: nat, j: nat) returns (i: nat)
    requires first < j < |calls| && KeyOf(calls[first]) == KeyOf(calls[j])
    ensures first <= i && LatestWithKey(calls, i, j)
  {
    i := j - 1;
    while KeyOf(calls[i]) != KeyOf(calls[j])
      invariant first <= i < j && forall k | i < k < j :: KeyOf(calls[k]) != KeyOf(calls[j])
      decreases i
    {
      i := i - 1;
    }
  }

  /** A request id reused for the other operation makes a repeated upsert write again. */
  lemma {:induction false} ReusedRequestIdWritesAgain(c: string, r: string, t: string)
    ensures var calls := [Upsert(c, r, t, [], true, 0.5), Scenario(c, r, t, "congested"), Upsert(c, r, t, [], true,
            0.5)];
            !ReplyTo(calls, 2).replay && calls[2] == calls[0]
  {
    var calls := [Upsert(c, r, t, [], true, 0.5), Scenario(c, r, t, "congested"), Upsert(c, r, t, [], true, 0.5)];
    ReplayExactly(calls, 0, 1);
    ReplayExactly(calls, 1, 2);
  }

  // ----- Whose snapshot a reply carries -----

  /** Call `i` wrote the record from which call `j` would be answered. */
  ghost predicate Recorder(calls: seq<Call>, i: nat, j: nat)
    requires j < |calls|
  {
    i < j && KeyOf(calls[i]) == KeyOf(calls[j]) && !ReplyTo(calls, i).replay
    && forall k: nat | i < k < j && KeyOf(calls[k]) == KeyOf(calls[j]) :: ReplyTo(calls, k).replay
  }

  lemma {:induction false} RecordKept(calls: seq<Call>, i: nat, n: nat)
    requires i < n <= |calls| && !ReplyTo(calls, i).replay
    requires forall k: nat | i < k < n && KeyOf(calls[k]) == KeyOf(calls[i]) :: ReplyTo(calls, k).replay
    ensures var records := StoreAfter(calls[..n]).records;
            KeyOf(calls[i]) in records && records[KeyOf(calls[i])].snapshot == ReplyTo(calls, i).snapshot
    decreases n
  {
    assert calls[..n][..n - 1] == calls[..n - 1];
    if i < n - 1 {
      RecordKept(calls, i, n - 1);
    }
  }

  lemma {:induction false} RecordsGrow(calls: seq<Call>, n: nat, key: string)
    requires 0 < n <= |calls| && key in StoreAfter(calls[..n]).records
    ensures key in StoreAfter(calls[..n - 1]).records || (KeyOf(calls[n - 1]) == key && !ReplyTo(calls, n - 1).replay)
  {
    assert calls[..n][..n - 1] == calls[..n - 1];
  }

  lemma {:induction false} RecorderOf(calls: seq<Call>, n: nat, key: string) returns (i: nat)
    requires 0 < n <= |calls| && key in StoreAfter(calls[..n]).records
    ensures i < n && KeyOf(calls[i]) == key && !ReplyTo(calls, i).replay
    ensures forall k: nat | i < k < n && KeyOf(calls[k]) == key :: ReplyTo(calls, k).replay
  {
    RecordsGrow(calls, n, key);
    if KeyOf(calls[n - 1]) == key && !ReplyTo(calls, n - 1).replay {
      i := n - 1;
    } else {
      assert n > 1 by {
        assert calls[..0] == [];
      }
      i := RecorderOf(calls, n - 1, key);
    }
  }

  /**
    A reply with a snapshot carries the caller's own if and only if the call was no replay or
    the call that wrote the record it was answered from came from the same customer.
   */
  lemma {:induction false} OwnSnapshotExactly(calls: seq<Call>, j: nat)
    requires j < |calls| && ReplyTo(calls, j).snapshot.Some?
    ensures ReplyTo(calls, j).snapshot.value.customerId == calls[j].customerId
            <==> !ReplyTo(calls, j).replay
                    || exists i: nat :: Recorder(calls, i, j) && calls[i].customerId == calls[j].customerId
  {
    if ReplyTo(calls, j).replay {
      var i := RecorderOf(calls, j, KeyOf(calls[j]));
      RecordKept(calls, i, j);
      OwnWrite(calls, i);
      assert Recorder(calls, i, j);
      forall k | Recorder(calls, k, j) ensures k == i {
        SameRecorder(calls, i, k, j);
      }
    } else {
      OwnWrite(calls, j);
    }
  }

  lemma {:induction false} SameRecorder(calls: seq<Call>, i: nat, k: nat, j: nat)
    requires j < |calls| && Recorder(calls, i, j) && Recorder(calls, k, j)
    ensures i == k
  {
  }

  // ----- When keys collide -----

  /**
    Two requests share a key if and only if one customer id continues the other by some text
    that, with the separator, begins the other's separator and request id.
   */
  lemma {:induction false} KeysCollideExactly(c: string, r: string, c': string, r': string)
    requires |c| <= |c'|
    ensures Key(c, r) == Key(c', r') <==> c <= c' && "::" + r == c'[|c|..] + "::" + r'
  {
    if Key(c, r) == Key(c', r') {
      var key := Key(c, r);
      assert key[..|c|] == c && Key(c', r')[..|c|] == c'[..|c|];
      assert key[|c|..] == "::" + r && Key(c', r')[|c|..] == c'[|c|..] + "::" + r';
    }
    if c <= c' && "::" + r == c'[|c|..] + "::" + r' {
      assert c' == c + c'[|c|..];
      assert Key(c, r) == c + ("::" + r);
      assert Key(c', r') == c + (c'[|c|..] + "::" + r');
    }
  }

  /** What makes two different customer ids able to share a key: the longer goes on with ":" alone or with "::". */
  predicate Continues(c: string, c': string) {
    c <= c' && (c'[|c|..] == ":" || "::" <= c'[|c|..])
  }

  lemma {:induction false} ContinuedCollide(c: string, c': string) returns (r: string, r': string)
    requires Continues(c, c')
    ensures Key(c, r) == Key(c', r')
  {
    var x := c'[|c|..];
    r' := "";
    if x == ":" {
      r := ":";
      assert "::" + r == x + "::" + r';
    } else {
      r := x[2..] + "::";
      assert x == "::" + x[2..];
      assert "::" + r == x + "::" + r';
    }
    KeysCollideExactly(c, r, c', r');
  }

  lemma {:induction false} CollidingContinue(c: string, r: string, c': string, r': string)
    requires |c| < |c'| && Key(c, r) == Key(c', r')
    ensures Continues(c, c')
  {
    KeysCollideExactly(c, r, c', r');
    var x := c'[|c|..];
    var left, right := "::" + r, x + "::" + r';
    assert left[0] == ':' && left[1] == ':' && right[0] == x[0];
    if |x| == 1 {
      assert x == ":";
    } else {
      assert right[1] == x[1];
      assert x[..2] == "::";
    }
  }

  /** Two different customers can be given colliding requests if and only if one id continues the other so. */
  lemma {:induction false} CustomersCollideExactly(c: string, c': string)
    requires c != c'
    ensures (exists r, r' :: Key(c, r) == Key(c', r')) <==> Continues(c, c') || Continues(c', c)
  {
    if r, r' :| Key(c, r) == Key(c', r') {
      if |c| < |c'| {
        CollidingContinue(c, r, c', r');
      } else if |c'| < |c| {
        CollidingContinue(c', r', c, r);
      } else {
        KeysCollideExactly(c, r, c', r');
      }
    }
    if Continues(c, c') {
      var r, r' := ContinuedCollide(c, c');
    } else if Continues(c', c) {
      var r', r := ContinuedCollide(c', c);
    }
  }

  /** No customer id of the calls continues another. */
  ghost predicate IdsKeepApart(calls: seq<Call>) {
    forall i, j | 0 <= i < |calls| && 0 <= j < |calls| && calls[i].customerId != calls[j].customerId ::
      !Continues(calls[i].customerId, calls[j].customerId)
  }

  /** Then every reply with a snapshot carries the caller's own. */
  lemma {:induction false} NoStrangersSnapshot(calls: seq<Call>, j: nat)
    requires IdsKeepApart(calls) && j < |calls| && ReplyTo(calls, j).snapshot.Some?
    ensures ReplyTo(calls, j).snapshot.value.customerId == calls[j].customerId
  {
    OwnSnapshotExactly(calls, j);
    if ReplyTo(calls, j).replay {
      var i := RecorderOf(calls, j, KeyOf(calls[j]));
      assert Recorder(calls, i, j);
      var c, c' := calls[i].customerId, calls[j].customerId;
      if c != c' {
        assert Key(c, calls[i].requestId) == Key(c', calls[j].requestId);
        CustomersCollideExactly(c, c');
      }
    }
  }

  /** In particular when no customer id contains a colon. */
  lemma {:induction false} NoColonKeepsApart(calls: seq<Call>)
    requires forall i | 0 <= i < |calls| :: ':' !in calls[i].customerId
    ensures IdsKeepApart(calls)
  {
    forall i, j | 0 <= i < |calls| && 0 <= j < |calls| && calls[i].customerId != calls[j].customerId
      ensures !Continues(calls[i].customerId, calls[j].customerId)
    {
      var c, c' := calls[i].customerId, calls[j].customerId;
      if c <= c' && c != c' {
        assert c'[|c|] == c'[|c|..][0] && c'[|c|] in c';
      }
    }
  }

  /**
    Whenever two customers' requests collide, the second gets the first one's answer, and gets
    it again however often they ask.
   */
  lemma {:induction false} CollidingKeysLeakReply(t: string, c: string, r: string, c': string, r': string)
    requires c != c' && Key(c, r) == Key(c', r')
    ensures var calls := [Upsert(c, r, t, [], true, 0.5), Upsert(c', r', t, [], true, 0.5), Upsert(c', r', t, [],
            true, 0.5)];
            && ReplyTo(calls, 1).snapshot.Some? && ReplyTo(calls, 1).snapshot.value.customerId == c
            && ReplyTo(calls, 2).snapshot.Some? && ReplyTo(calls, 2).snapshot.value.customerId == c
  {
    var calls := [Upsert(c, r, t, [], true, 0.5), Upsert(c', r', t, [], true, 0.5), Upsert(c', r', t, [], true, 0.5)];
    ReplayRepeatsFirst(calls, 0, 1);
    ReplayRepeatsFirst(calls, 0, 2);
    assert ReplyTo(calls, 0).snapshot.Some?;
  }
}
