/**
  The account indexer (services/treasury/src/account_index.rs): parsing logs into rows,
  idempotent ingestion, the block cursor, and the home-chain notification.
 */
module AccountIndex {
  import opened Wrappers
  import opened Scans
  import opened ByteStrings
  import opened Hex
  import opened Addresses
  import opened AccountEvents

  // ----- Parsing -----

  datatype IndexLog = IndexLog(tx: string, logIndex: int, block: nat, topics: seq<string>, data: string)

  function TopicToAddress(topic: string): Option<string> {
    match DecodeHex(topic)
    case Some(raw) => if |raw| < 32 then None else Some("0x" + BytesToHex(raw[12..32]))
    case None => None
  }

  function AmountOf(data: string, minimum: nat): Option<nat> {
    match DecodeHex(data)
    case Some(raw) => if |raw| < 32 || |raw| < minimum then None else Some(FromBe(raw[0..32]))
    case None => None
  }

  function EventHashOf(data: string): Option<string> {
    match DecodeHex(data)
    case Some(raw) => if |raw| < 96 then None else Some("0x" + BytesToHex(raw[64..96]))
    case None => None
  }

  /** `parse_deposited`, `parse_withdrawn`, `parse_hot_path_initiated`, `parse_hot_path_released`, by event kind. */
  function ParseBankLog(log: IndexLog, kind: EventKind, chain: ChainId, time: Option<int>): Option<EventRow>
    requires kind != Transfer
  {
    var row := (from: Option<string>, to: Option<string>, amount: nat, correlation: Option<string>) =>
      Some(EventRow(chain, log.tx, log.logIndex, kind, from, to, amount, log.block, time, correlation));
    match kind
    case Deposited =>
      if |log.topics| < 2 then None
      else (match (TopicToAddress(log.topics[1]), AmountOf(log.data, 32))
            case (Some(user), Some(amount)) => row(None, Some(user), amount, None)
            case _ => None)
    case Withdrawn =>
      if |log.topics| < 2 then None
      else (match (TopicToAddress(log.topics[1]), AmountOf(log.data, 32))
            case (Some(user), Some(amount)) => row(Some(user), None, amount, None)
            case _ => None)
    case HotPathInitiated =>
      if |log.topics| < 3 then None
      else (match (TopicToAddress(log.topics[1]), TopicToAddress(log.topics[2]), AmountOf(log.data, 96))
            case (Some(sender), Some(recipient), Some(amount)) =>
              row(Some(sender), Some(recipient), amount, EventHashOf(log.data))
            case _ => None)
    case HotPathReleased =>
      if |log.topics| < 3 then None
      else (match (TopicToAddress(log.topics[1]), AmountOf(log.data, 32))
            case (Some(recipient), Some(amount)) => row(None, Some(recipient), amount, Some(log.topics[2]))
            case _ => None)
  }

  /** Token transfers to or from the Bank itself are not user transfers. */
  function ParseTransferLog(log: IndexLog, chain: ChainId, time: Option<int>, bank: string): Option<EventRow> {
    if |log.topics| < 3 then None
    else
      match (TopicToAddress(log.topics[1]), TopicToAddress(log.topics[2]), AmountOf(log.data, 32))
      case (Some(from), Some(to), Some(amount)) =>
        if Lower(from) == Lower(bank) || Lower(to) == Lower(bank) then None
        else Some(EventRow(chain, log.tx, log.logIndex, Transfer, Some(from), Some(to), amount, log.block, time, None))
      case _ => None
  }

  predicate LowerCase(a: Option<string>) {
    a.Some? ==> Lower(a.value) == a.value
  }

  lemma {:induction false} HexIsLowerCase(bs: Bytes)
    ensures Lower("0x" + BytesToHex(bs)) == "0x" + BytesToHex(bs)
  {
    HexDigitsOnly(bs);
  }

  lemma {:induction false} HexDigitsOnly(bs: Bytes)
    ensures forall i | 0 <= i < |BytesToHex(bs)| ::
            BytesToHex(bs)[i] in DIGITS && LowerChar(BytesToHex(bs)[i]) == BytesToHex(bs)[i]
  {
    if bs != [] {
      HexDigitsOnly(bs[1..]);
      assert DIGITS[bs[0] / 16] in DIGITS && DIGITS[bs[0] % 16] in DIGITS;
      DigitIsLower(bs[0] / 16);
      DigitIsLower(bs[0] % 16);
    }
  }

  lemma {:induction false} DigitIsLower(v: nat)
    requires v < 16
    ensures LowerChar(Digit(v)) == Digit(v)
  {
  }

  lemma {:induction false} TopicAddressIsLower(topic: string)
    ensures LowerCase(TopicToAddress(topic))
  {
    if DecodeHex(topic).Some? && |DecodeHex(topic).value| >= 32 {
      HexIsLowerCase(DecodeHex(topic).value[12..32]);
    }
  }

  /** Every parsed row names the addresses its kind needs, in lower case. */
  lemma {:induction false} ParsedRows(log: IndexLog, kind: EventKind, chain: ChainId, time: Option<int>, bank: string)
    ensures var row := if kind == Transfer then ParseTransferLog(log, chain, time, bank)
            else ParseBankLog(log, kind, chain, time);
            row.Some? ==>
              && row.value.kind == kind && row.value.chain == chain
              && KeyOf(row.value) == Key(chain, log.tx, log.logIndex)
              && Parsed(row.value) && LowerCase(row.value.from) && LowerCase(row.value.to)
  {
    if |log.topics| >= 2 {
      TopicAddressIsLower(log.topics[1]);
    }
    if |log.topics| >= 3 {
      TopicAddressIsLower(log.topics[2]);
    }
  }

  // ----- Ingestion -----

  datatype Push = Push(user: string, chain: ChainId)

  /** Newly inserted, and the first deposit of its user. */
  predicate ShouldPushHomeChain(table: Table, row: EventRow) {
    row.kind == Deposited && row.to.Some? && !HasKey(table, KeyOf(row)) && !HasDeposit(table, row.to.value)
  }

  function UpsertAll(table: Table, rows: seq<EventRow>): Table {
    if rows == [] then table else Upserted(UpsertAll(table, rows[..|rows| - 1]), rows[|rows| - 1])
  }

  function PushOf(table: Table, row: EventRow): seq<Push> {
    if ShouldPushHomeChain(table, row) then [Push(row.to.value, row.chain)] else []
  }

  /** The notifications for rows ingested one after the other. */
  function PushesOf(table: Table, rows: seq<EventRow>): seq<Push> {
    if rows == [] then []
    else PushesOf(table, rows[..|rows| - 1]) + PushOf(UpsertAll(table, rows[..|rows| - 1]), rows[|rows| - 1])
  }

  const MAX_BLOCK_RANGE: nat := 2_000

  /** First block of the next query; it is never above the head. */
  function ScanFrom(cursor: Option<nat>, indexFrom: nat, head: nat): (from: nat)
    ensures from <= head
  {
    Max(Min(if cursor.Some? then cursor.value else indexFrom, head), head - MAX_BLOCK_RANGE)
  }

  class Indexer {
    var table: Table
    var cursors: map<ChainId, nat>
    /** Calls of `push_home_chain`, oldest first. */
    var pushes: seq<Push>

    constructor ()
      ensures table == [] && cursors == map[] && pushes == []
    {
      table, cursors, pushes := [], map[], [];
    }

    method UpsertEvent(row: EventRow) returns (inserted: bool)
      modifies this`table
      ensures table == Upserted(old(table), row)
      ensures inserted <==> !HasKey(old(table), KeyOf(row))
    {
      inserted := !HasKey(table, KeyOf(row));
      if inserted {
        table := table + [row];
      }
    }

    method IngestRow(row: EventRow)
      modifies this`table, this`pushes
      ensures table == Upserted(old(table), row)
      ensures pushes == old(pushes) + PushOf(old(table), row)
    {
      var userForHome := if row.kind == Deposited then row.to else None;
      var shouldSetHome := userForHome.Some? && !HasDeposit(table, userForHome.value);
      var inserted := UpsertEvent(row);
      if inserted && shouldSetHome {
        pushes := pushes + [Push(userForHome.value, row.chain)];
      }
    }

    /** A call of `index_chain` that dies after storing some of its rows: the cursor stays where it was. */
    method IndexChainInterrupted(chain: ChainId, indexFrom: nat, toBlock: nat, rows: seq<EventRow>)
        returns (scanFrom: nat)
      modifies this`table, this`pushes
      ensures scanFrom == ScanFrom(if chain in cursors then Some(cursors[chain]) else None, indexFrom, toBlock)
      ensures table == UpsertAll(old(table), rows)
      ensures pushes == old(pushes) + PushesOf(old(table), rows)
    {
      scanFrom := Min(if chain in cursors then cursors[chain] else indexFrom, toBlock);
      scanFrom := Max(scanFrom, toBlock - MAX_BLOCK_RANGE);
      for i := 0 to |rows|
        invariant table == UpsertAll(old(table), rows[..i])
        invariant pushes == old(pushes) + PushesOf(old(table), rows[..i])
      {
        assert rows[..i + 1][..i] == rows[..i];
        IngestRow(rows[i]);
      }
      assert rows[..|rows|] == rows;
    }

    /** `index_chain`, given the rows parsed from the logs of the queried range. */
    method IndexChain(chain: ChainId, indexFrom: nat, toBlock: nat, rows: seq<EventRow>) returns (scanFrom: nat)
      modifies this
      ensures scanFrom == ScanFrom(if chain in old(cursors) then Some(old(cursors)[chain])
              else None, indexFrom, toBlock)
      ensures table == UpsertAll(old(table), rows)
      ensures pushes == old(pushes) + PushesOf(old(table), rows)
      ensures cursors == old(cursors)[chain := toBlock + 1]
    {
      scanFrom := IndexChainInterrupted(chain, indexFrom, toBlock, rows);
      cursors := cursors[chain := toBlock + 1];
    }

    /** The calls of `index_chain` for one chain from its first on, with the rows each stored. */
    method IndexPasses(chain: ChainId, indexFrom: nat, calls: seq<IndexCall>, stored: seq<seq<EventRow>>)
      returns (froms: seq<nat>)
      requires chain !in cursors && |stored| == |calls|
      modifies this
      ensures froms == Froms(indexFrom, calls)
      ensures cursors == if CursorAfter(calls).None? then old(cursors)
              else old(cursors)[chain := CursorAfter(calls).value]
    {
      froms := [];
      for i := 0 to |calls|
        invariant froms == Froms(indexFrom, calls)[..i]
        invariant cursors == if CursorAfter(calls[..i]).None? then old(cursors)
                             else old(cursors)[chain := CursorAfter(calls[..i]).value]
      {
        assert calls[..i + 1][..i] == calls[..i];
        var from;
        if calls[i].completed {
          from := IndexChain(chain, indexFrom, calls[i].head, stored[i]);
        } else {
          from := IndexChainInterrupted(chain, indexFrom, calls[i].head, stored[i]);
        }
        assert from == FromAt(indexFrom, calls, i);
        froms := froms + [from];
      }
      assert calls[..|calls|] == calls;
    }
  }

  // ----- Re-ingestion -----

  lemma {:induction false} UpsertAllKeys(table: Table, rows: seq<EventRow>, key: Key)
    ensures HasKey(UpsertAll(table, rows), key)
            <==> HasKey(table, key) || exists i | 0 <= i < |rows| :: KeyOf(rows[i]) == key
  {
    if rows != [] {
      var init, row := rows[..|rows| - 1], rows[|rows| - 1];
      UpsertAllKeys(table, init, key);
      var t := UpsertAll(table, init);
      assert HasKey(Upserted(t, row), key) <==> HasKey(t, key) || KeyOf(row) == key by {
        if !HasKey(t, KeyOf(row)) {
          assert (t + [row])[|t|] == row;
          if HasKey(t, key) {
            var k :| 0 <= k < |t| && KeyOf(t[k]) == key;
            assert (t + [row])[k] == t[k];
          }
        }
      }
      if HasKey(table, key) || exists i | 0 <= i < |init| :: KeyOf(init[i]) == key {
        assert forall i | 0 <= i < |init| :: init[i] == rows[i];
      }
      assert KeyOf(row) == KeyOf(rows[|rows| - 1]);
    }
  }

  lemma {:induction false} KnownRowsChangeNothing(table: Table, rows: seq<EventRow>)
    requires forall i | 0 <= i < |rows| :: HasKey(table, KeyOf(rows[i]))
    ensures UpsertAll(table, rows) == table
  {
    if rows != [] {
      KnownRowsChangeNothing(table, rows[..|rows| - 1]);
    }
  }

  /**
    Ingesting a range again, in any order and any number of its rows, changes no row and so
    no balance.
   */
  lemma {:induction false} ReingestionIsNeutral(table: Table, rows: seq<EventRow>, again: seq<EventRow>,
      chain: ChainId, user: string)
    requires forall i | 0 <= i < |again| :: again[i] in rows
    ensures UpsertAll(UpsertAll(table, rows), again) == UpsertAll(table, rows)
    ensures Balance(UpsertAll(UpsertAll(table, rows), again), chain, user)
            == Balance(UpsertAll(table, rows), chain, user)
  {
    forall i | 0 <= i < |again| ensures HasKey(UpsertAll(table, rows), KeyOf(again[i])) {
      var k :| 0 <= k < |rows| && rows[k] == again[i];
      UpsertAllKeys(table, rows, KeyOf(again[i]));
      assert KeyOf(rows[k]) == KeyOf(again[i]);
    }
    KnownRowsChangeNothing(UpsertAll(table, rows), again);
  }

  /** Ingesting parsed rows keeps the table one of parsed rows, to which the balance laws apply. */
  lemma {:induction false} IndexedTableIsParsed(table: Table, rows: seq<EventRow>)
    requires AllParsed(table) && AllParsed(rows)
    ensures AllParsed(UpsertAll(table, rows))
  {
    if rows != [] {
      IndexedTableIsParsed(table, rows[..|rows| - 1]);
    }
  }

  // ----- Which blocks are queried and which are ingested -----

  /** One call of `index_chain`; only a completed one gets to move the cursor. */
  datatype IndexCall = IndexCall(head: nat, completed: bool)

  function Heads(calls: seq<IndexCall>): (r: seq<nat>)
    ensures |r| == |calls| && forall i: nat | i < |calls| :: r[i] == calls[i].head
  {
    seq(|calls|, i requires 0 <= i < |calls| => calls[i].head)
  }

  /** The cursor after these calls: behind the head of the last completed one. It outlives restarts. */
  function CursorAfter(calls: seq<IndexCall>): Option<nat> {
    if calls == [] then None
    else
      var last := calls[|calls| - 1];
      if last.completed then Some(last.head + 1) else CursorAfter(calls[..|calls| - 1])
  }

  /** The first block that call `i` queries. */
  function FromAt(indexFrom: nat, calls: seq<IndexCall>, i: nat): nat
    requires i < |calls|
  {
    ScanFrom(CursorAfter(calls[..i]), indexFrom, calls[i].head)
  }

  function Froms(indexFrom: nat, calls: seq<IndexCall>): (r: seq<nat>)
    ensures |r| == |calls| && forall i: nat | i < |calls| :: r[i] == FromAt(indexFrom, calls, i)
  {
    seq(|calls|, i requires 0 <= i < |calls| => FromAt(indexFrom, calls, i))
  }

  /**
    A call goes on behind the head of the last completed call, or from the configured block if
    there is none; from the head itself when that lies further on, and never more than 2000
    blocks back.
   */
  lemma {:induction false} QueryStarts(indexFrom: nat, calls: seq<IndexCall>, i: nat, last: nat)
    requires last < i < |calls| && calls[last].completed && forall j | last < j < i :: !calls[j].completed
    ensures FromAt(indexFrom, calls, i)
         == Max(Min(calls[last].head + 1, calls[i].head), calls[i].head - 2_000)
    ensures FromAt(indexFrom, calls, 0) == Max(Min(indexFrom, calls[0].head), calls[0].head - 2_000)
  {
    CursorOfLast(calls, i, last);
  }

  lemma {:induction false} CursorOfLast(calls: seq<IndexCall>, i: nat, last: nat)
    requires last < i <= |calls| && calls[last].completed && forall j | last < j < i :: !calls[j].completed
    ensures CursorAfter(calls[..i]) == Some(calls[last].head + 1)
  {
    assert calls[..i][..i - 1] == calls[..i - 1];
    if last < i - 1 {
      CursorOfLast(calls, i - 1, last);
    }
  }

  lemma {:induction false} CursorBehindFrontier(calls: seq<IndexCall>, i: nat)
    requires 0 < i <= |calls| && NonDecreasing(Heads(calls)) && CursorAfter(calls[..i]).Some?
    ensures CursorAfter(calls[..i]).value <= calls[i - 1].head + 1
  {
    assert calls[..i][..i - 1] == calls[..i - 1];
    if !calls[i - 1].completed && i > 1 {
      CursorBehindFrontier(calls, i - 1);
      assert Heads(calls)[i - 2] <= Heads(calls)[i - 1];
    }
  }

  lemma {:induction false} IndexScans(indexFrom: nat, calls: seq<IndexCall>)
    requires calls != [] && NonDecreasing(Heads(calls))
    ensures ScansFrom(indexFrom, Heads(calls), MAX_BLOCK_RANGE, Froms(indexFrom, calls))
  {
    var heads := Heads(calls);
    forall i: nat | i < |calls|
      ensures ScansOne(FrontierAt(indexFrom, heads, i), heads[i], MAX_BLOCK_RANGE, Froms(indexFrom, calls)[i])
    {
      if i > 0 && CursorAfter(calls[..i]).Some? {
        CursorBehindFrontier(calls, i);
      }
    }
  }

  /**
    Over all restarts, completed and interrupted calls alike, with heads that never decrease:
    every block from the configured start to the last head is queried if and only if no head
    ran ahead of all earlier ones by more than the range cap.
   */
  lemma {:induction false} BlocksQueriedExactly(indexFrom: nat, calls: seq<IndexCall>)
    requires calls != [] && NonDecreasing(Heads(calls))
    ensures AllCovered(indexFrom, Froms(indexFrom, calls), Heads(calls))
            <==> KeepsUp(indexFrom, Heads(calls), 2_000)
  {
    IndexScans(indexFrom, calls);
    AllCoveredExactly(indexFrom, Heads(calls), MAX_BLOCK_RANGE, Froms(indexFrom, calls));
  }

  /** The blocks that no call ever queries are those some call skipped. */
  lemma {:induction false} BlocksNotQueriedExactly(indexFrom: nat, calls: seq<IndexCall>, b: nat)
    requires calls != [] && NonDecreasing(Heads(calls)) && indexFrom <= b <= Heads(calls)[|calls| - 1]
    ensures !Covered(Froms(indexFrom, calls), Heads(calls), b)
            <==> exists i :: SkippedAt(indexFrom, Heads(calls), 2_000, i, b)
  {
    IndexScans(indexFrom, calls);
    MissedExactly(indexFrom, Heads(calls), MAX_BLOCK_RANGE, Froms(indexFrom, calls), b);
  }

  // A call that dies may leave its rows behind unstored, so a block is surely ingested only by
  // a completed call. Interrupted calls leave no trace in the ranges of completed ones.

  function Completed(calls: seq<IndexCall>): seq<IndexCall> {
    if calls == [] then []
    else
      Completed(calls[..|calls| - 1]) + (if calls[|calls| - 1].completed then [calls[|calls| - 1]] else [])
  }

  lemma {:induction false} CursorOfCompleted(calls: seq<IndexCall>)
    ensures CursorAfter(Completed(calls)) == CursorAfter(calls)
  {
    if calls != [] {
      var n := |calls| - 1;
      CursorOfCompleted(calls[..n]);
      var before := Completed(calls[..n]);
      assert (before + [calls[n]])[..|before|] == before && before + [] == before;
    }
  }

  /** The ranges of the completed calls, in order. */
  function CompletedRanges(indexFrom: nat, calls: seq<IndexCall>): seq<(nat, nat)> {
    if calls == [] then []
    else
      var n := |calls| - 1;
      CompletedRanges(indexFrom, calls[..n])
      + (if calls[n].completed then [(FromAt(indexFrom, calls, n), calls[n].head)] else [])
  }

  lemma {:induction false} InterruptedLeaveNoTrace(indexFrom: nat, calls: seq<IndexCall>)
    ensures CompletedRanges(indexFrom, calls) == CompletedRanges(indexFrom, Completed(calls))
  {
    if calls != [] {
      var n := |calls| - 1;
      InterruptedLeaveNoTrace(indexFrom, calls[..n]);
      CursorOfCompleted(calls[..n]);
      var before, ranges := Completed(calls[..n]), CompletedRanges(indexFrom, calls[..n]);
      assert before + [] == before && ranges + [] == ranges;
      if calls[n].completed {
        var all := before + [calls[n]];
        assert all[..|all| - 1] == before && all[|all| - 1] == calls[n];
      }
    }
  }

  lemma {:induction false} PrefixFrom(indexFrom: nat, calls: seq<IndexCall>, n: nat, i: nat)
    requires i < n <= |calls|
    ensures FromAt(indexFrom, calls[..n], i) == FromAt(indexFrom, calls, i)
  {
    assert calls[..n][..i] == calls[..i];
  }

  lemma {:induction false} RangeOfCompleted(indexFrom: nat, calls: seq<IndexCall>, i: nat)
    requires i < |calls| && forall k: nat | k < |calls| :: calls[k].completed
    ensures |CompletedRanges(indexFrom, calls)| == |calls|
    ensures CompletedRanges(indexFrom, calls)[i] == (FromAt(indexFrom, calls, i), calls[i].head)
  {
    var n := |calls| - 1;
    if n > 0 {
      RangeOfCompleted(indexFrom, calls[..n], if i < n then i else 0);
      if i < n {
        PrefixFrom(indexFrom, calls, n, i);
      }
    }
  }

  lemma {:induction false} RangesOfCompleted(indexFrom: nat, calls: seq<IndexCall>)
    requires forall i: nat | i < |calls| :: calls[i].completed
    ensures |CompletedRanges(indexFrom, calls)| == |calls|
    ensures forall i: nat | i < |calls| ::
              CompletedRanges(indexFrom, calls)[i] == (Froms(indexFrom, calls)[i], Heads(calls)[i])
  {
    if calls != [] {
      RangeOfCompleted(indexFrom, calls, 0);
    }
    forall i: nat | i < |calls|
      ensures CompletedRanges(indexFrom, calls)[i] == (Froms(indexFrom, calls)[i], Heads(calls)[i])
    {
      RangeOfCompleted(indexFrom, calls, i);
    }
  }

  lemma {:induction false} CompletedMembers(calls: seq<IndexCall>)
    ensures forall i: nat | i < |Completed(calls)| :: Completed(calls)[i].completed
    ensures NonDecreasing(Heads(calls)) ==> NonDecreasing(Heads(Completed(calls)))
    ensures forall c | c in Completed(calls) :: c in calls
  {
    if calls != [] {
      var n := |calls| - 1;
      CompletedMembers(calls[..n]);
      assert calls == calls[..n] + [calls[n]];
      var before := Completed(calls[..n]);
      if NonDecreasing(Heads(calls)) {
        forall i, j | 0 <= i <= j < n ensures Heads(calls[..n])[i] <= Heads(calls[..n])[j] {
          assert Heads(calls)[i] <= Heads(calls)[j];
        }
        forall i: nat | i < |before| ensures before[i].head <= calls[n].head {
          assert before[i] in calls[..n];
          var k :| 0 <= k < n && calls[k] == before[i];
          assert Heads(calls)[k] <= Heads(calls)[n];
        }
      }
    }
  }

  /** A completed call queried the block, so its rows are stored. */
  ghost predicate Ingested(indexFrom: nat, calls: seq<IndexCall>, b: nat) {
    exists i: nat | i < |CompletedRanges(indexFrom, calls)| ::
      CompletedRanges(indexFrom, calls)[i].0 <= b <= CompletedRanges(indexFrom, calls)[i].1
  }

  lemma {:induction false} IngestedIsCovered(indexFrom: nat, calls: seq<IndexCall>, b: nat)
    ensures var done := Completed(calls);
            Ingested(indexFrom, calls, b) <==> Covered(Froms(indexFrom, done), Heads(done), b)
  {
    var done := Completed(calls);
    var ranges := CompletedRanges(indexFrom, calls);
    CompletedMembers(calls);
    InterruptedLeaveNoTrace(indexFrom, calls);
    RangesOfCompleted(indexFrom, done);
    if Ingested(indexFrom, calls, b) {
      var i: nat :| i < |ranges| && ranges[i].0 <= b <= ranges[i].1;
      assert Queried(Froms(indexFrom, done), Heads(done), i, b);
    }
    if Covered(Froms(indexFrom, done), Heads(done), b) {
      var i: nat :| Queried(Froms(indexFrom, done), Heads(done), i, b);
      assert ranges[i].0 <= b <= ranges[i].1;
    }
  }

  /**
    Over all restarts, with heads that never decrease: every block from the configured start to
    the last completed head is ingested by a completed call if and only if no completed call
    found the head ahead of the completed ones before it by more than the range cap.
   */
  lemma {:induction false} BlocksIngestedExactly(indexFrom: nat, calls: seq<IndexCall>)
    requires Completed(calls) != [] && NonDecreasing(Heads(calls))
    ensures var heads := Heads(Completed(calls));
            (forall b: nat | indexFrom <= b <= heads[|heads| - 1] :: Ingested(indexFrom, calls, b))
            <==> KeepsUp(indexFrom, heads, 2_000)
  {
    var done := Completed(calls);
    CompletedMembers(calls);
    BlocksQueriedExactly(indexFrom, done);
    forall b: nat ensures Ingested(indexFrom, calls, b) <==> Covered(Froms(indexFrom, done), Heads(done), b) {
      IngestedIsCovered(indexFrom, calls, b);
    }
  }

  // ----- The home-chain notification over all runs -----

  /** `lost` are the users whose first deposit was stored by a process that died before the notification. */
  datatype State = State(table: Table, pushes: seq<Push>, lost: set<string>)

  const INIT := State([], [], {})

  datatype Action = Ingest(row: EventRow) | CrashAfterUpsert(row: EventRow)

  function Step(s: State, a: Action): State {
    var s' := s.(table := Upserted(s.table, a.row));
    if !ShouldPushHomeChain(s.table, a.row) then s'
    else if a.Ingest? then s'.(pushes := s.pushes + [Push(a.row.to.value, a.row.chain)])
    else s'.(lost := s.lost + {a.row.to.value})
  }

  function Run(s: State, run: seq<Action>): State {
    if run == [] then s else Step(Run(s, run[..|run| - 1]), run[|run| - 1])
  }

  /** The chain of the first deposit stored for a user. */
  function FirstDepositChain(table: Table, user: string): Option<ChainId> {
    if table == [] then None
    else
      var before := FirstDepositChain(table[..|table| - 1], user);
      var row := table[|table| - 1];
      if before.Some? then before
      else if row.kind == Deposited && row.to == Some(user) then Some(row.chain)
      else None
  }

  lemma {:induction false} FirstDepositExists(table: Table, user: string)
    ensures FirstDepositChain(table, user).Some? <==> HasDeposit(table, user)
  {
    if table != [] {
      var init := table[..|table| - 1];
      FirstDepositExists(init, user);
      assert forall k | 0 <= k < |init| :: init[k] == table[k];
      if HasDeposit(table, user) {
        var i :| 0 <= i < |table| && table[i].kind == Deposited && table[i].to == Some(user);
        assert i < |init| ==> HasDeposit(init, user);
      }
    }
  }

  predicate Pushed(s: State, user: string) {
    exists i | 0 <= i < |s.pushes| :: s.pushes[i].user == user
  }

  ghost predicate PushesRight(s: State) {
    && (forall i, j | 0 <= i < j < |s.pushes| :: s.pushes[i].user != s.pushes[j].user)
    && (forall i | 0 <= i < |s.pushes| :: FirstDepositChain(s.table, s.pushes[i].user) == Some(s.pushes[i].chain))
    && (forall user :: HasDeposit(s.table, user) <==> Pushed(s, user) || user in s.lost)
    && (forall user | user in s.lost :: !Pushed(s, user))
  }

  lemma {:induction false} AppendedTable(table: Table, row: EventRow, user: string)
    ensures HasDeposit(table + [row], user)
            <==> HasDeposit(table, user) || (row.kind == Deposited && row.to == Some(user))
    ensures FirstDepositChain(table + [row], user)
         == if FirstDepositChain(table, user).Some? then FirstDepositChain(table, user)
            else if row.kind == Deposited && row.to == Some(user) then Some(row.chain) else None
  {
    assert (table + [row])[..|table|] == table;
    FirstDepositExists(table, user);
    FirstDepositExists(table + [row], user);
  }

  lemma {:induction false} AppendedPush(s: State, s': State, p: Push, user: string)
    requires s'.pushes == s.pushes + [p]
    ensures Pushed(s', user) <==> Pushed(s, user) || user == p.user
  {
    assert s'.pushes[|s.pushes|] == p;
    if Pushed(s, user) {
      var i :| 0 <= i < |s.pushes| && s.pushes[i].user == user;
      assert s'.pushes[i] == s.pushes[i];
    }
  }

  lemma {:induction false} StepPushesRight(s: State, a: Action)
    requires PushesRight(s)
    ensures PushesRight(Step(s, a))
  {
    var s' := Step(s, a);
    var row := a.row;
    if !HasKey(s.table, KeyOf(row)) {
      forall user
        ensures HasDeposit(s'.table, user)
                <==> HasDeposit(s.table, user) || (row.kind == Deposited && row.to == Some(user))
        ensures FirstDepositChain(s.table, user).Some? ==>
                FirstDepositChain(s'.table, user) == FirstDepositChain(s.table, user)
        ensures s'.pushes == s.pushes ==> (Pushed(s', user) <==> Pushed(s, user))
      {
        AppendedTable(s.table, row, user);
      }
      if ShouldPushHomeChain(s.table, row) {
        var user := row.to.value;
        FirstDepositExists(s.table, user);
        AppendedTable(s.table, row, user);
        if a.Ingest? {
          forall u ensures Pushed(s', u) <==> Pushed(s, u) || u == user {
            AppendedPush(s, s', Push(user, row.chain), u);
          }
        }
      }
    }
  }

  lemma {:induction false} RunPushesRight(run: seq<Action>)
    ensures PushesRight(Run(INIT, run))
  {
    if run != [] {
      RunPushesRight(run[..|run| - 1]);
      StepPushesRight(Run(INIT, run[..|run| - 1]), run[|run| - 1]);
    }
  }

  /**
    In every run, a user with an indexed deposit is notified exactly once, with the chain of
    the first deposit stored, unless the process died between storing that deposit and the
    notification; nobody else is ever notified.
   */
  lemma {:induction false} HomeChainPushedOnce(run: seq<Action>, user: string)
    ensures var s := Run(INIT, run);
            && (forall i, j | 0 <= i < j < |s.pushes| :: s.pushes[i].user != s.pushes[j].user)
            && (Pushed(s, user) <==> HasDeposit(s.table, user) && user !in s.lost)
            && (forall i | 0 <= i < |s.pushes| ::
                    FirstDepositChain(s.table, s.pushes[i].user) == Some(s.pushes[i].chain))
  {
    RunPushesRight(run);
  }

  /** A notification that was lost is never made up for. */
  lemma {:induction false} LostForGood(run: seq<Action>, more: seq<Action>, user: string)
    requires user in Run(INIT, run).lost
    ensures user in Run(INIT, run + more).lost && !Pushed(Run(INIT, run + more), user)
    decreases |more|
  {
    if more == [] {
      assert run + more == run;
    } else {
      var init := more[..|more| - 1];
      LostForGood(run, init, user);
      assert (run + more)[..|run + more| - 1] == run + init;
    }
    HomeChainPushedOnce(run + more, user);
  }

  /** A crash after the first deposit of a user loses their notification. */
  lemma {:induction false} NotificationCanBeLost(row: EventRow)
    requires row.kind == Deposited && row.to.Some?
    ensures var s := Run(INIT, [CrashAfterUpsert(row)]);
            HasDeposit(s.table, row.to.value) && row.to.value in s.lost && !Pushed(s, row.to.value)
  {
    var run := [CrashAfterUpsert(row)];
    assert run[..0] == [] && Run(INIT, run) == Step(INIT, run[0]);
    assert Run(INIT, run).table == [] + [row] && ([] + [row])[0] == row;
    HomeChainPushedOnce(run, row.to.value);
  }

  /** Two calls with the head 2001 blocks further on: block 1 is never queried. */
  lemma {:induction false} BlockCanBeMissed(second: bool)
    ensures var calls := [IndexCall(0, true), IndexCall(2002, second)];
            NonDecreasing(Heads(calls)) && !Covered(Froms(0, calls), Heads(calls), 1)
  {
    var calls := [IndexCall(0, true), IndexCall(2002, second)];
    var heads := Heads(calls);
    assert heads == [0, 2002];
    assert SkippedAt(0, heads, MAX_BLOCK_RANGE, 1, 1);
    BlocksNotQueriedExactly(0, calls, 1);
  }
}
