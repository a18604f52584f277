/**
  The index of account events (services/treasury/src/db/account_event_repo.rs), the balance
  summed from it, and the activity feed mapped from it
  (services/treasury/src/domain/activity.rs).

  Addresses are ASCII; SQL `lower`, `to_lowercase` and `eq_ignore_ascii_case` agree on them.
 */
module AccountEvents {
  import opened Wrappers
  import opened Addresses

  type ChainId = nat

  datatype EventKind = Deposited | Withdrawn | Transfer | HotPathInitiated | HotPathReleased

  datatype EventRow = EventRow(
    chain: ChainId, tx: string, logIndex: int, kind: EventKind,
    from: Option<string>, to: Option<string>, amount: nat, block: nat, time: Option<int>, correlation: Option<string>)

  /** The unique key of the table. */
  datatype Key = Key(chain: ChainId, tx: string, logIndex: int)

  function KeyOf(row: EventRow): Key {
    Key(row.chain, row.tx, row.logIndex)
  }

  /** Rows in insertion order. */
  type Table = seq<EventRow>

  predicate HasKey(table: Table, key: Key) {
    exists i | 0 <= i < |table| :: KeyOf(table[i]) == key
  }

  /** `INSERT … ON CONFLICT (chain_id, tx_hash, log_index) DO NOTHING`. */
  function Upserted(table: Table, row: EventRow): Table {
    if HasKey(table, KeyOf(row)) then table else table + [row]
  }

  /** `user_has_deposit`: an exact match, on addresses that are stored in lower case. */
  predicate HasDeposit(table: Table, user: string) {
    exists i | 0 <= i < |table| :: table[i].kind == Deposited && table[i].to == Some(user)
  }

  predicate IsAddress(a: Option<string>, lower: string) {
    a.Some? && Lower(a.value) == lower
  }

  // ----- Balance -----

  /** What the six branches of the balance query add for one row. */
  function Delta(row: EventRow, chain: ChainId, lower: string): int {
    if row.chain != chain then 0
    else
      (if row.kind == Deposited && IsAddress(row.to, lower) then row.amount else 0)
      - (if row.kind == Withdrawn && IsAddress(row.from, lower) then row.amount else 0)
      + (if row.kind == Transfer && IsAddress(row.to, lower) then row.amount else 0)
      - (if row.kind == Transfer && IsAddress(row.from, lower) then row.amount else 0)
      - (if row.kind == HotPathInitiated && IsAddress(row.from, lower) then row.amount else 0)
      + (if row.kind == HotPathReleased && IsAddress(row.to, lower) then row.amount else 0)
  }

  /** `indexed_balance_on_chain`. */
  function Balance(table: Table, chain: ChainId, address: string): int {
    if table == [] then 0
    else Balance(table[..|table| - 1], chain, address) + Delta(table[|table| - 1], chain, Lower(address))
  }

  // ----- Activity feed -----

  datatype ActivityKind = DepositActivity | WithdrawalActivity | TransferActivity
  datatype Direction = Incoming | Outgoing

  datatype ActivityView = ActivityView(
    kind: ActivityKind, direction: Direction, counterparty: string, chain: ChainId, amount: nat,
    status: string, tx: string, occurredAt: Option<int>)

  predicate StartsWithRejected(s: string) {
    |s| >= 8 && s[..8] == "rejected"
  }

  function NormalizeRelayStatus(status: Option<string>): string {
    if status.None? || status.value == "pending" then "pending"
    else if status.value == "completed" then "completed"
    else if status.value == "failed" || StartsWithRejected(status.value) then "failed"
    else status.value
  }

  function MapEventToActivity(row: EventRow, user: string, relayStatus: Option<string>): Option<ActivityView> {
    var me := Lower(user);
    var view := (kind: ActivityKind, direction: Direction, counterparty: string, status: string) =>
      Some(ActivityView(kind, direction, counterparty, row.chain, row.amount, status, row.tx, row.time));
    match row.kind
    case Deposited =>
      if IsAddress(row.to, me) then view(DepositActivity, Incoming, "", "completed") else None
    case Withdrawn =>
      if IsAddress(row.from, me) then view(WithdrawalActivity, Outgoing, "", "completed") else None
    case Transfer =>
      if row.from.None? || row.to.None? then None
      else if IsAddress(row.from, me) then view(TransferActivity, Outgoing, row.to.value, "completed")
      else if IsAddress(row.to, me) then view(TransferActivity, Incoming, row.from.value, "completed")
      else None
    case HotPathInitiated =>
      if IsAddress(row.from, me) then
        view(TransferActivity, Outgoing, if row.to.Some? then row.to.value else "", NormalizeRelayStatus(relayStatus))
      else None
    case HotPathReleased =>
      if IsAddress(row.to, me) then view(TransferActivity, Incoming, "", "completed") else None
  }

  /**
    A transfer in flight is shown as completed, failed or pending for exactly these relay
    statuses, and any other status is shown as it is.
   */
  lemma {:induction false} RelayStatusShown(status: Option<string>)
    ensures NormalizeRelayStatus(status) == "completed" <==> status == Some("completed")
    ensures NormalizeRelayStatus(status) == "pending" <==> status == None || status == Some("pending")
    ensures NormalizeRelayStatus(status) == "failed"
            <==> status == Some("failed") || exists reason: string :: status == Some("rejected" + reason)
    ensures NormalizeRelayStatus(status) in {"completed", "pending", "failed"}
            || Some(NormalizeRelayStatus(status)) == status
  {
    if status.Some? {
      var s := status.value;
      assert "completed"[0] == 'c' && "pending"[0] == 'p' && "failed"[0] == 'f' && "rejected"[0] == 'r';
      if StartsWithRejected(s) {
        assert s == "rejected" + s[8..];
      }
      if reason: string :| status == Some("rejected" + reason) {
        assert s[..8] == "rejected";
      }
    }
  }

  /** The user is a party of the event: its receiver, its sender, or either for a transfer. */
  predicate PartyOf(row: EventRow, user: string) {
    match row.kind
    case Deposited => IsAddress(row.to, Lower(user))
    case HotPathReleased => IsAddress(row.to, Lower(user))
    case Withdrawn => IsAddress(row.from, Lower(user))
    case HotPathInitiated => IsAddress(row.from, Lower(user))
    case Transfer =>
      row.from.Some? && row.to.Some? && (IsAddress(row.from, Lower(user)) || IsAddress(row.to, Lower(user)))
  }

  predicate TwoParties(row: EventRow) {
    row.kind == Transfer || (row.kind == HotPathInitiated && row.to.Some?)
  }

  /** Who is on the other side of money that goes out or comes in. */
  function OtherParty(row: EventRow, direction: Direction): Option<string> {
    if direction == Outgoing then row.to else row.from
  }

  /**
    A row is an entry of exactly its parties' feeds, under its own chain, amount, transaction
    and time. Money goes out of the feed of the sender and comes into the feed of the
    receiver; the counterparty is the other party, and nobody for a deposit, a withdrawal or
    a release. Only a transfer that the relay has to complete can be other than completed.
   */
  lemma {:induction false} ActivityShown(row: EventRow, user: string, status: Option<string>)
    ensures MapEventToActivity(row, user, status).Some? <==> PartyOf(row, user)
    ensures PartyOf(row, user) ==>
              var view := MapEventToActivity(row, user, status).value;
              && view.chain == row.chain && view.amount == row.amount && view.tx == row.tx
              && view.occurredAt == row.time
              && (view.kind == DepositActivity <==> row.kind == Deposited)
              && (view.kind == WithdrawalActivity <==> row.kind == Withdrawn)
    ensures PartyOf(row, user) ==>
              var view := MapEventToActivity(row, user, status).value;
              && IsAddress(if view.direction == Outgoing then row.from else row.to, Lower(user))
              && (row.kind == Transfer ==> (view.direction == Outgoing <==> IsAddress(row.from, Lower(user))))
              && (TwoParties(row) ==> Some(view.counterparty) == OtherParty(row, view.direction))
              && (row.kind in {Deposited, Withdrawn, HotPathReleased} ==> view.counterparty == "")
              && view.status == if row.kind == HotPathInitiated then NormalizeRelayStatus(status) else "completed"
  {
  }

  function Signed(view: ActivityView): int {
    if view.direction == Incoming then view.amount else 0 - view.amount
  }

  /** The whole feed of a user, oldest first; `relay` gives the relay status of a transaction. */
  function Feed(table: Table, user: string, relay: string -> Option<string>): seq<ActivityView> {
    if table == [] then []
    else
      var row := table[|table| - 1];
      var view := MapEventToActivity(row, user, relay(row.tx));
      Feed(table[..|table| - 1], user, relay) + (if view.Some? then [view.value] else [])
  }

  function FeedSum(feed: seq<ActivityView>, chain: ChainId): int {
    if feed == [] then 0
    else
      var view := feed[|feed| - 1];
      FeedSum(feed[..|feed| - 1], chain) + (if view.chain == chain then Signed(view) else 0)
  }

  /** Transfers of a user to themselves: outgoing in the feed, neutral in the balance. */
  function SelfTransfers(table: Table, chain: ChainId, lower: string): nat {
    if table == [] then 0
    else
      var row := table[|table| - 1];
      SelfTransfers(table[..|table| - 1], chain, lower)
      + (if row.chain == chain && row.kind == Transfer && IsAddress(row.from, lower) && IsAddress(row.to, lower)
         then row.amount else 0)
  }

  // ----- Rows as the indexer parses them -----

  /** Which addresses the parsers fill in for each kind. */
  predicate Parsed(row: EventRow) {
    match row.kind
    case Deposited => row.from.None? && row.to.Some?
    case Withdrawn => row.from.Some? && row.to.None?
    case Transfer => row.from.Some? && row.to.Some?
    case HotPathInitiated => row.from.Some? && row.to.Some?
    case HotPathReleased => row.from.None? && row.to.Some?
  }

  ghost predicate AllParsed(table: Table) {
    forall i | 0 <= i < |table| :: Parsed(table[i])
  }

  /**
    For every user and chain, the indexed balance is the signed sum of the user's activity
    feed on that chain plus what the user transferred to themselves.
   */
  lemma {:induction false} BalanceIsFeed(table: Table, chain: ChainId, user: string, relay: string -> Option<string>)
    requires AllParsed(table)
    ensures Balance(table, chain, user)
         == FeedSum(Feed(table, user, relay), chain) + SelfTransfers(table, chain, Lower(user))
  {
    if table != [] {
      var init, row := table[..|table| - 1], table[|table| - 1];
      BalanceIsFeed(init, chain, user, relay);
      var feed := Feed(init, user, relay);
      var view := MapEventToActivity(row, user, relay(row.tx));
      if view.Some? {
        assert (feed + [view.value])[..|feed|] == feed;
      } else {
        assert feed + [] == feed;
      }
      RowIsView(row, chain, user, relay(row.tx));
    }
  }

  lemma {:induction false} RowIsView(row: EventRow, chain: ChainId, user: string, status: Option<string>)
    requires Parsed(row)
    ensures var view := MapEventToActivity(row, user, status);
            Delta(row, chain, Lower(user))
            == (if view.Some? && view.value.chain == chain then Signed(view.value) else 0)
             + (if row.chain == chain && row.kind == Transfer && IsAddress(row.from, Lower(user))
                 && IsAddress(row.to, Lower(user))
                then row.amount else 0)
  {
  }

  // ----- Conservation over all addresses -----

  /** What enters and leaves a chain's accounts as a whole. */
  function NetIssued(table: Table, chain: ChainId): int {
    if table == [] then 0
    else
      var row := table[|table| - 1];
      NetIssued(table[..|table| - 1], chain) + RowIssued(row, chain)
  }

  function RowIssued(row: EventRow, chain: ChainId): int {
    if row.chain != chain then 0
    else
      match row.kind
      case Deposited => row.amount
      case Withdrawn => 0 - row.amount
      case Transfer => 0
      case HotPathInitiated => 0 - row.amount
      case HotPathReleased => row.amount
  }

  function TotalBalance(table: Table, chain: ChainId, users: seq<string>): int {
    if users == [] then 0
    else TotalBalance(table, chain, users[..|users| - 1]) + Balance(table, chain, users[|users| - 1])
  }

  function TotalDelta(row: EventRow, chain: ChainId, users: seq<string>): int {
    if users == [] then 0
    else TotalDelta(row, chain, users[..|users| - 1]) + Delta(row, chain, Lower(users[|users| - 1]))
  }

  /** `users` lists every address of the table exactly once, in lower case. */
  ghost predicate Covers(users: seq<string>, table: Table) {
    && Distinct(users) && (forall i | 0 <= i < |users| :: Lower(users[i]) == users[i])
    && forall i | 0 <= i < |table| ::
         && (table[i].from.Some? ==> Lower(table[i].from.value) in users)
         && (table[i].to.Some? ==> Lower(table[i].to.value) in users)
  }

  /** `amount` for every listed user that is the address `a`. */
  function Portion(a: Option<string>, amount: nat, users: seq<string>): nat {
    if users == [] then 0
    else Portion(a, amount, users[..|users| - 1]) + (if IsAddress(a, users[|users| - 1]) then amount else 0)
  }

  lemma {:induction false} PortionIsWhole(a: Option<string>, amount: nat, users: seq<string>)
    requires Distinct(users) && a.Some?
    ensures Portion(a, amount, users) == if Lower(a.value) in users then amount else 0
  {
    if users != [] {
      var init, last := users[..|users| - 1], users[|users| - 1];
      assert users == init + [last];
      PortionIsWhole(a, amount, init);
    }
  }

  /** The share of the listed users in one row: what its receiver gains and its sender loses. */
  lemma {:induction false} TotalDeltaIsPortions(row: EventRow, chain: ChainId, users: seq<string>)
    requires Parsed(row) && row.chain == chain && forall i | 0 <= i < |users| :: Lower(users[i]) == users[i]
    ensures TotalDelta(row, chain, users) ==
              (if row.kind in {Deposited, Transfer, HotPathReleased} then Portion(row.to, row.amount, users) else 0)
              - (if row.kind in {Withdrawn, Transfer, HotPathInitiated}
                  then Portion(row.from, row.amount, users) else 0)
  {
    if users != [] {
      TotalDeltaIsPortions(row, chain, users[..|users| - 1]);
    }
  }

  lemma {:induction false} TotalDeltaElsewhere(row: EventRow, chain: ChainId, users: seq<string>)
    requires row.chain != chain
    ensures TotalDelta(row, chain, users) == 0
  {
    if users != [] {
      TotalDeltaElsewhere(row, chain, users[..|users| - 1]);
    }
  }

  lemma {:induction false} TotalBalanceAppend(table: Table, row: EventRow, chain: ChainId, users: seq<string>)
    ensures TotalBalance(table + [row], chain, users) == TotalBalance(table, chain, users) + TotalDelta(row, chain,
            users)
  {
    if users != [] {
      TotalBalanceAppend(table, row, chain, users[..|users| - 1]);
      assert (table + [row])[..|table|] == table;
    }
  }

  lemma {:induction false} TotalBalanceEmpty(chain: ChainId, users: seq<string>)
    ensures TotalBalance([], chain, users) == 0
  {
    if users != [] {
      TotalBalanceEmpty(chain, users[..|users| - 1]);
    }
  }

  /**
    Summed over all addresses, the indexed balances of a chain are deposits minus
    withdrawals minus initiated plus released: transfers cancel out.
   */
  lemma {:induction false} BalancesConserve(table: Table, chain: ChainId, users: seq<string>)
    requires AllParsed(table) && Covers(users, table)
    ensures TotalBalance(table, chain, users) == NetIssued(table, chain)
  {
    if table == [] {
      TotalBalanceEmpty(chain, users);
    } else {
      var init, row := table[..|table| - 1], table[|table| - 1];
      assert table == init + [row];
      BalancesConserve(init, chain, users);
      TotalBalanceAppend(init, row, chain, users);
      if row.chain == chain {
        TotalDeltaIsPortions(row, chain, users);
        if row.from.Some? {
          PortionIsWhole(row.from, row.amount, users);
        }
        if row.to.Some? {
          PortionIsWhole(row.to, row.amount, users);
        }
      } else {
        TotalDeltaElsewhere(row, chain, users);
      }
    }
  }
}
