/**
  The logs the Bank and the token emit, as the indexer reads them
  (services/treasury/src/account_index.rs): the row of every kind of event, and what storing
  it does to the balances of its parties.

  A log is built from the event's own values: addresses in the topics, padded to a word, the
  amount in the first word of the data, the event hash in the third. Padding, the event's
  signature topic and whatever follows the words that are read are arbitrary.
 */
module AccountLogs {
  import opened Wrappers
  import opened ByteStrings
  import opened Hex
  import opened Addresses
  import opened AccountEvents
  import opened AccountIndex

  type Address = a: Bytes | |a| == 20 witness seq(20, _ => 0)
  type Padding = p: Bytes | |p| == 12 witness seq(12, _ => 0)
  type Word = w: Bytes | |w| == 32 witness seq(32, _ => 0)

  /** An account's name in the index. */
  function Name(a: Bytes): string {
    "0x" + BytesToHex(a)
  }

  function AddressTopic(pad: Padding, a: Address): string {
    "0x" + BytesToHex(pad + a)
  }

  function AmountData(amount: nat, rest: Bytes): string {
    "0x" + BytesToHex(BeBytes(amount, 32) + rest)
  }

  function InitiatedData(amount: nat, destination: Word, hash: Word, rest: Bytes): string {
    AmountData(amount, destination + hash + rest)
  }

  /** The topic of `log` at `k` is the address `a`, under any padding. */
  ghost predicate NamesAt(log: IndexLog, k: nat, a: Address) {
    k < |log.topics| && exists pad: Padding :: log.topics[k] == AddressTopic(pad, a)
  }

  /** The data of `log` starts with the amount. */
  ghost predicate Carries(log: IndexLog, amount: nat) {
    exists rest: Bytes :: log.data == AmountData(amount, rest)
  }

  ghost predicate CarriesHash(log: IndexLog, amount: nat, hash: Word) {
    exists destination: Word, rest: Bytes :: log.data == InitiatedData(amount, destination, hash, rest)
  }

  // ----- Reading back the words -----

  lemma {:induction false} NamesDiffer(a: Bytes, b: Bytes)
    ensures Name(a) == Name(b) <==> a == b
  {
    HexRoundTrip(a);
    HexRoundTrip(b);
  }

  lemma {:induction false} TopicDecodes(pad: Padding, a: Address)
    ensures DecodeHex(AddressTopic(pad, a)) == Some(pad + a) && |pad + a| == 32 && (pad + a)[12..32] == a
  {
    HexRoundTrip(pad + a);
  }

  lemma {:induction false} TopicIsRead(log: IndexLog, k: nat, a: Address)
    requires NamesAt(log, k, a)
    ensures TopicToAddress(log.topics[k]) == Some(Name(a))
  {
    var pad: Padding :| log.topics[k] == AddressTopic(pad, a);
    TopicDecodes(pad, a);
  }

  lemma {:induction false} AmountIsRead(log: IndexLog, amount: nat)
    requires amount < Pow256(32) && Carries(log, amount)
    ensures AmountOf(log.data, 32) == Some(amount)
  {
    var rest :| log.data == AmountData(amount, rest);
    HexRoundTrip(BeBytes(amount, 32) + rest);
    assert (BeBytes(amount, 32) + rest)[0..32] == BeBytes(amount, 32);
    FromBeOfBeBytes(amount, 32);
  }

  lemma {:induction false} HashIsRead(log: IndexLog, amount: nat, hash: Word)
    requires amount < Pow256(32) && CarriesHash(log, amount, hash)
    ensures AmountOf(log.data, 96) == Some(amount) && EventHashOf(log.data) == Some(Name(hash))
  {
    var destination: Word, rest :| log.data == InitiatedData(amount, destination, hash, rest);
    WordsLie(BeBytes(amount, 32), destination, hash, rest);
    HexRoundTrip(BeBytes(amount, 32) + (destination + hash + rest));
    FromBeOfBeBytes(amount, 32);
  }

  lemma {:induction false} WordsLie(amount: Word, destination: Word, hash: Word, rest: Bytes)
    ensures var data := amount + (destination + hash + rest);
            |data| == 96 + |rest| && data[0..32] == amount && data[64..96] == hash
  {
  }

  // ----- The row of every kind of event -----

  /** What the topics and the data of a log read as. */
  predicate Reads(log: IndexLog, first: string, amount: nat, minimum: nat) {
    |log.topics| >= 2 && TopicToAddress(log.topics[1]) == Some(first) && AmountOf(log.data, minimum) == Some(amount)
  }

  lemma {:induction false} UserRows(log: IndexLog, user: string, amount: nat, chain: ChainId, time: Option<int>)
    requires Reads(log, user, amount, 32)
    ensures ParseBankLog(log, Deposited, chain, time)
         == Some(EventRow(chain, log.tx, log.logIndex, Deposited, None, Some(user), amount, log.block, time, None))
    ensures ParseBankLog(log, Withdrawn, chain, time)
         == Some(EventRow(chain, log.tx, log.logIndex, Withdrawn, Some(user), None, amount, log.block, time, None))
  {
  }

  lemma {:induction false} TransferRow(log: IndexLog, from: string, to: string, amount: nat, chain: ChainId,
                                       time: Option<int>, bank: string)
    requires Reads(log, from, amount, 32) && |log.topics| >= 3 && TopicToAddress(log.topics[2]) == Some(to)
    ensures ParseTransferLog(log, chain, time, bank)
         == (if Lower(from) == Lower(bank) || Lower(to) == Lower(bank) then None
             else Some(EventRow(chain, log.tx, log.logIndex, Transfer, Some(from), Some(to), amount, log.block, time,
                                None)))
  {
  }

  lemma {:induction false} InitiationRow(log: IndexLog, sender: string, recipient: string, amount: nat, hash: string,
                                         chain: ChainId, time: Option<int>)
    requires Reads(log, sender, amount, 96) && |log.topics| >= 3
    requires TopicToAddress(log.topics[2]) == Some(recipient) && EventHashOf(log.data) == Some(hash)
    ensures ParseBankLog(log, HotPathInitiated, chain, time)
         == Some(EventRow(chain, log.tx, log.logIndex, HotPathInitiated, Some(sender), Some(recipient), amount,
                          log.block, time, Some(hash)))
  {
  }

  lemma {:induction false} ReleaseRow(log: IndexLog, recipient: string, amount: nat, chain: ChainId,
                                      time: Option<int>)
    requires Reads(log, recipient, amount, 32) && |log.topics| >= 3
    ensures ParseBankLog(log, HotPathReleased, chain, time)
         == Some(EventRow(chain, log.tx, log.logIndex, HotPathReleased, None, Some(recipient), amount, log.block,
                          time, Some(log.topics[2])))
  {
  }

  lemma {:induction false} DepositIsRead(log: IndexLog, user: Address, amount: nat, chain: ChainId, time: Option<int>)
    requires amount < Pow256(32) && NamesAt(log, 1, user) && Carries(log, amount)
    ensures ParseBankLog(log, Deposited, chain, time)
         == Some(EventRow(chain, log.tx, log.logIndex, Deposited, None, Some(Name(user)), amount, log.block, time,
                          None))
  {
    TopicIsRead(log, 1, user);
    AmountIsRead(log, amount);
    UserRows(log, Name(user), amount, chain, time);
  }

  lemma {:induction false} WithdrawalIsRead(log: IndexLog, user: Address, amount: nat, chain: ChainId,
                                            time: Option<int>)
    requires amount < Pow256(32) && NamesAt(log, 1, user) && Carries(log, amount)
    ensures ParseBankLog(log, Withdrawn, chain, time)
         == Some(EventRow(chain, log.tx, log.logIndex, Withdrawn, Some(Name(user)), None, amount, log.block, time,
                          None))
  {
    TopicIsRead(log, 1, user);
    AmountIsRead(log, amount);
    UserRows(log, Name(user), amount, chain, time);
  }

  lemma {:induction false} InitiationIsRead(log: IndexLog, sender: Address, recipient: Address, amount: nat,
                                            hash: Word, chain: ChainId, time: Option<int>)
    requires amount < Pow256(32) && NamesAt(log, 1, sender) && NamesAt(log, 2, recipient)
    requires CarriesHash(log, amount, hash)
    ensures ParseBankLog(log, HotPathInitiated, chain, time)
         == Some(EventRow(chain, log.tx, log.logIndex, HotPathInitiated, Some(Name(sender)), Some(Name(recipient)),
                          amount, log.block, time, Some(Name(hash))))
  {
    TopicIsRead(log, 1, sender);
    TopicIsRead(log, 2, recipient);
    HashIsRead(log, amount, hash);
    InitiationRow(log, Name(sender), Name(recipient), amount, Name(hash), chain, time);
  }

  lemma {:induction false} ReleaseIsRead(log: IndexLog, recipient: Address, amount: nat, chain: ChainId,
                                         time: Option<int>)
    requires amount < Pow256(32) && |log.topics| >= 3 && NamesAt(log, 1, recipient) && Carries(log, amount)
    ensures ParseBankLog(log, HotPathReleased, chain, time)
         == Some(EventRow(chain, log.tx, log.logIndex, HotPathReleased, None, Some(Name(recipient)), amount,
                          log.block, time, Some(log.topics[2])))
  {
    TopicIsRead(log, 1, recipient);
    AmountIsRead(log, amount);
    ReleaseRow(log, Name(recipient), amount, chain, time);
  }

  /** A transfer is a row unless one of its parties is the Bank, in any spelling. */
  lemma {:induction false} TransferIsRead(log: IndexLog, from: Address, to: Address, amount: nat, chain: ChainId,
                                          time: Option<int>, bank: string)
    requires amount < Pow256(32) && NamesAt(log, 1, from) && NamesAt(log, 2, to) && Carries(log, amount)
    ensures ParseTransferLog(log, chain, time, bank)
         == (if Lower(bank) == Name(from) || Lower(bank) == Name(to) then None
             else Some(EventRow(chain, log.tx, log.logIndex, Transfer, Some(Name(from)), Some(Name(to)), amount,
                                log.block, time, None)))
  {
    TopicIsRead(log, 1, from);
    TopicIsRead(log, 2, to);
    AmountIsRead(log, amount);
    TransferRow(log, Name(from), Name(to), amount, chain, time, bank);
    HexIsLowerCase(from);
    HexIsLowerCase(to);
  }

  // ----- Logs that are not read -----

  /** Hexadecimal text of at least so many bytes. */
  predicate HasBytes(text: string, n: nat) {
    DecodeHex(text).Some? && |DecodeHex(text).value| >= n
  }

  /** A bank log is read exactly when its topics and data are there and long enough for its kind. */
  lemma {:induction false} BankLogReadExactly(log: IndexLog, kind: EventKind, chain: ChainId, time: Option<int>)
    requires kind != Transfer
    ensures ParseBankLog(log, kind, chain, time).Some?
            <==> && |log.topics| >= (if kind == Deposited || kind == Withdrawn then 2 else 3)
                 && HasBytes(log.topics[1], 32) && (kind == HotPathInitiated ==> HasBytes(log.topics[2], 32))
                 && HasBytes(log.data, if kind == HotPathInitiated then 96 else 32)
  {
  }

  lemma {:induction false} TransferLogReadExactly(log: IndexLog, chain: ChainId, time: Option<int>, bank: string)
    ensures ParseTransferLog(log, chain, time, bank).Some?
            <==> && |log.topics| >= 3 && HasBytes(log.topics[1], 32) && HasBytes(log.topics[2], 32)
                 && HasBytes(log.data, 32)
                 && Lower(bank) != Name(DecodeHex(log.topics[1]).value[12..32])
                 && Lower(bank) != Name(DecodeHex(log.topics[2]).value[12..32])
  {
    if |log.topics| >= 3 && HasBytes(log.topics[1], 32) && HasBytes(log.topics[2], 32) {
      HexIsLowerCase(DecodeHex(log.topics[1]).value[12..32]);
      HexIsLowerCase(DecodeHex(log.topics[2]).value[12..32]);
    }
  }

  // ----- What storing the row does to the balances -----

  lemma {:induction false} StoredRowMoves(table: Table, row: EventRow, chain: ChainId, user: string)
    ensures Balance(Upserted(table, row), chain, user)
         == Balance(table, chain, user) + (if HasKey(table, KeyOf(row)) then 0 else Delta(row, chain, Lower(user)))
  {
    assert (table + [row])[..|table|] == table;
  }

  /** What `user` gains on `chain` by an amount that `party` receives on `on`. */
  function Receives(user: string, party: Address, amount: nat, chain: ChainId, on: ChainId): nat {
    if chain == on && Lower(user) == Name(party) then amount else 0
  }

  /** The balances after a log of each kind: the sender pays, the receiver is paid, nobody else is touched. */
  ghost predicate Moves(table: Table, row: Option<EventRow>, payer: Option<Address>, payee: Option<Address>,
                        amount: nat, on: ChainId)
  {
    row.Some? && forall chain: ChainId, user: string ::
      Balance(Upserted(table, row.value), chain, user) == Balance(table, chain, user)
        + (if payee.Some? then Receives(user, payee.value, amount, chain, on) else 0)
        - (if payer.Some? then Receives(user, payer.value, amount, chain, on) else 0)
  }

  /**
    Storing the row of a new log moves its amount between the balances of its own parties:
    a deposit and a release credit the receiver, a withdrawal and an initiated transfer debit
    the sender, a transfer does both.
   */
  lemma {:induction false} BankLogsMoveBalances(table: Table, log: IndexLog, a: Address, amount: nat, chain: ChainId,
                                                time: Option<int>)
    requires amount < Pow256(32) && !HasKey(table, Key(chain, log.tx, log.logIndex))
    requires NamesAt(log, 1, a) && Carries(log, amount)
    ensures Moves(table, ParseBankLog(log, Deposited, chain, time), None, Some(a), amount, chain)
    ensures Moves(table, ParseBankLog(log, Withdrawn, chain, time), Some(a), None, amount, chain)
    ensures |log.topics| >= 3
            ==> Moves(table, ParseBankLog(log, HotPathReleased, chain, time), None, Some(a), amount, chain)
  {
    DepositIsRead(log, a, amount, chain, time);
    RowMoves(table, ParseBankLog(log, Deposited, chain, time), None, Some(a), amount, chain);
    WithdrawalIsRead(log, a, amount, chain, time);
    RowMoves(table, ParseBankLog(log, Withdrawn, chain, time), Some(a), None, amount, chain);
    if |log.topics| >= 3 {
      ReleaseIsRead(log, a, amount, chain, time);
      RowMoves(table, ParseBankLog(log, HotPathReleased, chain, time), None, Some(a), amount, chain);
    }
  }

  lemma {:induction false} InitiationMovesBalances(table: Table, log: IndexLog, sender: Address, recipient: Address,
                                                   amount: nat, hash: Word, chain: ChainId, time: Option<int>)
    requires amount < Pow256(32) && !HasKey(table, Key(chain, log.tx, log.logIndex))
    requires NamesAt(log, 1, sender) && NamesAt(log, 2, recipient) && CarriesHash(log, amount, hash)
    ensures Moves(table, ParseBankLog(log, HotPathInitiated, chain, time), Some(sender), None, amount, chain)
  {
    InitiationIsRead(log, sender, recipient, amount, hash, chain, time);
    RowMoves(table, ParseBankLog(log, HotPathInitiated, chain, time), Some(sender), None, amount, chain);
  }

  lemma {:induction false} TransferMovesBalances(table: Table, log: IndexLog, from: Address, to: Address, amount: nat,
                                                 chain: ChainId, time: Option<int>, bank: string)
    requires amount < Pow256(32) && !HasKey(table, Key(chain, log.tx, log.logIndex))
    requires NamesAt(log, 1, from) && NamesAt(log, 2, to) && Carries(log, amount)
    requires Lower(bank) != Name(from) && Lower(bank) != Name(to)
    ensures Moves(table, ParseTransferLog(log, chain, time, bank), Some(from), Some(to), amount, chain)
  {
    TransferIsRead(log, from, to, amount, chain, time, bank);
    RowMoves(table, ParseTransferLog(log, chain, time, bank), Some(from), Some(to), amount, chain);
  }

  lemma {:induction false} RowMoves(table: Table, row: Option<EventRow>, payer: Option<Address>, payee: Option<Address>,
                                    amount: nat, on: ChainId)
    requires row.Some? && !HasKey(table, KeyOf(row.value)) && row.value.amount == amount && row.value.chain == on
    requires row.value.kind in {Deposited, HotPathReleased}
             ==> payer.None? && payee.Some? && row.value.to == Some(Name(payee.value))
    requires row.value.kind in {Withdrawn, HotPathInitiated}
             ==> payee.None? && payer.Some? && row.value.from == Some(Name(payer.value))
    requires row.value.kind == Transfer
             ==> && payee.Some? && payer.Some?
                 && row.value.from == Some(Name(payer.value)) && row.value.to == Some(Name(payee.value))
    ensures Moves(table, row, payer, payee, amount, on)
  {
    if payer.Some? {
      HexIsLowerCase(payer.value);
    }
    if payee.Some? {
      HexIsLowerCase(payee.value);
    }
    forall chain: ChainId, user: string
      ensures Balance(Upserted(table, row.value), chain, user) == Balance(table, chain, user)
        + (if payee.Some? then Receives(user, payee.value, amount, chain, on) else 0)
        - (if payer.Some? then Receives(user, payer.value, amount, chain, on) else 0)
    {
      StoredRowMoves(table, row.value, chain, user);
    }
  }
}
