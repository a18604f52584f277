/**
  The `HotPathInitiated` logs of the Bank, as the relayer and the watcher read them
  (services/treasury/src/hot_path.rs, services/treasury/src/watcher.rs): sender and recipient
  in the topics, then amount, destination chain, event id and one more word in the data.
 */
module RelayLogs {
  import opened Wrappers
  import opened ByteStrings
  import opened Hex
  import opened Abi
  import opened RelayEvents

  function AddressTopic(pad: Bytes, a: Address): string {
    "0x" + BytesToHex(pad + a)
  }

  /** The topic of `log` at `k` is the address `a`, under any padding. */
  ghost predicate NamesAt(log: RpcLog, k: nat, a: Address) {
    k < |log.topics| && exists pad: Bytes | |pad| == 12 :: log.topics[k] == AddressTopic(pad, a)
  }

  function InitiatedWords(amount: nat, dest: ChainId, id: Bytes, rest: Bytes): Bytes {
    BeBytes(amount, 32) + BeBytes(dest, 32) + id + rest
  }

  /** The data of `log` is amount, destination and id, with at least a word behind them. */
  ghost predicate Carries(log: RpcLog, amount: nat, dest: ChainId, id: Bytes) {
    exists rest: Bytes | |rest| >= 32 :: log.data == "0x" + BytesToHex(InitiatedWords(amount, dest, id, rest))
  }

  lemma {:induction false} BeTail(n: nat, width: nat, k: nat)
    requires k <= width
    ensures BeBytes(n, width)[width - k..] == BeBytes(n, k)
  {
    if k > 0 {
      BeTail(n / 256, width - 1, k - 1);
    }
  }

  lemma {:induction false} TopicDecodes(pad: Bytes, a: Address)
    requires |pad| == 12
    ensures DecodeHex(AddressTopic(pad, a)) == Some(pad + a) && |pad + a| == 32 && (pad + a)[12..32] == a
  {
    HexRoundTrip(pad + a);
  }

  lemma {:induction false} TopicIsRead(log: RpcLog, k: nat, a: Address)
    requires NamesAt(log, k, a)
    ensures DecodeTopic(log.topics[k]).Some? && TopicAddress(DecodeTopic(log.topics[k]).value) == a
  {
    var pad: Bytes :| |pad| == 12 && log.topics[k] == AddressTopic(pad, a);
    TopicDecodes(pad, a);
  }

  /** Amount, destination (its low 64 bits) and id lie where they are read. */
  lemma {:induction false} WordsLie(amount: nat, dest: ChainId, id: Bytes, rest: Bytes)
    requires |id| == 32
    ensures var data := InitiatedWords(amount, dest, id, rest);
            && |data| == 96 + |rest| && data[0..32] == BeBytes(amount, 32)
            && data[56..64] == BeBytes(dest, 8) && data[64..96] == id
  {
    var data := InitiatedWords(amount, dest, id, rest);
    assert data[32..64] == BeBytes(dest, 32);
    assert data[56..64] == data[32..64][24..];
    BeTail(dest, 32, 8);
  }

  lemma {:induction false} NumbersAreRead(amount: nat, dest: ChainId)
    requires amount < Pow256(32) && dest < Pow256(8)
    ensures FromBe(BeBytes(amount, 32)) == amount && FromBe(BeBytes(dest, 8)) == dest
  {
    FromBeOfBeBytes(amount, 32);
    FromBeOfBeBytes(dest, 8);
  }

  lemma {:induction false} DataIsRead(log: RpcLog, amount: nat, dest: ChainId, id: Bytes)
    requires amount < Pow256(32) && dest < Pow256(8) && |id| == 32 && Carries(log, amount, dest, id)
    ensures var data := DecodeData(log.data, 128);
            && data.Some? && FromBe(data.value[0..32]) == amount && FromBe(data.value[56..64]) == dest
            && data.value[64..96] == id
  {
    var rest: Bytes :| |rest| >= 32 && log.data == "0x" + BytesToHex(InitiatedWords(amount, dest, id, rest));
    HexRoundTrip(InitiatedWords(amount, dest, id, rest));
    WordsLie(amount, dest, id, rest);
    NumbersAreRead(amount, dest);
  }

  /** The relayer reads every value of an initiated log back, and nothing of another. */
  lemma {:induction false} InitiatedIsRead(log: RpcLog, sender: Address, recipient: Address, amount: nat,
                                           dest: ChainId, id: Bytes, chain: ChainId)
    requires NamesAt(log, 1, sender) && NamesAt(log, 2, recipient)
    requires amount < Pow256(32) && dest < Pow256(8) && |id| == 32 && Carries(log, amount, dest, id)
    ensures ParseHotPathEvent(log, chain)
         == Some(HotPathEvent(chain, log.transactionHash, "0x" + BytesToHex(sender), recipient, amount, dest, id))
    ensures ParseInitiated(log, chain)
         == Some((id, InitiatedEvent(chain, log.transactionHash, recipient, amount)))
  {
    TopicIsRead(log, 1, sender);
    TopicIsRead(log, 2, recipient);
    DataIsRead(log, amount, dest, id);
    ReadsEvent(log, sender, recipient, amount, dest, id, chain);
  }

  lemma {:induction false} ReadsEvent(log: RpcLog, sender: Address, recipient: Address, amount: nat,
                                      dest: ChainId, id: Bytes, chain: ChainId)
    requires |log.topics| >= 3 && DecodeTopic(log.topics[1]).Some? && DecodeTopic(log.topics[2]).Some?
    requires TopicAddress(DecodeTopic(log.topics[1]).value) == sender
    requires TopicAddress(DecodeTopic(log.topics[2]).value) == recipient
    requires var data := DecodeData(log.data, 128);
             && data.Some? && FromBe(data.value[0..32]) == amount && FromBe(data.value[56..64]) == dest
             && data.value[64..96] == id
    ensures ParseHotPathEvent(log, chain)
         == Some(HotPathEvent(chain, log.transactionHash, "0x" + BytesToHex(sender), recipient, amount, dest, id))
    ensures ParseInitiated(log, chain)
         == Some((id, InitiatedEvent(chain, log.transactionHash, recipient, amount)))
  {
  }

  /** Hexadecimal text of at least so many bytes. */
  predicate HasBytes(text: string, n: nat) {
    DecodeHex(text).Some? && |DecodeHex(text).value| >= n
  }

  /** Which logs are read at all; the watcher does not look at the sender's topic. */
  lemma {:induction false} LogsReadExactly(log: RpcLog, chain: ChainId)
    ensures ParseInitiated(log, chain).Some?
            <==> |log.topics| >= 3 && HasBytes(log.topics[2], 32) && HasBytes(log.data, 128)
    ensures ParseHotPathEvent(log, chain).Some?
            <==> ParseInitiated(log, chain).Some? && HasBytes(log.topics[1], 32)
    ensures ParseReleased(log, chain).Some?
            <==> && |log.topics| >= 3 && HasBytes(log.topics[1], 32) && HasBytes(log.topics[2], 32)
                 && HasBytes(log.data, 32)
  {
  }

  /**
    From the user's transfer to the watcher: the Bank decodes from the relayer's calldata the
    recipient, amount and id of the log, under the selector it was called with.
   */
  lemma {:induction false} TransferIsExecuted(log: RpcLog, sender: Address, recipient: Address, amount: nat,
                                              dest: ChainId, id: Bytes, chain: ChainId, selector: Selector)
    requires NamesAt(log, 1, sender) && NamesAt(log, 2, recipient)
    requires amount < Pow256(32) && dest < Pow256(8) && |id| == 32 && Carries(log, amount, dest, id)
    ensures ParseHotPathEvent(log, chain).Some?
    ensures Executed(selector, ParseHotPathEvent(log, chain).value) == Some((selector, recipient, amount, id))
  {
    InitiatedIsRead(log, sender, recipient, amount, dest, id, chain);
    ReleaseRoundTrip(selector, recipient, amount, id);
  }
}
