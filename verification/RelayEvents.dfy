/**
  The relayer's and the watcher's reading of hot-path logs
  (services/treasury/src/hot_path.rs, services/treasury/src/watcher.rs) and the watcher's
  check of a release (services/treasury/src/domain/events.rs).
 */
module RelayEvents {
  import opened Wrappers
  import opened ByteStrings
  import opened Hex
  import opened Abi

  type ChainId = nat

  datatype RpcLog = RpcLog(transactionHash: string, topics: seq<string>, data: string)

  datatype HotPathEvent = HotPathEvent(
    sourceChain: ChainId, sourceEventHash: string, sender: string,
    recipient: Address, amount: nat, destChain: ChainId, eventId: Bytes)

  datatype InitiatedEvent = InitiatedEvent(sourceChain: ChainId, sourceTx: string, recipient: Address, amount: nat)

  datatype ReleasedEvent = ReleasedEvent(
    destChain: ChainId, destTx: string, transferId: Bytes, recipient: Address, amount: nat)

  datatype AlertType = Verified | Mismatch | SourceNotFound

  /** A stored alert; its detail names the pause transaction, if one went through. */
  datatype Alert = Alert(kind: AlertType, pauseTx: Option<string>)

  // ----- Parsing -----

  /** A topic of at least 32 bytes, or nothing. */
  function DecodeTopic(topic: string): (r: Option<Bytes>)
    ensures r.Some? ==> |r.value| >= 32
  {
    match DecodeHex(topic)
    case Some(raw) => if |raw| < 32 then None else Some(raw)
    case None => None
  }

  function DecodeData(data: string, minimum: nat): (r: Option<Bytes>)
    ensures r.Some? ==> |r.value| >= minimum
  {
    match DecodeHex(data)
    case Some(raw) => if |raw| < minimum then None else Some(raw)
    case None => None
  }

  function TopicAddress(raw: Bytes): Address
    requires |raw| >= 32
  {
    raw[12..32]
  }

  /** The relayer's view of a `HotPathInitiated` log. */
  function ParseHotPathEvent(log: RpcLog, chain: ChainId): Option<HotPathEvent> {
    if |log.topics| < 3 then None
    else
      match (DecodeTopic(log.topics[1]), DecodeTopic(log.topics[2]), DecodeData(log.data, 128))
      case (Some(sender), Some(to), Some(data)) =>
        Some(HotPathEvent(chain, log.transactionHash, "0x" + BytesToHex(TopicAddress(sender)), TopicAddress(to),
                          FromBe(data[0..32]), FromBe(data[56..64]), data[64..96]))
      case _ => None
  }

  /** The watcher's view of the same log, keyed by the event id. */
  function ParseInitiated(log: RpcLog, chain: ChainId): Option<(Bytes, InitiatedEvent)> {
    if |log.topics| < 3 then None
    else
      match (DecodeTopic(log.topics[2]), DecodeData(log.data, 128))
      case (Some(to), Some(data)) =>
        Some((data[64..96], InitiatedEvent(chain, log.transactionHash, TopicAddress(to), FromBe(data[0..32]))))
      case _ => None
  }

  function ParseReleased(log: RpcLog, chain: ChainId): Option<ReleasedEvent> {
    if |log.topics| < 3 then None
    else
      match (DecodeTopic(log.topics[1]), DecodeTopic(log.topics[2]), DecodeData(log.data, 32))
      case (Some(to), Some(id), Some(data)) =>
        Some(ReleasedEvent(chain, log.transactionHash, id[..32], TopicAddress(to), FromBe(data[0..32])))
      case _ => None
  }

  function VerifyAgainst(released: ReleasedEvent, initiated: InitiatedEvent): AlertType {
    if released.amount == initiated.amount && released.recipient == initiated.recipient then Verified else Mismatch
  }

  // ----- The contract's echo -----

  /** The `HotPathReleased` log of a Bank that executes the decoded release call. */
  function EchoLog(topic0: string, tx: string, to: Address, amount: nat, id: Bytes): RpcLog {
    RpcLog(tx, [topic0, "0x" + BytesToHex(Zeros(12) + to), "0x" + BytesToHex(id)],
        "0x" + BytesToHex(BeBytes(amount, 32)))
  }

  lemma {:induction false} WordsAreDecoded(bs: Bytes)
    requires |bs| == 32
    ensures DecodeTopic("0x" + BytesToHex(bs)) == Some(bs) && DecodeData("0x" + BytesToHex(bs), 32) == Some(bs)
    ensures bs[..32] == bs[0..32] == bs
  {
    HexRoundTrip(bs);
  }

  lemma {:induction false} PaddedAddress(to: Address)
    ensures |Zeros(12) + to| == 32 && TopicAddress(Zeros(12) + to) == to
  {
  }

  lemma {:induction false} EchoIsParsed(topic0: string, tx: string, to: Address, amount: nat, id: Bytes, chain: ChainId)
    requires amount < Pow256(32) && |id| == 32
    ensures ParseReleased(EchoLog(topic0, tx, to, amount, id), chain) == Some(ReleasedEvent(chain, tx, id, to, amount))
  {
    PaddedAddress(to);
    WordsAreDecoded(Zeros(12) + to);
    WordsAreDecoded(id);
    WordsAreDecoded(BeBytes(amount, 32));
    FromBeOfBeBytes(amount, 32);
  }

  /** Whenever the relayer can read a log, the watcher reads the same id, recipient and amount. */
  lemma {:induction false} WatcherReadsWhatRelayerReads(log: RpcLog, chain: ChainId)
    requires ParseHotPathEvent(log, chain).Some?
    ensures var event := ParseHotPathEvent(log, chain).value;
            && event.amount < Pow256(32) && |event.eventId| == 32
            && ParseInitiated(log, chain)
               == Some((event.eventId, InitiatedEvent(chain, log.transactionHash, event.recipient, event.amount)))
  {
    FromBeBound(DecodeData(log.data, 128).value[0..32]);
  }

  /** What the Bank reads from the relayer's calldata. */
  function Executed(selector: Selector, event: HotPathEvent): Option<(Selector, Address, nat, Bytes)> {
    DecodeRelease(ReleaseCalldata(selector, event.recipient, event.amount, event.eventId))
  }

  /**
    An honest relay end to end: the relayer's parse of an initiated log goes into release
    calldata, the Bank decodes it and echoes a `HotPathReleased` log, and the watcher's
    parse of that log carries the id of the initiated event and verifies against it.
   */
  lemma {:induction false} HonestRelayVerifies(log: RpcLog, chain: ChainId, selector: Selector,
                                               topic0: string, tx: string, destChain: ChainId)
    requires ParseHotPathEvent(log, chain).Some?
    ensures var event := ParseHotPathEvent(log, chain).value;
            && ParseInitiated(log, chain).Some?
            && Executed(selector, event).Some?
            && var (id, initiated) := ParseInitiated(log, chain).value;
               var (_, to, amount, transfer) := Executed(selector, event).value;
               && |transfer| == 32
               && ParseReleased(EchoLog(topic0, tx, to, amount, transfer), destChain).Some?
               && var released := ParseReleased(EchoLog(topic0, tx, to, amount, transfer), destChain).value;
                  released.transferId == id && VerifyAgainst(released, initiated) == Verified
  {
    WatcherReadsWhatRelayerReads(log, chain);
    var event := ParseHotPathEvent(log, chain).value;
    ReleaseRoundTrip(selector, event.recipient, event.amount, event.eventId);
    EchoIsParsed(topic0, tx, event.recipient, event.amount, event.eventId, destChain);
  }

  /** Releasing anything else than what was initiated is never verified. */
  lemma {:induction false} AlteredReleaseMismatches(log: RpcLog, chain: ChainId, to: Address, amount: nat,
      topic0: string,
                                                    tx: string, destChain: ChainId)
    requires ParseInitiated(log, chain).Some? && amount < Pow256(32)
    ensures var (id, initiated) := ParseInitiated(log, chain).value;
            && |id| == 32
            && ParseReleased(EchoLog(topic0, tx, to, amount, id), destChain).Some?
            && (VerifyAgainst(ParseReleased(EchoLog(topic0, tx, to, amount, id), destChain).value, initiated)
                == Verified
                <==> to == initiated.recipient && amount == initiated.amount)
  {
    var (id, _) := ParseInitiated(log, chain).value;
    EchoIsParsed(topic0, tx, to, amount, id, destChain);
  }

  // ----- The watcher -----

  type Cache = map<Bytes, InitiatedEvent>

  /** The cache after the parsed logs of one poll, later logs replacing earlier ones. */
  function Cached(cache: Cache, logs: seq<RpcLog>, chain: ChainId): Cache {
    if logs == [] then cache
    else
      var last := logs[|logs| - 1];
      var before := Cached(cache, logs[..|logs| - 1], chain);
      match ParseInitiated(last, chain)
      case Some((id, event)) => before[id := event]
      case None => before
  }

  function Classify(cache: Cache, release: ReleasedEvent): AlertType {
    if release.transferId in cache then VerifyAgainst(release, cache[release.transferId]) else SourceNotFound
  }

  class Watcher {
    var initiatedCache: Cache
    var alerts: map<Bytes, Alert>
    /** Releases for which a `pause()` went through, oldest first. */
    var pauses: seq<ReleasedEvent>

    constructor ()
      ensures initiatedCache == map[] && alerts == map[] && pauses == []
    {
      initiatedCache, alerts, pauses := map[], map[], [];
    }

    /** The caching half of `poll_initiated_loop`. */
    method CacheInitiated(logs: seq<RpcLog>, chain: ChainId)
      modifies this`initiatedCache
      ensures initiatedCache == Cached(old(initiatedCache), logs, chain)
    {
      for i := 0 to |logs|
        invariant initiatedCache == Cached(old(initiatedCache), logs[..i], chain)
      {
        assert logs[..i + 1][..i] == logs[..i];
        var parsed := ParseInitiated(logs[i], chain);
        if parsed.Some? {
          var (id, event) := parsed.value;
          initiatedCache := initiatedCache[id := event];
        }
      }
      assert logs[..|logs|] == logs;
    }

    /**
      `verify_release`, given what `pause_contract` would answer: the first alert of a
      transfer stands, an anomaly asks for one pause, and its alert is stored whether or not
      the pause went through.
     */
    method VerifyRelease(release: ReleasedEvent, pause: Option<string>)
      modifies this`alerts, this`pauses
      ensures release.transferId in old(alerts) ==> alerts == old(alerts) && pauses == old(pauses)
      ensures release.transferId !in old(alerts) ==>
                var kind := Classify(initiatedCache, release);
                && alerts == old(alerts)[release.transferId := Alert(kind, if kind == Verified then None else pause)]
                && pauses == old(pauses) + (if kind != Verified && pause.Some? then [release] else [])
    {
      if release.transferId in alerts {
        return;
      }
      var kind := SourceNotFound;
      if release.transferId in initiatedCache {
        kind := VerifyAgainst(release, initiatedCache[release.transferId]);
      }
      var pauseTx := None;
      if kind != Verified {
        pauseTx := pause;
        if pause.Some? {
          pauses := pauses + [release];
        }
      }
      alerts := alerts[release.transferId := Alert(kind, pauseTx)];
    }
  }

  const MAX_PAUSE_RETRIES: nat := 3

  /** What `pause_contract` needs before it tries: the pauser's key and address, an RPC and a Bank entry. */
  datatype PauseSetup = PauseSetup(key: bool, address: bool, rpc: bool, bank: bool)

  predicate CanTry(setup: PauseSetup) {
    setup.key && setup.address && setup.rpc && setup.bank
  }

  /** Tries up to three times; no pause goes through without the setup, nor when every attempt fails. */
  method PauseContract(setup: PauseSetup, attempt: nat -> Option<string>) returns (tx: Option<string>)
    ensures tx.None? <==>
              || !(setup.key && setup.address && setup.rpc && setup.bank)
              || forall i: nat | 1 <= i <= 3 :: attempt(i).None?
    ensures tx.Some? ==>
              exists i: nat | 1 <= i <= 3 ::
                tx == attempt(i) && forall j: nat | 1 <= j < i :: attempt(j).None?
  {
    if !CanTry(setup) {
      return None;
    }
    for i := 1 to MAX_PAUSE_RETRIES + 1
      invariant forall j: nat | 1 <= j < i :: attempt(j).None?
    {
      tx := attempt(i);
      if tx.Some? {
        return;
      }
    }
    return None;
  }

  lemma {:induction false} CachedKeeps(cache: Cache, logs: seq<RpcLog>, chain: ChainId, id: Bytes)
    requires forall i | 0 <= i < |logs| ::
               ParseInitiated(logs[i], chain).Some? ==> ParseInitiated(logs[i], chain).value.0 != id
    ensures id in Cached(cache, logs, chain) <==> id in cache
    ensures id in cache ==> Cached(cache, logs, chain)[id] == cache[id]
  {
    if logs != [] {
      CachedKeeps(cache, logs[..|logs| - 1], chain, id);
    }
  }

  /** After a poll, the cache holds every initiated event whose id is its own in that poll. */
  lemma {:induction false} CachedHolds(cache: Cache, logs: seq<RpcLog>, chain: ChainId, k: nat)
    requires k < |logs| && ParseInitiated(logs[k], chain).Some?
    requires forall i | k < i < |logs| :: ParseInitiated(logs[i], chain).Some? ==>
               ParseInitiated(logs[i], chain).value.0 != ParseInitiated(logs[k], chain).value.0
    ensures var (id, event) := ParseInitiated(logs[k], chain).value;
            id in Cached(cache, logs, chain) && Cached(cache, logs, chain)[id] == event
  {
    var n := |logs| - 1;
    if k < n {
      CachedHolds(cache, logs[..n], chain, k);
    }
  }

  /**
    The release of an honest relay is classified as verified exactly when the watcher holds
    an initiated event of that id with that recipient and amount; a watcher that has not
    seen the event yet reports a missing source.
   */
  lemma {:induction false} HonestRelayClassified(cache: Cache, log: RpcLog, chain: ChainId,
                                                 topic0: string, tx: string, destChain: ChainId)
    requires ParseHotPathEvent(log, chain).Some?
    ensures var event := ParseHotPathEvent(log, chain).value;
            && event.amount < Pow256(32) && |event.eventId| == 32
            && ParseReleased(EchoLog(topic0, tx, event.recipient, event.amount, event.eventId), destChain).Some?
            && var release := ParseReleased(EchoLog(topic0, tx, event.recipient, event.amount, event.eventId),
                destChain).value;
               && (Classify(cache, release) == Verified <==>
                     event.eventId in cache && cache[event.eventId].recipient == event.recipient
                     && cache[event.eventId].amount == event.amount)
               && (Classify(cache, release) == SourceNotFound <==> event.eventId !in cache)
  {
    WatcherReadsWhatRelayerReads(log, chain);
    var event := ParseHotPathEvent(log, chain).value;
    EchoIsParsed(topic0, tx, event.recipient, event.amount, event.eventId, destChain);
  }

  /** The logs one poll of one chain returned. */
  datatype LogPoll = LogPoll(chain: ChainId, logs: seq<RpcLog>)

  function CachedAll(cache: Cache, polls: seq<LogPoll>): Cache {
    if polls == [] then cache
    else
      var last := polls[|polls| - 1];
      Cached(CachedAll(cache, polls[..|polls| - 1]), last.logs, last.chain)
  }

  predicate NamesEvent(log: RpcLog, chain: ChainId, id: Bytes) {
    ParseInitiated(log, chain).Some? && ParseInitiated(log, chain).value.0 == id
  }

  ghost predicate WithoutEvent(poll: LogPoll, id: Bytes) {
    forall i | 0 <= i < |poll.logs| :: !NamesEvent(poll.logs[i], poll.chain, id)
  }

  lemma {:induction false} CachedAllKeeps(cache: Cache, polls: seq<LogPoll>, id: Bytes)
    requires forall p | 0 <= p < |polls| :: WithoutEvent(polls[p], id)
    ensures id in CachedAll(cache, polls) <==> id in cache
    ensures id in cache ==> CachedAll(cache, polls)[id] == cache[id]
  {
    if polls != [] {
      var n := |polls| - 1;
      CachedAllKeeps(cache, polls[..n], id);
      var last := polls[n];
      assert WithoutEvent(last, id);
      forall i | 0 <= i < |last.logs| && ParseInitiated(last.logs[i], last.chain).Some?
        ensures ParseInitiated(last.logs[i], last.chain).value.0 != id
      {
        assert !NamesEvent(last.logs[i], last.chain, id);
      }
      CachedKeeps(CachedAll(cache, polls[..n]), last.logs, last.chain, id);
    }
  }

  /**
    From the poll that saw the log on, through any later polls of any chains that bring no
    other log of that event id, the honest release is verified.
   */
  lemma {:induction false} HonestRelayAfterPolls(cache: Cache, poll: LogPoll, k: nat, later: seq<LogPoll>,
                                                 topic0: string, tx: string, destChain: ChainId)
    requires k < |poll.logs| && ParseHotPathEvent(poll.logs[k], poll.chain).Some?
    requires var id := ParseHotPathEvent(poll.logs[k], poll.chain).value.eventId;
             && (forall i | k < i < |poll.logs| :: !NamesEvent(poll.logs[i], poll.chain, id))
             && (forall p | 0 <= p < |later| :: WithoutEvent(later[p], id))
    ensures var event := ParseHotPathEvent(poll.logs[k], poll.chain).value;
            && event.amount < Pow256(32) && |event.eventId| == 32
            && ParseReleased(EchoLog(topic0, tx, event.recipient, event.amount, event.eventId), destChain).Some?
            && Classify(CachedAll(Cached(cache, poll.logs, poll.chain), later),
                        ParseReleased(EchoLog(topic0, tx, event.recipient, event.amount, event.eventId),
                            destChain).value)
               == Verified
  {
    var log, chain := poll.logs[k], poll.chain;
    WatcherReadsWhatRelayerReads(log, chain);
    var id := ParseHotPathEvent(log, chain).value.eventId;
    forall i | k < i < |poll.logs| && ParseInitiated(poll.logs[i], chain).Some?
      ensures ParseInitiated(poll.logs[i], chain).value.0 != id
    {
      assert !NamesEvent(poll.logs[i], chain, id);
    }
    CachedHolds(cache, poll.logs, chain, k);
    CachedAllKeeps(Cached(cache, poll.logs, chain), later, id);
    HonestRelayClassified(CachedAll(Cached(cache, poll.logs, chain), later), log, chain, topic0, tx, destChain);
  }

  // ----- The cache as a function of the polls -----

  /** The last initiated event of that id among the logs of one poll. */
  function LatestIn(logs: seq<RpcLog>, chain: ChainId, id: Bytes): Option<InitiatedEvent> {
    if logs == [] then None
    else
      var last := logs[|logs| - 1];
      if NamesEvent(last, chain, id) then Some(ParseInitiated(last, chain).value.1)
      else LatestIn(logs[..|logs| - 1], chain, id)
  }

  /** The last one among the polls of all chains. */
  function Latest(polls: seq<LogPoll>, id: Bytes): Option<InitiatedEvent> {
    if polls == [] then None
    else
      var last := polls[|polls| - 1];
      var found := LatestIn(last.logs, last.chain, id);
      if found.Some? then found else Latest(polls[..|polls| - 1], id)
  }

  function Lookup(cache: Cache, id: Bytes): Option<InitiatedEvent> {
    if id in cache then Some(cache[id]) else None
  }

  lemma {:induction false} CachedIsLatest(cache: Cache, logs: seq<RpcLog>, chain: ChainId, id: Bytes)
    ensures Lookup(Cached(cache, logs, chain), id)
         == if LatestIn(logs, chain, id).Some? then LatestIn(logs, chain, id) else Lookup(cache, id)
  {
    if logs != [] {
      CachedIsLatest(cache, logs[..|logs| - 1], chain, id);
    }
  }

  /** A watcher that began with an empty cache holds the latest event of every id. */
  lemma {:induction false} CacheHoldsLatest(polls: seq<LogPoll>, id: Bytes)
    ensures Lookup(CachedAll(map[], polls), id) == Latest(polls, id)
  {
    if polls != [] {
      var n := |polls| - 1;
      CacheHoldsLatest(polls[..n], id);
      CachedIsLatest(CachedAll(map[], polls[..n]), polls[n].logs, polls[n].chain, id);
    }
  }
}
