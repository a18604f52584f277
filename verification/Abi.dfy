/**
  Calldata of the Bank and bridge-adapter functions (services/treasury/src/domain/abi.rs)
  and a decoder that follows offsets as the Solidity Contract ABI Specification, section
  "Use of Dynamic Types", lays down.
 */
module Abi {
  import opened Wrappers
  import opened ByteStrings

  type Selector = s: Bytes | |s| == 4 witness [0, 0, 0, 0]
  type Address = a: Bytes | |a| == 20 witness [0, 0, 0, 0, 0, 0, 0, 0, 0, 0, 0, 0, 0, 0, 0, 0, 0, 0, 0, 0]

  function Zeros(n: nat): (z: Bytes)
    ensures |z| == n && forall i | 0 <= i < n :: z[i] == 0
  {
    seq(n, i => 0)
  }

  // ----- Static arguments -----

  function ReleaseCalldata(selector: Selector, recipient: Address, amount: nat, eventId: Bytes): Bytes {
    selector + Zeros(12) + recipient + BeBytes(amount, 32) + eventId
  }

  method EncodeReleaseHotPath(selector: Selector, recipient: Address, amount: nat, eventId: Bytes) returns (data: Bytes)
    ensures data == ReleaseCalldata(selector, recipient, amount, eventId)
  {
    data := [];
    data := data + selector;
    data := data + Zeros(12);
    data := data + recipient;
    data := data + BeBytes(amount, 32);
    data := data + eventId;
  }

  /** `releaseHotPath(address to, uint256 amount, bytes32 sourceEventHash)` as the contract reads it. */
  function DecodeRelease(data: Bytes): Option<(Selector, Address, nat, Bytes)> {
    if |data| != 100 || data[4..16] != Zeros(12) then None
    else Some((data[..4], data[16..36], FromBe(data[36..68]), data[68..100]))
  }

  lemma {:induction false} ReleaseRoundTrip(selector: Selector, recipient: Address, amount: nat, eventId: Bytes)
    requires amount < Pow256(32) && |eventId| == 32
    ensures DecodeRelease(ReleaseCalldata(selector, recipient, amount, eventId))
         == Some((selector, recipient, amount, eventId))
  {
    FromBeOfBeBytes(amount, 32);
    ReleaseParts(selector, Zeros(12), recipient, BeBytes(amount, 32), eventId);
  }

  lemma {:induction false} ReleaseParts(selector: Bytes, pad: Bytes, recipient: Bytes, amount: Bytes, eventId: Bytes)
    requires |selector| == 4 && |pad| == 12 && |recipient| == 20 && |amount| == 32 && |eventId| == 32
    ensures var data := selector + pad + recipient + amount + eventId;
            && |data| == 100 && data[..4] == selector && data[4..16] == pad && data[16..36] == recipient
            && data[36..68] == amount && data[68..100] == eventId
  {
  }

  /** `rebalance(uint64,uint256)` and `bridgeReserve(uint64,uint256)` have the same shape. */
  function ChainAmountCalldata(selector: Selector, destChain: nat, amount: nat): Bytes {
    selector + Zeros(24) + BeBytes(destChain, 8) + BeBytes(amount, 32)
  }

  method EncodeRebalance(selector: Selector, destChain: nat, amount: nat) returns (data: Bytes)
    ensures data == ChainAmountCalldata(selector, destChain, amount)
  {
    data := [];
    data := data + selector;
    data := data + Zeros(24);
    data := data + BeBytes(destChain, 8);
    data := data + BeBytes(amount, 32);
  }

  function DecodeChainAmount(data: Bytes): Option<(Selector, nat, nat)> {
    if |data| != 68 then None
    else Some((data[..4], FromBe(data[4..36]), FromBe(data[36..68])))
  }

  lemma {:induction false} ZeroPrefix(n: nat, bs: Bytes)
    ensures FromBe(Zeros(n) + bs) == FromBe(bs)
  {
    if n == 0 {
      assert Zeros(0) + bs == bs;
    } else {
      var all := Zeros(n) + bs;
      assert Zeros(n)[1..] == Zeros(n - 1);
      assert all[1..] == Zeros(n)[1..] + bs;
      LeadingZeroByte(all);
      ZeroPrefix(n - 1, bs);
    }
  }

  lemma {:induction false} ChainAmountRoundTrip(selector: Selector, destChain: nat, amount: nat)
    requires destChain < Pow256(8) && amount < Pow256(32)
    ensures DecodeChainAmount(ChainAmountCalldata(selector, destChain, amount)) == Some((selector, destChain, amount))
  {
    FromBeOfBeBytes(destChain, 8);
    FromBeOfBeBytes(amount, 32);
    ZeroPrefix(24, BeBytes(destChain, 8));
    ChainAmountParts(selector, Zeros(24), BeBytes(destChain, 8), BeBytes(amount, 32));
  }

  lemma {:induction false} ChainAmountParts(selector: Bytes, pad: Bytes, chain: Bytes, amount: Bytes)
    requires |selector| == 4 && |pad| == 24 && |chain| == 8 && |amount| == 32
    ensures var data := selector + pad + chain + amount;
            |data| == 68 && data[..4] == selector && data[4..36] == pad + chain && data[36..68] == amount
  {
  }

  // ----- Two dynamic arguments -----

  /** Zero bytes from a length to the next multiple of 32. */
  function PadLen(n: nat): (p: nat)
    ensures p < 32 && (n + p) % 32 == 0
  {
    if n % 32 == 0 then 0 else 32 - n % 32
  }

  function Word(v: nat): (w: Bytes)
    ensures |w| == 32
  {
    Zeros(24) + BeBytes(v, 8)
  }

  function Tail(arg: Bytes): (t: Bytes)
    ensures |t| == 32 + |arg| + PadLen(|arg|) && |t| % 32 == 0
  {
    Word(|arg|) + arg + Zeros(PadLen(|arg|))
  }

  /** One 32 byte slot for each argument. */
  function HeadSize(args: seq<Bytes>): nat {
    32 * |args|
  }

  /** Two offsets, then the two tails they point at. */
  function BridgeInBody(message: Bytes, attestation: Bytes): Bytes {
    var head := HeadSize([message, attestation]);
    Word(head) + Word(head + |Tail(message)|) + Tail(message) + Tail(attestation)
  }

  function BridgeInCalldata(selector: Selector, message: Bytes, attestation: Bytes): Bytes {
    selector + BridgeInBody(message, attestation)
  }

  /** Appends `bytes(arg)`: its length, its content and its padding. */
  method WriteTail(data: Bytes, arg: Bytes) returns (out: Bytes)
    ensures out == data + Tail(arg)
  {
    out := data + Word(|arg|);
    out := out + arg;
    out := out + Zeros(PadLen(|arg|));
  }

  method EncodeBridgeIn(selector: Selector, message: Bytes, attestation: Bytes) returns (data: Bytes)
    ensures data == BridgeInCalldata(selector, message, attestation)
  {
    var msgPad := PadLen(|message|);
    var msgOffset := HeadSize([message, attestation]);
    var attOffset := msgOffset + 32 + |message| + msgPad;
    data := [];
    data := data + selector;
    var head := Word(msgOffset);
    head := head + Word(attOffset);
    var body := WriteTail(head, message);
    body := WriteTail(body, attestation);
    data := data + body;
  }

  /** The word at `at`, if the body holds it. */
  function ReadWord(body: Bytes, at: nat): Option<nat> {
    if |body| < at + 32 then None else Some(FromBe(body[at..at + 32]))
  }

  /** A `bytes` argument whose length word stands at `at`; its padding must be zero. */
  function ReadBytesAt(body: Bytes, at: nat): Option<Bytes> {
    match ReadWord(body, at)
    case None => None
    case Some(n) =>
      var from := at + 32;
      if |body| < from + n + PadLen(n) || body[from + n..from + n + PadLen(n)] != Zeros(PadLen(n)) then None
      else Some(body[from..from + n])
  }

  function DecodeBridgeIn(data: Bytes): Option<(Selector, Bytes, Bytes)> {
    if |data| < 4 || |data| % 32 != 4 then None
    else
      var body := data[4..];
      match (ReadWord(body, 0), ReadWord(body, 32))
      case (Some(m), Some(a)) =>
        (match (ReadBytesAt(body, m), ReadBytesAt(body, a))
         case (Some(message), Some(attestation)) => Some((data[..4], message, attestation))
         case _ => None)
      case _ => None
  }

  lemma {:induction false} WordValue(v: nat)
    requires v < Pow256(8)
    ensures FromBe(Word(v)) == v
  {
    FromBeOfBeBytes(v, 8);
    ZeroPrefix(24, BeBytes(v, 8));
  }

  lemma {:induction false} WordIsRead(before: Bytes, v: nat, after: Bytes)
    requires v < Pow256(8)
    ensures ReadWord(before + Word(v) + after, |before|) == Some(v)
  {
    WordValue(v);
    assert (before + Word(v) + after)[|before|..|before| + 32] == Word(v);
  }

  lemma {:induction false} TailIsRead(before: Bytes, arg: Bytes, after: Bytes)
    requires |arg| < Pow256(8)
    ensures ReadWord(before + Tail(arg) + after, |before|) == Some(|arg|)
    ensures ReadBytesAt(before + Tail(arg) + after, |before|) == Some(arg)
  {
    var body := before + Tail(arg) + after;
    var at, n := |before|, |arg|;
    var padding := Zeros(PadLen(n));
    assert body == before + Word(n) + (arg + padding + after);
    WordIsRead(before, n, arg + padding + after);
    assert body[at + 32..at + 32 + n] == arg;
    assert body[at + 32 + n..at + 32 + n + PadLen(n)] == padding;
  }

  lemma {:induction false} HeadIsRead(v: nat, w: nat, after: Bytes)
    requires v < Pow256(8) && w < Pow256(8)
    ensures ReadWord(Word(v) + Word(w) + after, 0) == Some(v)
    ensures ReadWord(Word(v) + Word(w) + after, 32) == Some(w)
  {
    assert Word(v) + Word(w) + after == [] + Word(v) + (Word(w) + after);
    WordIsRead([], v, Word(w) + after);
    WordIsRead(Word(v), w, after);
  }

  lemma {:induction false} Regroup(a: Bytes, b: Bytes, c: Bytes)
    ensures a + b + c == a + (b + c) && a + b + c == a + b + c + []
  {
  }

  /** Where each part of a body of this shape is found. */
  lemma {:induction false} PartsAreRead(v: nat, w: nat, message: Bytes, attestation: Bytes)
    requires v < Pow256(8) && w < Pow256(8) && |message| < Pow256(8) && |attestation| < Pow256(8)
    ensures var body := Word(v) + Word(w) + Tail(message) + Tail(attestation);
            && ReadWord(body, 0) == Some(v) && ReadWord(body, 32) == Some(w)
            && ReadWord(body, 64) == Some(|message|) && ReadBytesAt(body, 64) == Some(message)
            && ReadWord(body, 64 + |Tail(message)|) == Some(|attestation|)
            && ReadBytesAt(body, 64 + |Tail(message)|) == Some(attestation)
  {
    var head := Word(v) + Word(w);
    var t0, t1 := Tail(message), Tail(attestation);
    Regroup(head, t0, t1);
    HeadIsRead(v, w, t0 + t1);
    TailIsRead(head, message, t1);
    TailIsRead(head + t0, attestation, []);
  }

  lemma {:induction false} BodyLength(message: Bytes, attestation: Bytes)
    ensures |BridgeInBody(message, attestation)| == 64 + |Tail(message)| + |Tail(attestation)|
    ensures |BridgeInBody(message, attestation)| % 32 == 0
  {
    WholeWords(|Tail(message)|, |Tail(attestation)|);
  }

  lemma {:induction false} WholeWords(x: nat, y: nat)
    requires x % 32 == 0 && y % 32 == 0
    ensures (64 + x + y) % 32 == 0
  {
  }

  /**
    The body of `bridgeIn`: both offsets point at the length word of their argument, and
    its length is a multiple of 32.
   */
  lemma {:induction false} BridgeInLayout(message: Bytes, attestation: Bytes)
    requires HeadSize([message, attestation]) + |Tail(message)| < Pow256(8) && |attestation| < Pow256(8)
    ensures var body, head := BridgeInBody(message, attestation), HeadSize([message, attestation]);
            && |body| % 32 == 0
            && ReadWord(body, 0) == Some(head)
            && ReadWord(body, 32) == Some(head + |Tail(message)|)
            && ReadWord(body, head) == Some(|message|)
            && ReadWord(body, head + |Tail(message)|) == Some(|attestation|)
            && ReadBytesAt(body, head) == Some(message)
            && ReadBytesAt(body, head + |Tail(message)|) == Some(attestation)
  {
    var head := HeadSize([message, attestation]);
    BodyLength(message, attestation);
    PartsAreRead(head, head + |Tail(message)|, message, attestation);
  }

  lemma {:induction false} DecodesFromParts(selector: Selector, body: Bytes, message: Bytes, attestation: Bytes,
      m: nat, a: nat)
    requires |body| % 32 == 0 && ReadWord(body, 0) == Some(m) && ReadWord(body, 32) == Some(a)
    requires ReadBytesAt(body, m) == Some(message) && ReadBytesAt(body, a) == Some(attestation)
    ensures DecodeBridgeIn(selector + body) == Some((selector, message, attestation))
  {
    var data := selector + body;
    assert data[..4] == selector && data[4..] == body;
  }

  /**
    The calldata of `bridgeIn` decodes to its arguments, for all lengths whose offsets are
    `u64`.
   */
  lemma {:induction false} BridgeInRoundTrip(selector: Selector, message: Bytes, attestation: Bytes)
    requires HeadSize([message, attestation]) + |Tail(message)| < Pow256(8) && |attestation| < Pow256(8)
    ensures DecodeBridgeIn(BridgeInCalldata(selector, message, attestation)) == Some((selector, message, attestation))
  {
    var head := HeadSize([message, attestation]);
    BridgeInLayout(message, attestation);
    DecodesFromParts(selector, BridgeInBody(message, attestation), message, attestation, head, head + |Tail(message)|);
  }
}
