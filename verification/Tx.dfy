/**
  EIP-1559 payloads (services/treasury/src/eth/tx.rs). Hashing and the signature itself
  are opaque: the signature is any `v`, `r`, `s`.
 */
module Tx {
  import opened Wrappers
  import opened ByteStrings
  import opened Rlp

  datatype TxFields = TxFields(
    chainId: nat, nonce: nat, maxPriorityFee: nat, maxFee: nat, gasLimit: nat,
    to: Bytes, value: Bytes, data: Bytes)

  const TX_TYPE: Byte := 0x02

  /** The numbers are `u64`. */
  predicate U64Fields(f: TxFields) {
    && f.chainId < Pow256(8) && f.nonce < Pow256(8) && f.maxPriorityFee < Pow256(8)
    && f.maxFee < Pow256(8) && f.gasLimit < Pow256(8)
  }

  /** Byte strings and payloads are no longer than a `usize` can say. */
  predicate InMemory(f: TxFields, extra: seq<Bytes>) {
    && |f.to| < Pow256(8) && |f.value| < Pow256(8) && |f.data| < Pow256(8)
    && |Flatten(FieldList(f) + extra)| < Pow256(8)
  }

  function FieldList(f: TxFields): seq<Bytes> {
    [EncodeUint(f.chainId), EncodeUint(f.nonce), EncodeUint(f.maxPriorityFee), EncodeUint(f.maxFee),
        EncodeUint(f.gasLimit)]
    + [EncodeBytes(f.to), EncodeBytes(f.value), EncodeBytes(f.data), EncodeList([])]
  }

  function BuildTxRlp(f: TxFields): Bytes {
    EncodeList(FieldList(f))
  }

  /** What is hashed and signed. */
  function SigningPayload(f: TxFields): Bytes {
    [TX_TYPE] + BuildTxRlp(f)
  }

  /** What is sent: the fields, then the recovery id as a number and `r`, `s` as 32 bytes each. */
  function SignedTx(f: TxFields, v: nat, r: Bytes, s: Bytes): Bytes {
    [TX_TYPE] + EncodeList(FieldList(f) + [EncodeUint(v), EncodeBytes(r), EncodeBytes(s)])
  }

  method SignEip1559Tx(f: TxFields, v: nat, r: Bytes, s: Bytes) returns (toSign: Bytes, raw: Bytes)
    ensures toSign == SigningPayload(f) && raw == SignedTx(f, v, r, s)
    ensures |toSign| > 1 && |raw| > 1 && toSign[0] == raw[0] == 0x02 && toSign[1] >= 0xc0 && raw[1] >= 0xc0
  {
    var chainId := RlpEncodeUint(f.chainId);
    var nonce := RlpEncodeUint(f.nonce);
    var maxPriorityFee := RlpEncodeUint(f.maxPriorityFee);
    var maxFee := RlpEncodeUint(f.maxFee);
    var gasLimit := RlpEncodeUint(f.gasLimit);
    var to := RlpEncodeBytes(f.to);
    var value := RlpEncodeBytes(f.value);
    var data := RlpEncodeBytes(f.data);
    var accessList := RlpEncodeList([]);
    assert Flatten([]) == [];
    var fields := [chainId, nonce, maxPriorityFee, maxFee, gasLimit] + [to, value, data, accessList];
    assert fields == FieldList(f);
    var signingRlp := RlpEncodeList(fields);
    toSign := [TX_TYPE];
    toSign := toSign + signingRlp;
    var v' := RlpEncodeUint(v);
    var r' := RlpEncodeBytes(r);
    var s' := RlpEncodeBytes(s);
    var signedRlp := RlpEncodeList(fields + [v', r', s']);
    raw := [TX_TYPE];
    raw := raw + signedRlp;
  }

  // ----- The payload as an RLP tree -----

  function Numbers(f: TxFields): seq<nat> {
    [f.chainId, f.nonce, f.maxPriorityFee, f.maxFee, f.gasLimit]
  }

  function UintItem(n: nat): Item {
    Str(TrimmedBe(n, 8))
  }

  function UintItems(ns: seq<nat>): (r: seq<Item>)
    ensures |r| == |ns|
  {
    if ns == [] then [] else [UintItem(ns[0])] + UintItems(ns[1..])
  }

  function FieldItems(f: TxFields): seq<Item> {
    UintItems(Numbers(f)) + [Str(f.to), Str(f.value), Str(f.data), List([])]
  }

  function SignatureItems(v: nat, r: Bytes, s: Bytes): seq<Item> {
    [UintItem(v), Str(r), Str(s)]
  }

  lemma {:induction false} EncodeEachAt(items: seq<Item>, i: nat)
    requires i < |items|
    ensures EncodeEach(items)[i] == Encode(items[i])
  {
    if i > 0 {
      EncodeEachAt(items[1..], i - 1);
    }
  }

  lemma {:induction false} EncodeEachAppend(a: seq<Item>, b: seq<Item>)
    ensures EncodeEach(a + b) == EncodeEach(a) + EncodeEach(b)
  {
    forall i: nat | i < |a + b| ensures EncodeEach(a + b)[i] == (EncodeEach(a) + EncodeEach(b))[i] {
      EncodeEachAt(a + b, i);
      if i < |a| {
        EncodeEachAt(a, i);
      } else {
        EncodeEachAt(b, i - |a|);
      }
    }
  }

  function EncodeUints(ns: seq<nat>): (r: seq<Bytes>)
    ensures |r| == |ns| && forall i: nat | i < |ns| :: r[i] == EncodeUint(ns[i])
  {
    seq(|ns|, i requires 0 <= i < |ns| => EncodeUint(ns[i]))
  }

  lemma {:induction false} UintItemAt(ns: seq<nat>, i: nat)
    requires i < |ns|
    ensures UintItems(ns)[i] == UintItem(ns[i])
  {
    if i > 0 {
      UintItemAt(ns[1..], i - 1);
    }
  }

  lemma {:induction false} UintsEncoded(ns: seq<nat>)
    ensures EncodeEach(UintItems(ns)) == EncodeUints(ns)
  {
    forall i: nat | i < |ns| ensures EncodeEach(UintItems(ns))[i] == EncodeUint(ns[i]) {
      UintItemAt(ns, i);
      EncodeEachAt(UintItems(ns), i);
    }
  }

  lemma {:induction false} FieldListIsTree(f: TxFields)
    ensures EncodeEach(FieldItems(f)) == FieldList(f)
  {
    var tail := [Str(f.to), Str(f.value), Str(f.data), List([])];
    UintsEncoded(Numbers(f));
    EncodeEachAppend(UintItems(Numbers(f)), tail);
    EncodeEachAt(tail, 0);
    EncodeEachAt(tail, 1);
    EncodeEachAt(tail, 2);
    EncodeEachAt(tail, 3);
    assert EncodeEach([]) == [];
    assert EncodeEach(tail) == [EncodeBytes(f.to), EncodeBytes(f.value), EncodeBytes(f.data), EncodeList([])];
  }

  lemma {:induction false} SignatureListIsTree(v: nat, r: Bytes, s: Bytes)
    ensures EncodeEach(SignatureItems(v, r, s)) == [EncodeUint(v), EncodeBytes(r), EncodeBytes(s)]
  {
    var items := SignatureItems(v, r, s);
    EncodeEachAt(items, 0);
    EncodeEachAt(items, 1);
    EncodeEachAt(items, 2);
  }

  // ----- Reading a payload back -----

  function ReadUints(items: seq<Item>): (r: Option<seq<nat>>)
    ensures r.Some? ==> |r.value| == |items|
  {
    if items == [] then Some([])
    else if !items[0].Str? || !Canonical(items[0].bytes) then None
    else
      match ReadUints(items[1..])
      case Some(ns) => Some([FromBe(items[0].bytes)] + ns)
      case None => None
  }

  /** Reads the nine signed fields; numbers must be canonical. */
  function ReadFields(items: seq<Item>): Option<TxFields>
    requires |items| >= 9
  {
    if items[5].Str? && items[6].Str? && items[7].Str? && items[8] == List([]) then
      match ReadUints(items[..5])
      case Some(ns) => Some(TxFields(ns[0], ns[1], ns[2], ns[3], ns[4], items[5].bytes, items[6].bytes, items[7].bytes))
      case None => None
    else None
  }

  function ReadList(bs: Bytes): Option<seq<Item>> {
    if bs == [] || bs[0] != TX_TYPE then None
    else
      match Decode(bs[1..])
      case Some((item, rest)) => if item.List? && rest == [] then Some(item.items) else None
      case None => None
  }

  function DecodeSigningPayload(bs: Bytes): Option<TxFields> {
    match ReadList(bs)
    case Some(items) => if |items| == 9 then ReadFields(items) else None
    case None => None
  }

  /** The fields with the signature, whose parts are read as plain byte strings. */
  function DecodeSignedTx(bs: Bytes): Option<(TxFields, Bytes, Bytes, Bytes)> {
    match ReadList(bs)
    case Some(items) =>
      if |items| == 12 && items[9].Str? && items[10].Str? && items[11].Str? then
        match ReadFields(items)
        case Some(f) => Some((f, items[9].bytes, items[10].bytes, items[11].bytes))
        case None => None
      else None
    case None => None
  }

  lemma {:induction false} FitsEachOf(items: seq<Item>)
    requires forall i | 0 <= i < |items| :: Fits(items[i])
    ensures FitsEach(items)
  {
    if items != [] {
      FitsEachOf(items[1..]);
    }
  }

  lemma {:induction false} FieldsFit(f: TxFields)
    requires U64Fields(f) && InMemory(f, [])
    ensures Fits(List(FieldItems(f)))
  {
    FieldListIsTree(f);
    assert FieldList(f) + [] == FieldList(f);
    FieldItemsFit(f);
  }

  predicate U64s(ns: seq<nat>) {
    forall i | 0 <= i < |ns| :: ns[i] < Pow256(8)
  }

  lemma {:induction false} UintItemsFit(ns: seq<nat>)
    requires U64s(ns)
    ensures FitsEach(UintItems(ns)) && ReadUints(UintItems(ns)) == Some(ns)
  {
    if ns != [] {
      TrimmedBeIsCanonical(ns[0], 8);
      EightIsSmall();
      UintItemsFit(ns[1..]);
      assert [ns[0]] + ns[1..] == ns;
      assert UintItems(ns)[1..] == UintItems(ns[1..]);
    }
  }

  lemma {:induction false} FitsEachAppend(a: seq<Item>, b: seq<Item>)
    requires FitsEach(a) && FitsEach(b)
    ensures FitsEach(a + b)
  {
    if a == [] {
      assert a + b == b;
    } else {
      FitsEachAppend(a[1..], b);
      assert (a + b)[1..] == a[1..] + b;
    }
  }

  lemma {:induction false} TailFits(to: Bytes, value: Bytes, data: Bytes)
    requires |to| < Pow256(8) && |value| < Pow256(8) && |data| < Pow256(8)
    ensures FitsEach([Str(to), Str(value), Str(data), List([])])
  {
    EightIsSmall();
    FitsEachOf([Str(to), Str(value), Str(data), List([])]);
  }

  lemma {:induction false} FieldItemsFit(f: TxFields)
    requires U64Fields(f) && |f.to| < Pow256(8) && |f.value| < Pow256(8) && |f.data| < Pow256(8)
    ensures FitsEach(FieldItems(f))
  {
    var tail := [Str(f.to), Str(f.value), Str(f.data), List([])];
    UintItemsFit(Numbers(f));
    TailFits(f.to, f.value, f.data);
    FitsEachAppend(UintItems(Numbers(f)), tail);
  }

  lemma {:induction false} EightIsSmall()
    ensures 256 <= Pow256(8) && Flatten(EncodeEach([])) == []
  {
    Pow256Monotonic(1, 8);
  }

  lemma {:induction false} SignatureItemsFit(v: nat, r: Bytes, s: Bytes)
    requires v < Pow256(8) && |r| == |s| == 32
    ensures FitsEach(SignatureItems(v, r, s))
  {
    TrimmedBeIsCanonical(v, 8);
    EightIsSmall();
    FitsEachOf(SignatureItems(v, r, s));
  }

  lemma {:induction false} SignedFieldsFit(f: TxFields, v: nat, r: Bytes, s: Bytes)
    requires U64Fields(f) && v < Pow256(8) && |r| == |s| == 32
    requires InMemory(f, [EncodeUint(v), EncodeBytes(r), EncodeBytes(s)])
    ensures Fits(List(FieldItems(f) + SignatureItems(v, r, s)))
  {
    FieldListIsTree(f);
    SignatureListIsTree(v, r, s);
    EncodeEachAppend(FieldItems(f), SignatureItems(v, r, s));
    FieldItemsFit(f);
    SignatureItemsFit(v, r, s);
    FitsEachAppend(FieldItems(f), SignatureItems(v, r, s));
  }

  lemma {:induction false} ReadListOfItems(items: seq<Item>)
    requires Fits(List(items))
    ensures ReadList([TX_TYPE] + EncodeList(EncodeEach(items))) == Some(items)
  {
    var body := Encode(List(items));
    DecodeUndoesEncode(List(items), []);
    assert body + [] == body;
    assert ([TX_TYPE] + body)[1..] == body;
  }

  lemma {:induction false} NineItems(items: seq<Item>, ns: seq<Item>, a: Item, b: Item, c: Item, d: Item)
    requires |items| >= 9 && |ns| == 5 && items[..9] == ns + [a, b, c, d]
    ensures items[..5] == ns && items[5] == a && items[6] == b && items[7] == c && items[8] == d
  {
    var nine := items[..9];
    assert nine[..5] == items[..5];
    assert nine[5] == items[5] && nine[6] == items[6] && nine[7] == items[7] && nine[8] == items[8];
  }

  lemma {:induction false} FieldsAreRead(f: TxFields, items: seq<Item>)
    requires U64Fields(f) && |items| >= 9 && items[..9] == FieldItems(f)
    ensures ReadFields(items) == Some(f)
  {
    UintItemsFit(Numbers(f));
    NineItems(items, UintItems(Numbers(f)), Str(f.to), Str(f.value), Str(f.data), List([]));
  }

  /** The signing payload can be read back, for every transaction whose lengths are `usize`. */
  lemma {:induction false} SigningPayloadRoundTrip(f: TxFields)
    requires U64Fields(f) && InMemory(f, [])
    ensures DecodeSigningPayload(SigningPayload(f)) == Some(f)
  {
    FieldsFit(f);
    FieldListIsTree(f);
    ReadListOfItems(FieldItems(f));
    FieldsAreRead(f, FieldItems(f));
  }

  /** Different transactions never share a signing payload. */
  lemma {:induction false} SigningPayloadInjective(f: TxFields, g: TxFields)
    requires U64Fields(f) && InMemory(f, [])
    requires U64Fields(g) && InMemory(g, [])
    requires SigningPayload(f) == SigningPayload(g)
    ensures f == g
  {
    SigningPayloadRoundTrip(f);
    SigningPayloadRoundTrip(g);
  }

  /** The transaction that is sent carries exactly the fields that were signed, and the signature. */
  lemma {:induction false} SignedTxRoundTrip(f: TxFields, v: nat, r: Bytes, s: Bytes)
    requires U64Fields(f) && v < Pow256(8) && |r| == |s| == 32
    requires InMemory(f, [EncodeUint(v), EncodeBytes(r), EncodeBytes(s)])
    ensures DecodeSignedTx(SignedTx(f, v, r, s)) == Some((f, TrimmedBe(v, 8), r, s))
    ensures FromBe(TrimmedBe(v, 8)) == v
  {
    SignedTxItems(f, v, r, s);
    TwelveItems(FieldItems(f), SignatureItems(v, r, s));
    FieldsAreRead(f, FieldItems(f) + SignatureItems(v, r, s));
    TrimmedBeIsCanonical(v, 8);
  }

  lemma {:induction false} TwelveItems(a: seq<Item>, b: seq<Item>)
    requires |a| == 9 && |b| == 3
    ensures var items := a + b;
            && |items| == 12 && items[..9] == a && items[9..] == b
            && items[9] == b[0] && items[10] == b[1] && items[11] == b[2]
  {
  }

  lemma {:induction false} SignedTxItems(f: TxFields, v: nat, r: Bytes, s: Bytes)
    requires U64Fields(f) && v < Pow256(8) && |r| == |s| == 32
    requires InMemory(f, [EncodeUint(v), EncodeBytes(r), EncodeBytes(s)])
    ensures ReadList(SignedTx(f, v, r, s)) == Some(FieldItems(f) + SignatureItems(v, r, s))
  {
    SignedFieldsFit(f, v, r, s);
    FieldListIsTree(f);
    SignatureListIsTree(v, r, s);
    EncodeEachAppend(FieldItems(f), SignatureItems(v, r, s));
    ReadListOfItems(FieldItems(f) + SignatureItems(v, r, s));
  }

  /** A strict reader: EIP-1559 has the three parts of the signature as integers, without leading zeros. */
  function DecodeStrictTx(bs: Bytes): Option<(TxFields, nat, nat, nat)> {
    match ReadList(bs)
    case Some(items) =>
      if |items| == 12 then
        match (ReadFields(items), ReadUints(items[9..]))
        case (Some(f), Some(ns)) => Some((f, ns[0], ns[1], ns[2]))
        case _ => None
      else None
    case None => None
  }

  lemma {:induction false} ReadUintsCons(bs: Bytes, items: seq<Item>)
    ensures ReadUints([Str(bs)] + items)
         == if !Canonical(bs) || ReadUints(items).None? then None else Some([FromBe(bs)] + ReadUints(items).value)
  {
    assert ([Str(bs)] + items)[1..] == items;
  }

  lemma {:induction false} ThreeUintsRead(a: Bytes, b: Bytes, c: Bytes)
    ensures ReadUints([Str(a), Str(b), Str(c)])
         == if Canonical(a) && Canonical(b) && Canonical(c) then Some([FromBe(a), FromBe(b), FromBe(c)]) else None
  {
    assert [Str(a), Str(b), Str(c)] == [Str(a)] + ([Str(b)] + ([Str(c)] + []));
    ReadUintsCons(c, []);
    ReadUintsCons(b, [Str(c)] + []);
    ReadUintsCons(a, [Str(b)] + ([Str(c)] + []));
    var none: seq<nat> := [];
    assert [FromBe(a)] + ([FromBe(b)] + ([FromBe(c)] + none)) == [FromBe(a), FromBe(b), FromBe(c)];
  }

  lemma {:induction false} SignatureIsRead(v: nat, r: Bytes, s: Bytes)
    requires v < Pow256(8) && |r| == |s| == 32
    ensures ReadUints(SignatureItems(v, r, s))
         == if r[0] != 0 && s[0] != 0 then Some([v, FromBe(r), FromBe(s)]) else None
  {
    TrimmedBeIsCanonical(v, 8);
    ThreeUintsRead(TrimmedBe(v, 8), r, s);
  }

  /**
    `r` and `s` are sent as their 32 bytes untrimmed, so a strict reader accepts the
    transaction, and reads what was signed, exactly when neither starts with a zero byte.
   */
  lemma {:induction false} SignedTxAcceptedExactly(f: TxFields, v: nat, r: Bytes, s: Bytes)
    requires U64Fields(f) && v < Pow256(8) && |r| == |s| == 32
    requires InMemory(f, [EncodeUint(v), EncodeBytes(r), EncodeBytes(s)])
    ensures DecodeStrictTx(SignedTx(f, v, r, s))
         == if r[0] != 0 && s[0] != 0 then Some((f, v, FromBe(r), FromBe(s))) else None
  {
    SignedTxItems(f, v, r, s);
    TwelveItems(FieldItems(f), SignatureItems(v, r, s));
    FieldsAreRead(f, FieldItems(f) + SignatureItems(v, r, s));
    SignatureIsRead(v, r, s);
  }

  lemma {:induction false} SmallHasLeadingZero(n: nat, width: nat)
    requires width > 0 && n < Pow256(width - 1)
    ensures BeBytes(n, width)[0] == 0
  {
    if width > 1 {
      SmallHasLeadingZero(n / 256, width - 1);
    }
  }

  /** One in 256 signatures is rejected: every `r` below 256 to the 31st. */
  lemma {:induction false} SmallSignatureRejected(f: TxFields, v: nat, n: nat, s: Bytes)
    requires U64Fields(f) && v < Pow256(8) && |s| == 32 && n < Pow256(31)
    requires InMemory(f, [EncodeUint(v), EncodeBytes(BeBytes(n, 32)), EncodeBytes(s)])
    ensures DecodeStrictTx(SignedTx(f, v, BeBytes(n, 32), s)).None?
  {
    SmallHasLeadingZero(n, 32);
    SignedTxAcceptedExactly(f, v, BeBytes(n, 32), s);
  }
}
