/**
  RLP (Appendix B of the Ethereum Yellow Paper): the encoders of
  services/treasury/src/eth/encoding.rs, and a strict decoder that is their exact inverse.
 */
module Rlp {
  import opened Wrappers
  import opened ByteStrings

  // ----- Encoders -----

  const STRING_BASE: Byte := 0x80
  const LIST_BASE: Byte := 0xc0

  /**
    A payload behind its header. Lengths are `usize`, eight bytes wide. The long form of
    strings starts at 0xb7 and that of lists at 0xf7, 55 above the base.
   */
  function WithHeader(base: Byte, payload: Bytes): Bytes
    requires base == STRING_BASE || base == LIST_BASE
  {
    if |payload| <= 55 then [base + |payload|] + payload
    else
      var length := TrimmedBe(|payload|, 8);
      [base + 55 + |length|] + length + payload
  }

  function EncodeBytes(data: Bytes): Bytes {
    if |data| == 1 && data[0] < 0x80 then data else WithHeader(STRING_BASE, data)
  }

  function EncodeUint(n: nat): Bytes {
    EncodeBytes(TrimmedBe(n, 8))
  }

  function Flatten(items: seq<Bytes>): Bytes {
    if items == [] then [] else items[0] + Flatten(items[1..])
  }

  function EncodeList(items: seq<Bytes>): Bytes {
    WithHeader(LIST_BASE, Flatten(items))
  }

  method RlpEncodeBytes(data: Bytes) returns (out: Bytes)
    ensures out == EncodeBytes(data)
    ensures |data| <= 55 ==> out == if |data| == 1 && data[0] < 0x80 then data else [0x80 + |data|] + data
    ensures |data| > 55 ==> var n := TrimmedBe(|data|, 8); |n| <= 8 && out == [0xb7 + |n|] + n + data
  {
    if |data| == 1 && data[0] < 0x80 {
      return data;
    }
    out := [];
    if |data| <= 55 {
      out := out + [0x80 + |data|];
    } else {
      var lengthBytes := BeBytes(|data|, 8);
      var start := FirstNonZero(lengthBytes);
      var minimal := lengthBytes[start..];
      out := out + [0xb7 + |minimal|];
      out := out + minimal;
    }
    out := out + data;
  }

  method RlpEncodeList(items: seq<Bytes>) returns (out: Bytes)
    ensures out == EncodeList(items)
    ensures var payload := Flatten(items);
            && (|payload| <= 55 ==> out == [0xc0 + |payload|] + payload)
            && (|payload| > 55 ==> var n := TrimmedBe(|payload|, 8); |n| <= 8 && out == [0xf7 + |n|] + n + payload)
  {
    var payload: Bytes := [];
    for i := 0 to |items|
      invariant payload + Flatten(items[i..]) == Flatten(items)
    {
      payload := payload + items[i];
    }
    out := [];
    if |payload| <= 55 {
      out := out + [0xc0 + |payload|];
    } else {
      var lengthBytes := BeBytes(|payload|, 8);
      var start := FirstNonZero(lengthBytes);
      var minimal := lengthBytes[start..];
      out := out + [0xf7 + |minimal|];
      out := out + minimal;
    }
    out := out + payload;
  }

  method FirstNonZero(bs: Bytes) returns (start: nat)
    ensures start == LeadingZeros(bs)
  {
    start := 0;
    while start < |bs| && bs[start] == 0
      invariant start <= |bs| && LeadingZeros(bs) == start + LeadingZeros(bs[start..])
    {
      start := start + 1;
    }
  }

  lemma {:induction false} TrimmedZero(width: nat)
    ensures TrimmedBe(0, width) == []
  {
    assert FromBe([]) == 0;
    TrimmedBeIsCanonical(0, width);
    CanonicalUnique(TrimmedBe(0, width), []);
  }

  method RlpEncodeUint(n: nat) returns (out: Bytes)
    ensures out == EncodeUint(n)
  {
    if n == 0 {
      TrimmedZero(8);
      return [0x80];
    }
    var b := BeBytes(n, 8);
    var start := FirstNonZero(b);
    out := RlpEncodeBytes(b[start..]);
  }

  // ----- Items as trees -----

  datatype Item = Str(bytes: Bytes) | List(items: seq<Item>)

  function Encode(t: Item): Bytes
    decreases t, 1
  {
    match t
    case Str(bytes) => EncodeBytes(bytes)
    case List(items) => EncodeList(EncodeEach(items))
  }

  function EncodeEach(items: seq<Item>): (r: seq<Bytes>)
    ensures |r| == |items|
    decreases items, 0
  {
    if items == [] then [] else [Encode(items[0])] + EncodeEach(items[1..])
  }

  /** Every length in the tree is a `usize`. */
  predicate Fits(t: Item)
    decreases t, 1
  {
    match t
    case Str(bytes) => |bytes| < Pow256(8)
    case List(items) => FitsEach(items) && |Flatten(EncodeEach(items))| < Pow256(8)
  }

  predicate FitsEach(items: seq<Item>)
    decreases items, 0
  {
    items == [] || (Fits(items[0]) && FitsEach(items[1..]))
  }

  // ----- Decoder -----

  /** Splits the payload from what follows it; `None` for a header no encoder writes. */
  function ReadPayload(bs: Bytes, base: Byte): (r: Option<(Bytes, Bytes)>)
    requires base == STRING_BASE || base == LIST_BASE
    requires bs != [] && base <= bs[0] <= base + 63
    ensures r.Some? ==> |r.value.0| < |bs| && |r.value.1| < |bs|
  {
    var p := bs[0] - base;
    if p <= 55 then
      if |bs| - 1 < p then None else Some((bs[1..1 + p], bs[1 + p..]))
    else
      var ll := p - 55;
      if |bs| - 1 < ll || bs[1] == 0 then None
      else
        var n := FromBe(bs[1..1 + ll]);
        if n <= 55 || |bs| - 1 - ll < n then None
        else Some((bs[1 + ll..1 + ll + n], bs[1 + ll + n..]))
  }

  function Decode(bs: Bytes): (r: Option<(Item, Bytes)>)
    ensures r.Some? ==> |r.value.1| < |bs|
    decreases |bs|, 0
  {
    if bs == [] then None
    else if bs[0] < STRING_BASE then Some((Str([bs[0]]), bs[1..]))
    else if bs[0] < LIST_BASE then
      match ReadPayload(bs, STRING_BASE)
      case None => None
      case Some((payload, rest)) =>
        if |payload| == 1 && payload[0] < 0x80 then None else Some((Str(payload), rest))
    else
      match ReadPayload(bs, LIST_BASE)
      case None => None
      case Some((payload, rest)) =>
        match DecodeEach(payload)
        case None => None
        case Some(items) => Some((List(items), rest))
  }

  function DecodeEach(bs: Bytes): Option<seq<Item>>
    decreases |bs|, 1
  {
    if bs == [] then Some([])
    else
      match Decode(bs)
      case None => None
      case Some((item, rest)) =>
        match DecodeEach(rest)
        case None => None
        case Some(items) => Some([item] + items)
  }

  // ----- Inverse laws -----

  lemma {:induction false} LongLength(n: nat)
    requires 55 < n < Pow256(8)
    ensures var length := TrimmedBe(n, 8);
            1 <= |length| <= 8 && length[0] != 0 && FromBe(length) == n
  {
    assert FromBe([]) == 0;
    TrimmedBeIsCanonical(n, 8);
  }

  lemma {:induction false} HeaderRoundTrip(base: Byte, payload: Bytes, rest: Bytes)
    requires base == STRING_BASE || base == LIST_BASE
    requires |payload| < Pow256(8)
    ensures var bs := WithHeader(base, payload) + rest;
            bs != [] && base <= bs[0] <= base + 63 && ReadPayload(bs, base) == Some((payload, rest))
  {
    if |payload| <= 55 {
      ShortParts(base + |payload|, payload, rest);
    } else {
      LongLength(|payload|);
      LongParts(base + 55 + |TrimmedBe(|payload|, 8)|, TrimmedBe(|payload|, 8), payload, rest);
    }
  }

  lemma {:induction false} ShortParts(head: Byte, payload: Bytes, rest: Bytes)
    ensures var bs, n := [head] + payload + rest, |payload|;
            |bs| == 1 + n + |rest| && bs[0] == head && bs[1..1 + n] == payload && bs[1 + n..] == rest
  {
  }

  lemma {:induction false} LongParts(head: Byte, length: Bytes, payload: Bytes, rest: Bytes)
    requires length != []
    ensures var bs, ll, n := [head] + length + payload + rest, |length|, |payload|;
            && |bs| == 1 + ll + n + |rest| && bs[0] == head && bs[1] == length[0]
            && bs[1..1 + ll] == length && bs[1 + ll..1 + ll + n] == payload && bs[1 + ll + n..] == rest
  {
  }

  lemma {:induction false} HeaderExact(bs: Bytes, base: Byte)
    requires base == STRING_BASE || base == LIST_BASE
    requires bs != [] && base <= bs[0] <= base + 63
    requires ReadPayload(bs, base).Some?
    ensures var (payload, rest) := ReadPayload(bs, base).value;
            |payload| < Pow256(8) && bs == WithHeader(base, payload) + rest
  {
    var p := bs[0] - base;
    if p <= 55 {
      Pow256Monotonic(1, 8);
      ShortHeaderExact(bs, p);
    } else {
      var ll := p - 55;
      LongHeaderExact(bs, ll);
      SplitAt(bs, 1 + ll, 1 + ll + FromBe(bs[1..1 + ll]));
    }
  }

  lemma {:induction false} ShortHeaderExact(bs: Bytes, n: nat)
    requires 1 + n <= |bs|
    ensures bs == [bs[0]] + bs[1..1 + n] + bs[1 + n..]
  {
  }

  lemma {:induction false} SplitAt(bs: Bytes, i: nat, j: nat)
    requires 1 <= i <= j <= |bs|
    ensures bs == [bs[0]] + bs[1..i] + bs[i..j] + bs[j..]
  {
  }

  lemma {:induction false} LongHeaderExact(bs: Bytes, ll: nat)
    requires 1 <= ll <= 8 && ll < |bs| && bs[1] != 0
    ensures FromBe(bs[1..1 + ll]) < Pow256(8)
    ensures bs[1..1 + ll] == TrimmedBe(FromBe(bs[1..1 + ll]), 8)
  {
    var length := bs[1..1 + ll];
    FromBeBound(length);
    Pow256Monotonic(ll, 8);
    TrimmedBeIsCanonical(FromBe(length), 8);
    CanonicalUnique(length, TrimmedBe(FromBe(length), 8));
  }

  /** Every tree is decoded from its encoding, whatever follows: the code is prefix-free. */
  lemma {:induction false} DecodeUndoesEncode(t: Item, rest: Bytes)
    requires Fits(t)
    ensures Decode(Encode(t) + rest) == Some((t, rest))
    decreases t, 1
  {
    match t
    case Str(bytes) =>
      if |bytes| == 1 && bytes[0] < 0x80 {
        assert (bytes + rest)[1..] == rest && [bytes[0]] == bytes;
      } else {
        HeaderRoundTrip(STRING_BASE, bytes, rest);
        assert (WithHeader(STRING_BASE, bytes) + rest)[0] < LIST_BASE;
      }
    case List(items) =>
      HeaderRoundTrip(LIST_BASE, Flatten(EncodeEach(items)), rest);
      DecodeEachUndoesEncode(items);
  }

  lemma {:induction false} DecodeEachUndoesEncode(items: seq<Item>)
    requires FitsEach(items)
    ensures DecodeEach(Flatten(EncodeEach(items))) == Some(items)
    decreases items, 0
  {
    if items != [] {
      var tail := Flatten(EncodeEach(items[1..]));
      DecodeUndoesEncode(items[0], tail);
      DecodeEachUndoesEncode(items[1..]);
      assert EncodeEach(items)[1..] == EncodeEach(items[1..]);
      assert [items[0]] + items[1..] == items;
      assert Encode(items[0]) + tail != [];
    }
  }

  /** Conversely, whatever decodes is the encoding of the tree it decodes to. */
  lemma {:induction false} EncodeUndoesDecode(bs: Bytes)
    requires Decode(bs).Some?
    ensures var (t, rest) := Decode(bs).value;
            Fits(t) && bs == Encode(t) + rest
    decreases |bs|, 0
  {
    Pow256Monotonic(1, 8);
    if bs[0] < STRING_BASE {
      assert bs == [bs[0]] + bs[1..];
    } else if bs[0] < LIST_BASE {
      HeaderExact(bs, STRING_BASE);
    } else {
      HeaderExact(bs, LIST_BASE);
      var (payload, _) := ReadPayload(bs, LIST_BASE).value;
      EncodeEachUndoesDecode(payload);
    }
  }

  lemma {:induction false} EncodeEachUndoesDecode(bs: Bytes)
    requires DecodeEach(bs).Some?
    ensures var items := DecodeEach(bs).value;
            FitsEach(items) && Flatten(EncodeEach(items)) == bs
    decreases |bs|, 1
  {
    if bs != [] {
      var (item, rest) := Decode(bs).value;
      var items := DecodeEach(rest).value;
      EncodeUndoesDecode(bs);
      EncodeEachUndoesDecode(rest);
      assert ([item] + items)[1..] == items;
      assert EncodeEach([item] + items)[1..] == EncodeEach(items);
    }
  }

  /** The encodings are exactly the byte strings the decoder accepts. */
  lemma {:induction false} DecodeExactlyEncodings(bs: Bytes, t: Item, rest: Bytes)
    ensures Decode(bs) == Some((t, rest)) <==> Fits(t) && bs == Encode(t) + rest
  {
    if Decode(bs) == Some((t, rest)) {
      EncodeUndoesDecode(bs);
    }
    if Fits(t) && bs == Encode(t) + rest {
      DecodeUndoesEncode(t, rest);
    }
  }
}
