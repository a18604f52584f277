/** Hexadecimal text (services/treasury/src/eth/encoding.rs), over ASCII strings. */
module Hex {
  import opened Wrappers
  import opened ByteStrings

  const DIGITS: string := "0123456789abcdef"

  function Digit(v: nat): (c: char)
    requires v < 16
  {
    DIGITS[v]
  }

  function DigitValue(c: char): (r: Option<nat>)
    ensures r.Some? ==> r.value < 16
  {
    if '0' <= c <= '9' then Some(c as int - '0' as int)
    else if 'a' <= c <= 'f' then Some(10 + c as int - 'a' as int)
    else if 'A' <= c <= 'F' then Some(10 + c as int - 'A' as int)
    else None
  }

  /** `u8::from_str_radix` on two characters: a leading plus sign is accepted. */
  function PairValue(c: char, d: char): (r: Option<Byte>) {
    match (DigitValue(c), DigitValue(d))
    case (Some(hi), Some(lo)) => Some(16 * hi + lo)
    case (None, Some(lo)) => if c == '+' then Some(lo) else None
    case _ => None
  }

  function DecodePairs(s: string): (r: Option<Bytes>)
    requires |s| % 2 == 0
  {
    if s == [] then Some([])
    else
      match (PairValue(s[0], s[1]), DecodePairs(s[2..]))
      case (Some(b), Some(bs)) => Some([b] + bs)
      case _ => None
  }

  function StripPrefix(s: string): string {
    if |s| >= 2 && s[0] == '0' && s[1] == 'x' then s[2..] else s
  }

  function DecodeHex(s: string): Option<Bytes> {
    var body := StripPrefix(s);
    if |body| % 2 != 0 then None else DecodePairs(body)
  }

  function BytesToHex(bs: Bytes): (s: string)
    ensures |s| == 2 * |bs|
  {
    if bs == [] then [] else [Digit(bs[0] / 16), Digit(bs[0] % 16)] + BytesToHex(bs[1..])
  }

  method WriteHex(bs: Bytes) returns (s: string)
    ensures s == BytesToHex(bs)
  {
    s := [];
    for i := 0 to |bs|
      invariant s + BytesToHex(bs[i..]) == BytesToHex(bs)
    {
      s := s + [Digit(bs[i] / 16), Digit(bs[i] % 16)];
    }
  }

  lemma {:induction false} DigitRoundTrip(v: nat)
    requires v < 16
    ensures DigitValue(Digit(v)) == Some(v) && Digit(v) != 'x'
  {
  }

  lemma {:induction false} PairRoundTrip(b: Byte)
    ensures PairValue(Digit(b / 16), Digit(b % 16)) == Some(b)
  {
    DigitRoundTrip(b / 16);
    DigitRoundTrip(b % 16);
  }

  lemma {:induction false} PairsRoundTrip(bs: Bytes)
    ensures DecodePairs(BytesToHex(bs)) == Some(bs)
  {
    if bs != [] {
      PairRoundTrip(bs[0]);
      PairsRoundTrip(bs[1..]);
      assert BytesToHex(bs)[2..] == BytesToHex(bs[1..]);
      assert [bs[0]] + bs[1..] == bs;
    }
  }

  /** The second digit of encoded bytes is no `x`, so encoded bytes have no prefix to strip. */
  lemma {:induction false} NoPrefix(bs: Bytes)
    ensures StripPrefix(BytesToHex(bs)) == BytesToHex(bs)
  {
    if bs != [] {
      DigitRoundTrip(bs[0] % 16);
      SecondDigit(bs, Digit(bs[0] % 16));
    }
  }

  lemma {:induction false} SecondDigit(bs: Bytes, d: char)
    requires bs != [] && d == Digit(bs[0] % 16)
    ensures BytesToHex(bs)[1] == d
  {
  }

  /** Encoded bytes decode to themselves, with and without the `0x` prefix. */
  lemma {:induction false} HexRoundTrip(bs: Bytes)
    ensures DecodeHex(BytesToHex(bs)) == Some(bs)
    ensures DecodeHex("0x" + BytesToHex(bs)) == Some(bs)
  {
    PairsRoundTrip(bs);
    NoPrefix(bs);
    PrefixStripped(BytesToHex(bs));
  }

  lemma {:induction false} PrefixStripped(s: string)
    ensures StripPrefix("0x" + s) == s
  {
    assert ("0x" + s)[..2] == "0x" && ("0x" + s)[2..] == s;
  }
}
