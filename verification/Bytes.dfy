/** Big-endian byte strings. */
module ByteStrings {
  type Byte = b: int | 0 <= b < 256

  type Bytes = seq<Byte>

  function Pow256(k: nat): (p: nat)
    ensures p > 0
  {
    if k == 0 then 1 else 256 * Pow256(k - 1)
  }

  /** `to_be_bytes` of an unsigned integer that is `width` bytes wide. */
  function BeBytes(n: nat, width: nat): (r: Bytes)
    ensures |r| == width
  {
    if width == 0 then [] else BeBytes(n / 256, width - 1) + [n % 256]
  }

  /** `from_be_bytes`. */
  function FromBe(bs: Bytes): nat {
    if bs == [] then 0 else FromBe(bs[..|bs| - 1]) * 256 + bs[|bs| - 1]
  }

  function LeadingZeros(bs: Bytes): (k: nat)
    ensures k <= |bs|
    ensures k < |bs| ==> bs[k] != 0
  {
    if bs == [] || bs[0] != 0 then 0 else 1 + LeadingZeros(bs[1..])
  }

  /** The minimal big-endian form: no leading zero byte, nothing at all for zero. */
  function TrimmedBe(n: nat, width: nat): Bytes {
    BeBytes(n, width)[LeadingZeros(BeBytes(n, width))..]
  }

  predicate Canonical(bs: Bytes) {
    bs == [] || bs[0] != 0
  }

  lemma {:induction false} FromBeBound(bs: Bytes)
    ensures FromBe(bs) < Pow256(|bs|)
  {
    if bs != [] {
      FromBeBound(bs[..|bs| - 1]);
    }
  }

  lemma {:induction false} FromBeOfBeBytes(n: nat, width: nat)
    requires n < Pow256(width)
    ensures FromBe(BeBytes(n, width)) == n
  {
    if width > 0 {
      FromBeOfBeBytes(n / 256, width - 1);
      assert BeBytes(n, width)[..width - 1] == BeBytes(n / 256, width - 1);
    }
  }

  lemma {:induction false} BeBytesOfFromBe(bs: Bytes)
    ensures BeBytes(FromBe(bs), |bs|) == bs
  {
    if bs != [] {
      var init := bs[..|bs| - 1];
      BeBytesOfFromBe(init);
      assert FromBe(bs) / 256 == FromBe(init) && FromBe(bs) % 256 == bs[|bs| - 1];
    }
  }

  lemma {:induction false} LeadingZeroByte(bs: Bytes)
    requires bs != [] && bs[0] == 0
    ensures FromBe(bs) == FromBe(bs[1..])
  {
    if |bs| > 1 {
      var init := bs[..|bs| - 1];
      LeadingZeroByte(init);
      assert bs[1..][..|bs| - 2] == init[1..];
    } else {
      assert bs[..0] == [];
    }
  }

  lemma {:induction false} TrimKeepsValue(bs: Bytes)
    ensures FromBe(bs[LeadingZeros(bs)..]) == FromBe(bs)
  {
    if bs != [] && bs[0] == 0 {
      LeadingZeroByte(bs);
      TrimKeepsValue(bs[1..]);
      assert bs[1..][LeadingZeros(bs[1..])..] == bs[LeadingZeros(bs)..];
    }
  }

  lemma {:induction false} Pow256Monotonic(a: nat, b: nat)
    requires a <= b
    ensures Pow256(a) <= Pow256(b)
    decreases b - a
  {
    if a < b {
      Pow256Monotonic(a + 1, b);
    }
  }

  lemma {:induction false} CanonicalLowerBound(bs: Bytes)
    requires bs != [] && bs[0] != 0
    ensures FromBe(bs) >= Pow256(|bs| - 1)
  {
    if |bs| > 1 {
      CanonicalLowerBound(bs[..|bs| - 1]);
    } else {
      assert bs[..0] == [];
    }
  }

  /** A value has one canonical form. */
  lemma {:induction false} CanonicalUnique(a: Bytes, b: Bytes)
    requires Canonical(a) && Canonical(b) && FromBe(a) == FromBe(b)
    ensures a == b
  {
    if |a| < |b| {
      FromBeBound(a);
      CanonicalLowerBound(b);
      Pow256Monotonic(|a|, |b| - 1);
      assert false;
    } else if |b| < |a| {
      FromBeBound(b);
      CanonicalLowerBound(a);
      Pow256Monotonic(|b|, |a| - 1);
      assert false;
    }
    BeBytesOfFromBe(a);
    BeBytesOfFromBe(b);
  }

  /** Trimming gives the canonical form of a value that fits the width. */
  lemma {:induction false} TrimmedBeIsCanonical(n: nat, width: nat)
    requires n < Pow256(width)
    ensures Canonical(TrimmedBe(n, width))
    ensures FromBe(TrimmedBe(n, width)) == n
    ensures |TrimmedBe(n, width)| <= width
  {
    FromBeOfBeBytes(n, width);
    TrimKeepsValue(BeBytes(n, width));
  }
}
