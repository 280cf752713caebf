/** Machine integers, bytes and the little-endian integers of encoding/binary. */
module Bytes {
  const U32_LIMIT := 0x1_0000_0000
  const U64_LIMIT := 0x1_0000_0000_0000_0000

  type byte = x: int | 0 <= x < 256
  type u32 = x: int | 0 <= x < U32_LIMIT
  type u64 = x: int | 0 <= x < U64_LIMIT
  type i32 = x: int | -0x8000_0000 <= x < 0x8000_0000

  datatype Option<+T> = None | Some(value: T)

  datatype Result<+T, +E> = Ok(value: T) | Err(error: E)

  /** 256 to the power n. */
  function Pow256(n: nat): (p: nat)
    ensures p > 0
  {
    if n == 0 then 1 else 256 * Pow256(n - 1)
  }

  /** The n low-order bytes of v, least significant first. */
  function LE(v: nat, n: nat): (s: seq<byte>)
    ensures |s| == n
  {
    if n == 0 then [] else [v % 256] + LE(v / 256, n - 1)
  }

  /** The number whose little-endian digits are s. */
  function FromLE(s: seq<byte>): (v: nat)
    ensures v < Pow256(|s|)
  {
    if |s| == 0 then 0 else s[0] + 256 * FromLE(s[1..])
  }

  lemma {:induction false} DecodeEncodeLE(v: nat, n: nat)
    requires v < Pow256(n)
    ensures FromLE(LE(v, n)) == v
  {
    if n > 0 {
      assert v / 256 < Pow256(n - 1);
      DecodeEncodeLE(v / 256, n - 1);
      assert LE(v, n)[1..] == LE(v / 256, n - 1);
    }
  }

  lemma {:induction false} EncodeDecodeLE(s: seq<byte>)
    ensures LE(FromLE(s), |s|) == s
  {
    if |s| > 0 {
      EncodeDecodeLE(s[1..]);
      var v := FromLE(s);
      assert v % 256 == s[0] && v / 256 == FromLE(s[1..]);
      assert s == [s[0]] + s[1..];
    }
  }

  lemma Pow256Values()
    ensures Pow256(1) == 0x100 && Pow256(2) == 0x1_0000 && Pow256(3) == 0x100_0000 && Pow256(4) == U32_LIMIT
    ensures Pow256(5) == 0x100_0000_0000 && Pow256(6) == 0x1_0000_0000_0000 && Pow256(7) == 0x100_0000_0000_0000
    ensures Pow256(8) == U64_LIMIT
  {}

  lemma Pow256Limits()
    ensures Pow256(4) == U32_LIMIT
    ensures Pow256(8) == U64_LIMIT
  {
    Pow256Values();
  }

  // ---------- digits ----------

  lemma SmallMultiple(p: int, x: int)
    requires p > 0 && -p < p * x < p
    ensures x == 0
  {}

  lemma Quotient(v: nat, p: nat, q: nat, r: nat)
    requires r < p && v == p * q + r
    ensures v / p == q
  {
    assert v == p * (v / p) + v % p;
    assert p * (v / p - q) == p * (v / p) - p * q;
    SmallMultiple(p, v / p - q);
  }

  lemma DivideTwice(v: nat, d: nat, p: nat)
    requires d > 0 && p > 0
    ensures d * p > 0 && v / (d * p) == v / d / p
  {
    var h := v / d;
    var q, r := h / p, h % p;
    var low := d * r + v % d;
    assert v == (d * p) * q + low by { Regroup(d, p, q, r); }
    Below(d, p, r, v % d);
    Quotient(v, d * p, q, low);
  }

  lemma Regroup(d: nat, p: nat, q: nat, r: nat)
    ensures d * (p * q + r) == (d * p) * q + d * r
  {
    assert d * (p * q) == (d * p) * q;
  }

  lemma Below(d: nat, p: nat, r: nat, e: nat)
    requires e < d && r < p
    ensures 0 <= d * r + e < d * p
  {
    assert d * r <= d * (p - 1);
    assert d * (p - 1) == d * p - d;
  }

  /** Byte k of the encoding is digit k of the number to base 256. */
  lemma {:induction false} DigitOfLE(v: nat, n: nat, k: nat)
    requires k < n
    ensures LE(v, n)[k] == v / Pow256(k) % 256
  {
    if k > 0 {
      DigitOfLE(v / 256, n - 1, k - 1);
      DivideTwice(v, 256, Pow256(k - 1));
    }
  }

  function LE32(v: u32): (s: seq<byte>)
    ensures |s| == 4
  {
    LE(v, 4)
  }

  function LE64(v: u64): (s: seq<byte>)
    ensures |s| == 8
  {
    LE(v, 8)
  }

  function FromLE32(s: seq<byte>): (v: u32)
    requires |s| == 4
  {
    Pow256Limits();
    FromLE(s)
  }

  function FromLE64(s: seq<byte>): (v: u64)
    requires |s| == 8
  {
    Pow256Limits();
    FromLE(s)
  }

  lemma RoundTrip32(v: u32)
    ensures FromLE32(LE32(v)) == v
  {
    Pow256Limits();
    DecodeEncodeLE(v, 4);
  }

  lemma RoundTrip64(v: u64)
    ensures FromLE64(LE64(v)) == v
  {
    Pow256Limits();
    DecodeEncodeLE(v, 8);
  }

  lemma Canonical32(s: seq<byte>)
    requires |s| == 4
    ensures LE32(FromLE32(s)) == s
  {
    EncodeDecodeLE(s);
  }

  lemma Canonical64(s: seq<byte>)
    requires |s| == 8
    ensures LE64(FromLE64(s)) == s
  {
    EncodeDecodeLE(s);
  }

  /** n copies of b. */
  function Repeat(b: byte, n: nat): (s: seq<byte>)
    ensures |s| == n && forall i | 0 <= i < n :: s[i] == b
  {
    seq(n, i => b)
  }

  predicate AllZero(s: seq<byte>) {
    forall i | 0 <= i < |s| :: s[i] == 0
  }
}
