/** Numbers and byte strings as bit strings, least significant bit first. */
module Bits {
  import opened Bytes

  type bits = seq<bool>

  function Pow2(n: nat): (p: nat)
    ensures p > 0
  {
    if n == 0 then 1 else 2 * Pow2(n - 1)
  }

  function BitsOf(v: nat, n: nat): (s: bits)
    ensures |s| == n
  {
    if n == 0 then [] else [v % 2 == 1] + BitsOf(v / 2, n - 1)
  }

  function ValueOf(s: bits): (v: nat)
    ensures v < Pow2(|s|)
  {
    if s == [] then 0 else (if s[0] then 1 else 0) + 2 * ValueOf(s[1..])
  }

  lemma {:induction false} BitsOfValue(s: bits)
    ensures BitsOf(ValueOf(s), |s|) == s
  {
    if s != [] {
      BitsOfValue(s[1..]);
      assert ValueOf(s) / 2 == ValueOf(s[1..]) && (ValueOf(s) % 2 == 1) == s[0];
      assert s == [s[0]] + s[1..];
    }
  }

  lemma {:induction false} ValueOfBits(v: nat, n: nat)
    requires v < Pow2(n)
    ensures ValueOf(BitsOf(v, n)) == v
  {
    if n > 0 {
      assert v / 2 < Pow2(n - 1);
      ValueOfBits(v / 2, n - 1);
      assert BitsOf(v, n)[1..] == BitsOf(v / 2, n - 1);
    }
  }

  function Zeros(n: nat): (s: bits)
    ensures |s| == n && forall i | 0 <= i < n :: !s[i]
  {
    seq(n, i => false)
  }

  lemma {:induction false} ValueOfZeros(s: bits, n: nat)
    ensures ValueOf(s + Zeros(n)) == ValueOf(s)
  {
    if s == [] {
      assert s + Zeros(n) == Zeros(n);
      if n > 0 {
        assert Zeros(n)[1..] == [] + Zeros(n - 1);
        ValueOfZeros([], n - 1);
      }
    } else {
      assert (s + Zeros(n))[1..] == s[1..] + Zeros(n);
      ValueOfZeros(s[1..], n);
    }
  }

  lemma {:induction false} ValueOfSnoc(s: bits, b: bool)
    ensures ValueOf(s + [b]) == ValueOf(s) + if b then Pow2(|s|) else 0
  {
    if s == [] {
      assert s + [b] == [b];
      assert [b][1..] == [];
    } else {
      assert (s + [b])[0] == s[0] && (s + [b])[1..] == s[1..] + [b];
      ValueOfSnoc(s[1..], b);
    }
  }

  lemma Pow2Of8()
    ensures Pow2(8) == 256 && Pow2(5) == 32
  {
    assert Pow2(1) == 2;
    assert Pow2(2) == 4;
    assert Pow2(3) == 8;
    assert Pow2(4) == 16;
    assert Pow2(5) == 32;
    assert Pow2(6) == 64;
    assert Pow2(7) == 128;
  }

  lemma {:induction false} Pow2Monotone(m: nat, n: nat)
    requires m <= n
    ensures Pow2(m) <= Pow2(n)
  {
    if m < n { Pow2Monotone(m, n - 1); }
  }

  lemma Pow2Of64()
    ensures Pow2(32) == U32_LIMIT && Pow2(64) == U64_LIMIT
  {
    Pow2Of8();
    Pow2Sum(8, 8);
    assert Pow2(16) == 0x1_0000;
    Pow2Sum(16, 16);
    assert Pow2(32) == 0x1_0000_0000;
    Pow2Sum(32, 32);
  }

  lemma {:induction false} Pow2Sum(m: nat, n: nat)
    ensures Pow2(m + n) == Pow2(m) * Pow2(n)
  {
    if n > 0 { Pow2Sum(m, n - 1); }
  }

  /** A byte from at most eight bits; missing high bits are zero. */
  function ByteOf(s: bits): (b: byte)
    requires |s| <= 8
    ensures b == ValueOf(s)
  {
    Pow2Of8();
    Pow2Monotone(|s|, 8);
    ValueOf(s)
  }

  // ---------- byte strings ----------

  /** All bits of data, eight per byte. */
  function Flat(data: seq<byte>): (s: bits)
    ensures |s| == 8 * |data|
  {
    if data == [] then [] else BitsOf(data[0], 8) + Flat(data[1..])
  }

  /** The shortest byte string holding s, its last byte filled up with zeros. */
  function Pack(s: bits): (data: seq<byte>)
    ensures |data| == (|s| + 7) / 8
  {
    if s == [] then []
    else if |s| <= 8 then [ByteOf(s)]
    else [ByteOf(s[..8])] + Pack(s[8..])
  }

  function Padding(n: nat): nat { (8 - n % 8) % 8 }

  lemma ByteBits(s: bits)
    requires |s| <= 8
    ensures BitsOf(ByteOf(s), 8) == s + Zeros(8 - |s|)
  {
    hide BitsOf, ValueOf;
    ValueOfZeros(s, 8 - |s|);
    BitsOfValue(s + Zeros(8 - |s|));
  }

  lemma FlatOne(b: byte)
    ensures Flat([b]) == BitsOf(b, 8)
  {
    hide BitsOf;
    assert [b][1..] == [];
    assert Flat([b]) == BitsOf(b, 8) + [];
  }

  lemma PaddingSteps(n: nat)
    ensures 0 < n <= 8 ==> Padding(n) == 8 - n
    ensures n > 8 ==> Padding(n) == Padding(n - 8)
    ensures Padding(0) == 0
  {}

  lemma PackStep(s: bits)
    requires |s| > 8
    ensures Pack(s) == [ByteOf(s[..8])] + Pack(s[8..])
    ensures Flat(Pack(s)) == s[..8] + Flat(Pack(s[8..]))
  {
    ByteBits(s[..8]);
    hide BitsOf, ByteOf;
    assert s[..8] + Zeros(0) == s[..8];
    assert Pack(s)[1..] == Pack(s[8..]);
  }

  lemma FlatPackOne(s: bits)
    requires 0 < |s| <= 8
    ensures Flat(Pack(s)) == s + Zeros(8 - |s|)
  {
    hide BitsOf, ByteOf, Flat;
    ByteBits(s);
    FlatOne(ByteOf(s));
  }

  lemma {:induction false} FlatPack(s: bits)
    ensures Flat(Pack(s)) == s + Zeros(Padding(|s|))
  {
    PaddingSteps(|s|);
    if s == [] {
    } else if |s| <= 8 {
      FlatPackOne(s);
    } else {
      FlatPack(s[8..]);
      PackStep(s);
      hide *;
      assert s[..8] + (s[8..] + Zeros(Padding(|s|))) == s + Zeros(Padding(|s|));
    }
  }

  lemma {:induction false} PackFlat(data: seq<byte>)
    ensures Pack(Flat(data)) == data
  {
    if data != [] {
      var head, tail := BitsOf(data[0], 8), Flat(data[1..]);
      Pow2Of8();
      ValueOfBits(data[0], 8);
      PackFlat(data[1..]);
      assert (head + tail)[..8] == head && (head + tail)[8..] == tail;
      assert data == [data[0]] + data[1..];
      if data[1..] == [] { assert head + tail == head; }
    }
  }

  /** Two byte strings with the same bits are the same; packing is exactly "zero-padded to bytes". */
  lemma PackExact(data: seq<byte>, s: bits)
    ensures data == Pack(s) <==> Flat(data) == s + Zeros(Padding(|s|))
  {
    FlatPack(s);
    PackFlat(data);
    PackFlat(Pack(s));
  }

  lemma {:induction false} FlatAppend(a: seq<byte>, b: seq<byte>)
    ensures Flat(a + b) == Flat(a) + Flat(b)
  {
    assert Flat([]) == [];
    hide Flat, BitsOf;
    if a == [] {
      assert a + b == b;
    } else {
      FlatAppend(a[1..], b);
      FlatCons(a[0], a[1..]);
      FlatCons(a[0], a[1..] + b);
      assert a == [a[0]] + a[1..] && a + b == [a[0]] + (a[1..] + b);
    }
  }

  lemma FlatCons(x: byte, s: seq<byte>)
    ensures Flat([x] + s) == BitsOf(x, 8) + Flat(s)
  {
    assert ([x] + s)[1..] == s;
  }

  lemma PaddingPeriodic(k: nat, n: nat)
    ensures Padding(8 * k + n) == Padding(n)
  {}

  /** Whole bytes in front stay as they are. */
  lemma PackBehind(data: seq<byte>, s: bits)
    ensures Pack(Flat(data) + s) == data + Pack(s)
  {
    hide *;
    FlatAppend(data, Pack(s));
    FlatPack(s);
    PaddingPeriodic(|data|, |s|);
    PackExact(data + Pack(s), Flat(data) + s);
    assert Flat(data) + (s + Zeros(Padding(|s|))) == (Flat(data) + s) + Zeros(Padding(|s|));
  }

  // ---------- single bits ----------

  /** b & (1 << k) != 0. */
  predicate BitAt(b: nat, k: nat) {
    if k == 0 then b % 2 == 1 else BitAt(b / 2, k - 1)
  }

  lemma {:induction false} BitAtIs(v: nat, n: nat, k: nat)
    requires k < n
    ensures BitAt(v, k) == BitsOf(v, n)[k]
  {
    if k > 0 { BitAtIs(v / 2, n - 1, k - 1); }
  }

  lemma {:induction false} FlatAt(data: seq<byte>, i: nat)
    requires i < 8 * |data|
    ensures Flat(data)[i] == BitAt(data[i / 8], i % 8)
  {
    if i < 8 {
      BitAtIs(data[0], 8, i);
    } else {
      FlatAt(data[1..], i - 8);
      assert (i - 8) / 8 == i / 8 - 1 && (i - 8) % 8 == i % 8;
    }
  }

  /** b | (1 << k): adds the bit when it is not there yet. */
  function SetBit(b: byte, k: nat): (r: byte)
    requires k < 8
  {
    if BitAt(b, k) then b else if b + Pow2(k) < 256 then b + Pow2(k) else b
  }

  /** Setting the first free bit of a partial byte. */
  lemma SetNext(s: bits)
    requires |s| < 8
    ensures SetBit(ByteOf(s), |s|) == ByteOf(s + [true])
    ensures ByteOf(s) == ByteOf(s + [false])
  {
    ValueOfSnoc(s, true);
    ValueOfSnoc(s, false);
    var padded := s + Zeros(8 - |s|);
    ValueOfZeros(s, 8 - |s|);
    BitsOfValue(padded);
    BitAtIs(ByteOf(s), 8, |s|);
  }

  /** How one more bit changes a packed string: a new zero byte when needed, then the bit. */
  function AppendBit(data: seq<byte>, n: nat, b: bool): (r: seq<byte>)
    requires n / 8 <= |data|
    ensures n / 8 < |r|
  {
    var grown := if n / 8 == |data| then data + [0] else data;
    if b then grown[n / 8 := SetBit(grown[n / 8], n % 8)] else grown
  }

  lemma PackOne(s: bits)
    requires 0 < |s| <= 8
    ensures Pack(s) == [ByteOf(s)]
  {}

  lemma PackSnocFirst(b: bool)
    ensures Pack([] + [b]) == AppendBit(Pack([]), 0, b)
  {
    ByteOfNone();
    SetNext([]);
    PackOne([] + [b]);
    hide ByteOf, SetBit;
    assert Pack([]) + [0] == [0];
  }

  lemma AppendInside(d: byte, n: nat, b: bool)
    requires n < 8
    ensures AppendBit([d], n, b) == [if b then SetBit(d, n) else d]
  {
    hide SetBit;
    assert n / 8 == 0 && n % 8 == n;
  }

  lemma PackSnocInside(s: bits, b: bool)
    requires 0 < |s| < 8
    ensures Pack(s + [b]) == AppendBit(Pack(s), |s|, b)
  {
    hide *;
    SetNext(s);
    PackOne(s);
    PackOne(s + [b]);
    AppendInside(ByteOf(s), |s|, b);
    assert b ==> s + [b] == s + [true];
    assert !b ==> s + [b] == s + [false];
  }

  lemma PackSnocSecond(s: bits, b: bool)
    requires |s| == 8
    ensures Pack(s + [b]) == AppendBit(Pack(s), |s|, b)
  {
    ByteOfNone();
    SetNext([]);
    PackOne(s);
    PackOne([b]);
    assert [] + [b] == [b];
    assert (s + [b])[..8] == s && (s + [b])[8..] == [b];
    assert Pack(s + [b]) == [ByteOf(s)] + Pack([b]);
    hide ByteOf, SetBit, Pack;
    assert [ByteOf(s)] + [0] == [ByteOf(s), 0];
  }

  lemma ByteOfNone()
    ensures ByteOf([]) == 0
  {}

  lemma PackCons(s: bits)
    requires |s| > 8
    ensures Pack(s) == [ByteOf(s[..8])] + Pack(s[8..])
  {}

  /** Appending a bit behind a first whole byte. */
  lemma AppendBehind(first: byte, tail: seq<byte>, n: nat, b: bool)
    requires n / 8 <= |tail|
    ensures AppendBit([first] + tail, n + 8, b) == [first] + AppendBit(tail, n, b)
  {
    hide SetBit;
    assert (n + 8) / 8 == n / 8 + 1 && (n + 8) % 8 == n % 8;
    assert [first] + (tail + [0]) == ([first] + tail) + [0];
  }

  lemma {:induction false} PackSnoc(s: bits, b: bool)
    ensures Pack(s + [b]) == AppendBit(Pack(s), |s|, b)
  {
    if s == [] {
      PackSnocFirst(b);
    } else if |s| < 8 {
      PackSnocInside(s, b);
    } else if |s| == 8 {
      PackSnocSecond(s, b);
    } else {
      hide *;
      var rest := s[8..];
      PackSnoc(rest, b);
      PackCons(s);
      PackCons(s + [b]);
      assert (s + [b])[..8] == s[..8] && (s + [b])[8..] == rest + [b];
      AppendBehind(ByteOf(s[..8]), Pack(rest), |rest|, b);
    }
  }

  /** Bit k of the number v. */
  predicate Bit(v: nat, k: nat) { v / Pow2(k) % 2 == 1 }

  /** A bit string lists the bits of its number, least significant first. */
  lemma {:induction false} BitsAre(v: nat, n: nat, k: nat)
    requires k < n
    ensures BitsOf(v, n)[k] <==> Bit(v, k)
  {
    if k > 0 {
      BitsAre(v / 2, n - 1, k - 1);
      DivideTwice(v, 2, Pow2(k - 1));
    }
  }

  // ---------- exclusive or ----------

  function XorBits(a: bits, b: bits): (r: bits)
    requires |a| == |b|
    ensures |r| == |a|
  {
    seq(|a|, i requires 0 <= i < |a| => a[i] != b[i])
  }
}
