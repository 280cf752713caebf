/** 64-bit words: arithmetic modulo 2^64, bit operations, and what undoes them. */
module Words64 {
  import opened Bytes
  import opened Bits

  type word = u64

  function Plus(x: word, y: word): word { (x + y) % U64_LIMIT }

  function Minus(x: word, y: word): word { (x - y) % U64_LIMIT }

  function Times(x: word, y: word): word { (x * y) % U64_LIMIT }

  function Not(x: word): word { U64_LIMIT - 1 - x }

  function ShiftLeft19(x: word): word { (x * 0x8_0000) % U64_LIMIT }

  function ShiftRight23(x: word): word { x / 0x80_0000 }

  lemma PlusMinus(x: word, y: word)
    ensures Minus(Plus(x, y), y) == x && Plus(Minus(x, y), y) == x
  {
    assert x + y >= U64_LIMIT ==> Plus(x, y) == x + y - U64_LIMIT;
    assert x < y ==> Minus(x, y) == x - y + U64_LIMIT;
  }

  // ---------- exclusive or ----------

  function Mix(x: word, y: word): word {
    Pow2Of64();
    ValueOf(XorBits(BitsOf(x, 64), BitsOf(y, 64)))
  }

  lemma MixTwice(x: word, y: word)
    ensures Mix(Mix(x, y), y) == x
  {
    Pow2Of64();
    ValueOfBits(x, 64);
    var mixed := XorBits(BitsOf(x, 64), BitsOf(y, 64));
    BitsOfValue(mixed);
    hide BitsOf, ValueOf, Pow2;
    assert XorBits(mixed, BitsOf(y, 64)) == BitsOf(x, 64);
  }

  // ---------- what the operations do to single bits ----------

  lemma WordBits(x: word, s: bits)
    requires |s| == 64
    ensures Pow2(64) == U64_LIMIT
    ensures (forall j | 0 <= j < 64 :: s[j] <==> Bit(x, j)) <==> x == ValueOf(s)
  {
    Pow2Of64();
    forall j | 0 <= j < 64 ensures BitsOf(x, 64)[j] <==> Bit(x, j) { BitsAre(x, 64, j); }
    ValueOfBits(x, 64);
    BitsOfValue(s);
    hide Bit, BitsOf, ValueOf, Pow2;
    if forall j | 0 <= j < 64 :: s[j] <==> Bit(x, j) { assert s == BitsOf(x, 64); }
  }

  /** Mix is the bitwise exclusive or. */
  lemma BitOfMix(x: word, y: word, j: nat)
    requires j < 64
    ensures Bit(Mix(x, y), j) <==> Bit(x, j) != Bit(y, j)
  {
    BitsAre(x, 64, j);
    BitsAre(y, 64, j);
    WordBits(Mix(x, y), XorBits(BitsOf(x, 64), BitsOf(y, 64)));
  }

  lemma {:induction false} ComplementBits(v: nat, n: nat, j: nat)
    requires v < Pow2(n) && j < n
    ensures BitsOf(Pow2(n) - 1 - v, n)[j] == !BitsOf(v, n)[j]
  {
    hide Pow2, BitsOf;
    Pow2Step(n);
    assert (Pow2(n) - 1 - v) / 2 == Pow2(n - 1) - 1 - v / 2;
    BitsStep(Pow2(n) - 1 - v, n, j);
    BitsStep(v, n, j);
    if j > 0 { ComplementBits(v / 2, n - 1, j - 1); }
  }

  /** Not complements every bit. */
  lemma BitOfNot(x: word, j: nat)
    requires j < 64
    ensures Bit(Not(x), j) <==> !Bit(x, j)
  {
    Pow2Of64();
    ComplementBits(x, 64, j);
    BitsAre(x, 64, j);
    BitsAre(Not(x), 64, j);
  }

  /** v doubled k times. */
  function Doubled(v: nat, k: nat): nat { if k == 0 then v else 2 * Doubled(v, k - 1) }

  lemma {:induction false} DoubledIs(v: nat, k: nat)
    ensures Doubled(v, k) == v * Pow2(k)
  {
    if k > 0 {
      DoubledIs(v, k - 1);
      var p := Pow2(k - 1);
      assert v * (2 * p) == 2 * (v * p);
    }
  }

  /** Doubling moves the bits up. */
  lemma {:induction false} UpBits(v: nat, k: nat, n: nat, j: nat)
    requires j < n
    ensures BitsOf(Doubled(v, k), n)[j] == (j >= k && BitsOf(v, n)[j - k])
  {
    hide BitsOf;
    if k > 0 {
      BitsStep(Doubled(v, k), n, j);
      if j > 0 {
        UpBits(v, k - 1, n - 1, j - 1);
        ShorterBits(v, n, n - 1);
      }
    }
  }

  lemma BitsStep(v: nat, n: nat, j: nat)
    requires j < n
    ensures BitsOf(v, n)[j] == if j == 0 then v % 2 == 1 else BitsOf(v / 2, n - 1)[j - 1]
  {}

  lemma Pow2Step(n: nat)
    requires n > 0
    ensures Pow2(n) == 2 * Pow2(n - 1)
  {}

  lemma {:induction false} ShorterBits(v: nat, n: nat, m: nat)
    requires m <= n
    ensures forall j | 0 <= j < m :: BitsOf(v, n)[j] == BitsOf(v, m)[j]
  {
    if m > 0 { ShorterBits(v / 2, n - 1, m - 1); }
  }

  lemma {:induction false} LowBits(v: nat, n: nat, j: nat)
    requires j < n
    ensures BitsOf(v % Pow2(n), n)[j] == BitsOf(v, n)[j]
  {
    hide BitsOf, Pow2;
    Pow2Step(n);
    HalfOfRest(v, Pow2(n - 1));
    BitsStep(v, n, j);
    BitsStep(v % Pow2(n), n, j);
    if j > 0 { LowBits(v / 2, n - 1, j - 1); }
  }

  lemma HalfOfRest(v: nat, p: nat)
    requires p > 0
    ensures v % (2 * p) / 2 == v / 2 % p && v % (2 * p) % 2 == v % 2
  {
    DivideTwice(v, 2, p);
    var q := v / (2 * p);
    assert v == (2 * p) * q + v % (2 * p);
    assert (2 * p) * q == 2 * (p * q);
    assert v / 2 == p * q + v / 2 % p;
  }

  lemma Pow2Of19()
    ensures Pow2(19) == 0x8_0000 && Pow2(23) == 0x80_0000
  {
    Pow2Of8();
    Pow2Sum(8, 8);
    assert Pow2(17) == 0x2_0000;
    assert Pow2(18) == 0x4_0000;
    assert Pow2(20) == 0x10_0000;
    assert Pow2(21) == 0x20_0000;
    assert Pow2(22) == 0x40_0000;
  }

  /** ShiftLeft19 is a shift by 19 bits that drops what leaves the word. */
  lemma BitOfLeft(x: word, j: nat)
    requires j < 64
    ensures Bit(ShiftLeft19(x), j) <==> j >= 19 && Bit(x, j - 19)
  {
    Pow2Of64();
    Pow2Of19();
    hide Pow2, BitsOf;
    DoubledIs(x, 19);
    UpBits(x, 19, 64, j);
    LowBits(x * 0x8_0000, 64, j);
    BitsAre(ShiftLeft19(x), 64, j);
    if j >= 19 { BitsAre(x, 64, j - 19); }
  }

  lemma {:induction false} DownBits(v: nat, k: nat, j: nat)
    ensures v / Pow2(k) >= 0 && (Bit(v / Pow2(k), j) <==> Bit(v, j + k))
  {
    if k > 0 {
      hide Pow2;
      Pow2Step(k);
      Pow2Step(j + k);
      DivideTwice(v, 2, Pow2(k - 1));
      DownBits(v / 2, k - 1, j);
      DivideTwice(v, 2, Pow2(j + k - 1));
    }
  }

  /** ShiftRight23 is a shift by 23 bits that brings zeros in. */
  lemma BitOfRight(x: word, j: nat)
    requires j < 64
    ensures Bit(ShiftRight23(x), j) <==> j + 23 < 64 && Bit(x, j + 23)
  {
    Pow2Of19();
    hide Pow2;
    DownBits(x, 23, j);
    if j + 23 >= 64 { HighBitZero(x, j + 23); }
  }

  lemma HighBitZero(x: word, k: nat)
    requires k >= 64
    ensures !Bit(x, k)
  {
    Pow2Of64();
    Pow2Monotone(64, k);
    assert x / Pow2(k) == 0;
  }

  // ---------- multiplication by 5, 7 and 9 ----------

  predicate Multiplier(m: word) { m == 5 || m == 7 || m == 9 }

  /** The inverse of a multiplier modulo 2^64. */
  function Inverse(m: word): word
    requires Multiplier(m)
  {
    if m == 5 then 0xcccc_cccc_cccc_cccd
    else if m == 7 then 0x6db6_db6d_b6db_6db7
    else 0x8e38_e38e_38e3_8e39
  }

  lemma Residue(v: int, x: word, k: int)
    requires v == x + k * U64_LIMIT
    ensures v % U64_LIMIT == x
  {}

  lemma TimesInverse(x: word, m: word)
    requires Multiplier(m)
    ensures Times(Times(x, m), Inverse(m)) == x && Times(Times(x, Inverse(m)), m) == x
  {
    var i, k := Inverse(m), (m * Inverse(m)) / U64_LIMIT;
    assert m * i == 1 + k * U64_LIMIT;
    var q := (x * m) / U64_LIMIT;
    var p := (x * i) / U64_LIMIT;
    if m == 5 {
      Residue(Times(x, m) * i, x, x * 4 - q * i);
      Residue(Times(x, i) * m, x, x * 4 - p * m);
    } else if m == 7 {
      Residue(Times(x, m) * i, x, x * 3 - q * i);
      Residue(Times(x, i) * m, x, x * 3 - p * m);
    } else {
      Residue(Times(x, m) * i, x, x * 5 - q * i);
      Residue(Times(x, i) * m, x, x * 5 - p * m);
    }
  }
}
