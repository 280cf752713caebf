/**
  The Tiger hash as its authors describe it (Anderson and Biham, "Tiger: A Fast New Hash Function"), as
  relations between registers and words in plain arithmetic modulo 2^64: what the functions of module
  Tiger compute is exactly what satisfies them. Mix, Not and the two shifts are bitwise
  (Words64.BitOfMix and the three lemmas after it).
 */
module TigerLaws {
  import opened Bytes
  import opened Words64
  import opened Tiger

  // ---------- one round ----------

  /** The look-ups at the even bytes of v, and those at the odd bytes, with the tables in the opposite order. */
  function EvenBytes(t: Tables, v: word): word {
    Mix(Mix(Mix(t(0, v % 0x100), t(1, v / 0x1_0000 % 0x100)),
            t(2, v / 0x1_0000_0000 % 0x100)), t(3, v / 0x1_0000_0000_0000 % 0x100))
  }

  function OddBytes(t: Tables, v: word): word {
    Mix(Mix(Mix(t(3, v / 0x100 % 0x100), t(2, v / 0x100_0000 % 0x100)),
            t(1, v / 0x100_0000_0000 % 0x100)), t(0, v / 0x100_0000_0000_0000 % 0x100))
  }

  predicate IsDifference(z: word, x: word, y: word) { z == (x - y) % U64_LIMIT }

  predicate IsSumTimes(z: word, x: word, y: word, m: word) { z == (x + y) % U64_LIMIT * m % U64_LIMIT }

  /** One round with the register parts a, b and c, from r to q. */
  predicate IsRound(t: Tables, r: Registers, q: Registers, a: nat, b: nat, c: nat, w: word, m: word)
    requires a < 3 && b < 3 && c < 3
  {
    && q[c] == Mix(r[c], w)
    && IsDifference(q[a], r[a], EvenBytes(t, q[c]))
    && IsSumTimes(q[b], r[b], OddBytes(t, q[c]), m)
  }

  lemma Digits(v: word)
    ensures ByteAt(v, 0) == v % 0x100 && ByteAt(v, 1) == v / 0x100 % 0x100
    ensures ByteAt(v, 2) == v / 0x1_0000 % 0x100 && ByteAt(v, 3) == v / 0x100_0000 % 0x100
    ensures ByteAt(v, 4) == v / 0x1_0000_0000 % 0x100 && ByteAt(v, 5) == v / 0x100_0000_0000 % 0x100
    ensures ByteAt(v, 6) == v / 0x1_0000_0000_0000 % 0x100 && ByteAt(v, 7) == v / 0x100_0000_0000_0000 % 0x100
  {
    assert Pow256(0) == 1;
    Pow256Values();
    hide Pow256, LE;
    DigitOfLE(v, 8, 0);
    DigitOfLE(v, 8, 1);
    DigitOfLE(v, 8, 2);
    DigitOfLE(v, 8, 3);
    DigitOfLE(v, 8, 4);
    DigitOfLE(v, 8, 5);
    DigitOfLE(v, 8, 6);
    DigitOfLE(v, 8, 7);
  }

  lemma LookUps(t: Tables, v: word)
    ensures Even(t, v) == EvenBytes(t, v) && Odd(t, v) == OddBytes(t, v)
  {
    Digits(v);
    hide Mix, ByteAt;
  }

  lemma Results(x: word, y: word, m: word, z: word)
    ensures IsDifference(z, x, y) <==> z == Minus(x, y)
    ensures IsSumTimes(z, x, y, m) <==> z == Times(Plus(x, y), m)
  {}

  lemma RoundExact(t: Tables, r: Registers, q: Registers, k: nat, w: word, m: word)
    ensures IsRound(t, r, q, k % 3, (k + 1) % 3, (k + 2) % 3, w, m) <==> q == Round(t, r, k, w, m)
  {
    var a, b, c := k % 3, (k + 1) % 3, (k + 2) % 3;
    Parts(k);
    hide Mix, Even, Odd, EvenBytes, OddBytes, IsDifference, IsSumTimes, Plus, Minus, Times;
    var v := Mix(r[c], w);
    LookUps(t, v);
    Results(r[a], Even(t, v), m, q[a]);
    Results(r[b], Odd(t, v), m, q[b]);
    if IsRound(t, r, q, a, b, c, w, m) { SameRegisters(q, Round(t, r, k, w, m), k); }
  }

  // ---------- one pass ----------

  /** The registers before, between and after eight rounds. */
  type Nine = rs: seq<Registers> | |rs| == 9 witness seq<Registers>(9, i => INITIAL)

  /** Eight rounds, one for each word; register k is the first to play a, and the parts move on by one each time. */
  ghost predicate IsPass(t: Tables, rs: Nine, k: nat, ws: Words, m: word) {
    forall n | 0 <= n < 8 :: IsRound(t, rs[n], rs[n + 1], (k + n) % 3, (k + n + 1) % 3, (k + n + 2) % 3, ws[n], m)
  }

  lemma PassExact(t: Tables, rs: Nine, k: nat, ws: Words, m: word)
    ensures IsPass(t, rs, k, ws, m) <==> forall n | 0 <= n < 8 :: rs[n + 1] == Round(t, rs[n], k + n, ws[n], m)
  {
    hide IsRound, Round;
    forall n | 0 <= n < 8
      ensures IsRound(t, rs[n], rs[n + 1], (k + n) % 3, (k + n + 1) % 3, (k + n + 2) % 3, ws[n], m)
              <==> rs[n + 1] == Round(t, rs[n], k + n, ws[n], m)
    {
      RoundExact(t, rs[n], rs[n + 1], k + n, ws[n], m);
    }
  }

  /** What a pass goes through. */
  function Trace(t: Tables, r: Registers, k: nat, ws: Words, m: word): Nine {
    seq(9, n requires 0 <= n < 9 => Rounds(t, r, k, ws, m, n))
  }

  lemma {:induction false} TraceUnique(t: Tables, rs: Nine, k: nat, ws: Words, m: word, n: nat)
    requires n < 9
    requires forall i | 0 <= i < 8 :: rs[i + 1] == Round(t, rs[i], k + i, ws[i], m)
    ensures rs[n] == Rounds(t, rs[0], k, ws, m, n)
  {
    hide Round;
    if n > 0 { TraceUnique(t, rs, k, ws, m, n - 1); }
  }

  /** A pass takes the registers from r to q. */
  ghost predicate PassTakes(t: Tables, r: Registers, q: Registers, k: nat, ws: Words, m: word) {
    exists rs: Nine :: rs[0] == r && rs[8] == q && IsPass(t, rs, k, ws, m)
  }

  lemma TraceIs(t: Tables, r: Registers, k: nat, ws: Words, m: word)
    ensures var rs := Trace(t, r, k, ws, m); rs[0] == r && rs[8] == Rounds(t, r, k, ws, m, 8) && IsPass(t, rs, k, ws, m)
  {
    hide Round, IsPass;
    var rs := Trace(t, r, k, ws, m);
    PassExact(t, rs, k, ws, m);
    forall n | 0 <= n < 8 ensures rs[n + 1] == Round(t, rs[n], k + n, ws[n], m) {
      RoundsNext(t, r, k, ws, m, n);
    }
  }

  lemma PassIs(t: Tables, r: Registers, q: Registers, k: nat, ws: Words, m: word)
    ensures PassTakes(t, r, q, k, ws, m) <==> q == Rounds(t, r, k, ws, m, 8)
  {
    hide Round, Rounds, IsPass, Trace;
    TraceIs(t, r, k, ws, m);
    if rs: Nine :| rs[0] == r && rs[8] == q && IsPass(t, rs, k, ws, m) {
      PassExact(t, rs, k, ws, m);
      TraceUnique(t, rs, k, ws, m, 8);
    }
  }

  // ---------- the key schedule ----------

  /** The first eight equations of the schedule, from x to y. */
  predicate FirstEquations(x: Words, y: Words) {
    && y[0] == (x[0] - Mix(x[7], 0xa5a5_a5a5_a5a5_a5a5)) % U64_LIMIT
    && y[1] == Mix(x[1], y[0])
    && y[2] == (x[2] + y[1]) % U64_LIMIT
    && y[3] == (x[3] - Mix(y[2], ShiftLeft19(Not(y[1])))) % U64_LIMIT
    && y[4] == Mix(x[4], y[3])
    && y[5] == (x[5] + y[4]) % U64_LIMIT
    && y[6] == (x[6] - Mix(y[5], ShiftRight23(Not(y[4])))) % U64_LIMIT
    && y[7] == Mix(x[7], y[6])
  }

  /** The other eight, from y to z. */
  predicate LastEquations(y: Words, z: Words) {
    && z[0] == (y[0] + y[7]) % U64_LIMIT
    && z[1] == (y[1] - Mix(z[0], ShiftLeft19(Not(y[7])))) % U64_LIMIT
    && z[2] == Mix(y[2], z[1])
    && z[3] == (y[3] + z[2]) % U64_LIMIT
    && z[4] == (y[4] - Mix(z[3], ShiftRight23(Not(z[2])))) % U64_LIMIT
    && z[5] == Mix(y[5], z[4])
    && z[6] == (y[6] + z[5]) % U64_LIMIT
    && z[7] == (y[7] - Mix(z[6], 0x0123_4567_89ab_cdef)) % U64_LIMIT
  }

  /** z is the schedule of x, and y its halfway point. */
  predicate IsSchedule(x: Words, y: Words, z: Words) {
    FirstEquations(x, y) && LastEquations(y, z)
  }

  lemma FirstValues(x: Words)
    ensures var y := Schedule(x, 8);
            && y[0] == Minus(x[0], Mix(x[7], 0xa5a5_a5a5_a5a5_a5a5)) && y[1] == Mix(x[1], y[0]) && y[2] == Plus(x[2], y[1])
            && y[3] == Minus(x[3], Mix(y[2], ShiftLeft19(Not(y[1])))) && y[4] == Mix(x[4], y[3]) && y[5] == Plus(x[5], y[4])
            && y[6] == Minus(x[6], Mix(y[5], ShiftRight23(Not(y[4])))) && y[7] == Mix(x[7], y[6])
  {
    hide Mix, Not, ShiftLeft19, ShiftRight23, Minus, Plus, Schedule;
    ScheduleNext(x, 0);
    ScheduleNext(x, 1);
    ScheduleNext(x, 2);
    ScheduleNext(x, 3);
    ScheduleNext(x, 4);
    ScheduleNext(x, 5);
    ScheduleNext(x, 6);
    ScheduleNext(x, 7);
  }

  lemma LastValues(x: Words)
    ensures var y, z := Schedule(x, 8), KeySchedule(x);
            && z[0] == Plus(y[0], y[7]) && z[1] == Minus(y[1], Mix(z[0], ShiftLeft19(Not(y[7])))) && z[2] == Mix(y[2], z[1])
            && z[3] == Plus(y[3], z[2]) && z[4] == Minus(y[4], Mix(z[3], ShiftRight23(Not(z[2])))) && z[5] == Mix(y[5], z[4])
            && z[6] == Plus(y[6], z[5]) && z[7] == Minus(y[7], Mix(z[6], 0x0123_4567_89ab_cdef))
  {
    hide Mix, Not, ShiftLeft19, ShiftRight23, Minus, Plus, Schedule;
    ScheduleNext(x, 8);
    ScheduleNext(x, 9);
    ScheduleNext(x, 10);
    ScheduleNext(x, 11);
    ScheduleNext(x, 12);
    ScheduleNext(x, 13);
    ScheduleNext(x, 14);
    ScheduleNext(x, 15);
  }

  lemma EquationsHold(x: Words)
    ensures FirstEquations(x, Schedule(x, 8)) && LastEquations(Schedule(x, 8), KeySchedule(x))
  {
    FirstValues(x);
    LastValues(x);
    hide Mix, Not, ShiftLeft19, ShiftRight23, Schedule, KeySchedule;
  }

  lemma FirstUnique(x: Words, y: Words, y': Words)
    requires FirstEquations(x, y) && FirstEquations(x, y')
    ensures y == y'
  {
    hide Mix, Not, ShiftLeft19, ShiftRight23;
    assert y[0] == y'[0] && y[1] == y'[1] && y[2] == y'[2] && y[3] == y'[3];
    assert y[4] == y'[4] && y[5] == y'[5] && y[6] == y'[6] && y[7] == y'[7];
  }

  lemma LastUnique(y: Words, z: Words, z': Words)
    requires LastEquations(y, z) && LastEquations(y, z')
    ensures z == z'
  {
    hide Mix, Not, ShiftLeft19, ShiftRight23;
    assert z[0] == z'[0] && z[1] == z'[1] && z[2] == z'[2] && z[3] == z'[3];
    assert z[4] == z'[4] && z[5] == z'[5] && z[6] == z'[6] && z[7] == z'[7];
  }

  /** The schedule is the one solution of the equations. */
  lemma ScheduleExact(x: Words, y: Words, z: Words)
    ensures IsSchedule(x, y, z) <==> y == Schedule(x, 8) && z == KeySchedule(x)
  {
    EquationsHold(x);
    hide FirstEquations, LastEquations, Schedule, KeySchedule;
    if IsSchedule(x, y, z) {
      FirstUnique(x, y, Schedule(x, 8));
      LastUnique(y, z, KeySchedule(x));
    }
  }

  // ---------- compression ----------

  predicate FeedsForward(p: Registers, r: Registers, q: Registers) {
    q[0] == Mix(p[0], r[0]) && q[1] == (p[1] - r[1]) % U64_LIMIT && q[2] == (p[2] + r[2]) % U64_LIMIT
  }

  /** The registers after each pass, and the words of the second and third with the halfway points before them. */
  datatype Work = Work(first: Registers, half2: Words, words2: Words, second: Registers,
                       half3: Words, words3: Words, third: Registers)

  ghost predicate PassesTake(t: Tables, r: Registers, x: Words, k: Work) {
    && PassTakes(t, r, k.first, 0, x, 5)
    && PassTakes(t, k.first, k.second, 2, k.words2, 7)
    && PassTakes(t, k.second, k.third, 1, k.words3, 9)
  }

  ghost predicate Compresses(t: Tables, r: Registers, q: Registers, x: Words, k: Work) {
    && IsSchedule(x, k.half2, k.words2) && IsSchedule(k.words2, k.half3, k.words3)
    && PassesTake(t, r, x, k) && FeedsForward(k.third, r, q)
  }

  /** One block takes the registers from r to q. */
  ghost predicate IsCompression(t: Tables, r: Registers, q: Registers, x: Words) {
    exists k: Work :: Compresses(t, r, q, x, k)
  }

  lemma FeedExact(p: Registers, r: Registers, q: Registers)
    ensures FeedsForward(p, r, q) <==> q == FeedForward(p, r)
  {
    hide Mix;
    var f := FeedForward(p, r);
    if FeedsForward(p, r, q) { assert q[0] == f[0] && q[1] == f[1] && q[2] == f[2]; }
  }

  lemma CompressSound(t: Tables, r: Registers, q: Registers, x: Words, k: Work)
    requires Compresses(t, r, q, x, k)
    ensures q == Compress(t, r, x)
  {
    hide PassTakes, Rounds, IsSchedule, Schedule, KeySchedule, FeedsForward, FeedForward;
    PassIs(t, r, k.first, 0, x, 5);
    ScheduleExact(x, k.half2, k.words2);
    PassIs(t, k.first, k.second, 2, k.words2, 7);
    ScheduleExact(k.words2, k.half3, k.words3);
    PassIs(t, k.second, k.third, 1, k.words3, 9);
    FeedExact(k.third, r, q);
  }

  lemma CompressComplete(t: Tables, r: Registers, x: Words) returns (k: Work)
    ensures Compresses(t, r, Compress(t, r, x), x, k)
  {
    hide PassTakes, Rounds, IsSchedule, Schedule, KeySchedule, FeedsForward, FeedForward;
    var words2, words3 := KeySchedule(x), KeySchedule(KeySchedule(x));
    var first := Rounds(t, r, 0, x, 5, 8);
    var second := Rounds(t, first, 2, words2, 7, 8);
    var third := Rounds(t, second, 1, words3, 9, 8);
    k := Work(first, Schedule(x, 8), words2, second, Schedule(words2, 8), words3, third);
    PassIs(t, r, first, 0, x, 5);
    ScheduleExact(x, k.half2, words2);
    PassIs(t, first, second, 2, words2, 7);
    ScheduleExact(words2, k.half3, words3);
    PassIs(t, second, third, 1, words3, 9);
    FeedExact(third, r, Compress(t, r, x));
  }

  lemma CompressExact(t: Tables, r: Registers, q: Registers, x: Words)
    ensures IsCompression(t, r, q, x) <==> q == Compress(t, r, x)
  {
    hide Compresses, Compress;
    var work := CompressComplete(t, r, x);
    if k: Work :| Compresses(t, r, q, x, k) { CompressSound(t, r, q, x, k); }
  }

  // ---------- padding ----------

  /**
    The payload, the byte 1, as few zero bytes as make whole blocks of 64 bytes with room for the length,
    and the length in bits, least significant byte first.
   */
  ghost predicate IsPadded(payload: seq<byte>, s: seq<byte>) {
    var n := |payload|;
    && |s| % 64 == 0 && n + 9 <= |s| < n + 9 + 64
    && s[..n] == payload && s[n] == 1
    && (forall j | n < j < |s| - 8 :: s[j] == 0)
    && forall j | 0 <= j < 8 :: s[|s| - 8 + j] == (8 * n) % U64_LIMIT / Pow256(j) % 256
  }

  lemma LengthDigits(n: nat)
    ensures var length := LE64((8 * n) % U64_LIMIT);
            forall j | 0 <= j < 8 :: length[j] == (8 * n) % U64_LIMIT / Pow256(j) % 256
  {
    forall j | 0 <= j < 8 ensures LE64((8 * n) % U64_LIMIT)[j] == (8 * n) % U64_LIMIT / Pow256(j) % 256 {
      DigitOfLE((8 * n) % U64_LIMIT, 8, j);
    }
  }

  lemma OneLength(n: nat, m: nat)
    requires m % 64 == 0 && n + 9 <= m < n + 9 + 64
    ensures m == n + 1 + ZeroCount(n) + 8
  {
    ZerosFill(n);
    hide ZeroCount;
  }

  lemma PaddedIsPad(payload: seq<byte>, s: seq<byte>)
    requires IsPadded(payload, s)
    ensures s == Pad(payload)
  {
    LengthDigits(|payload|);
    OneLength(|payload|, |s|);
    hide LE64, Pow256, Pad, ZeroCount;
    forall j | 0 <= j < |payload| ensures s[j] == payload[j] { assert s[..|payload|][j] == payload[j]; }
    PadByBytes(s, payload);
  }

  lemma PadIsPadded(payload: seq<byte>)
    ensures IsPadded(payload, Pad(payload))
  {
    var n, s := |payload|, Pad(payload);
    LengthDigits(n);
    PadMinimal(payload, 0);
    ZerosFill(n);
    Marked(payload);
    var front := s[..|s| - 8];
    hide Pow256, ZeroCount;
    assert s[..n] == front[..n];
    assert s[|s| - 8..] == LE64((8 * n) % U64_LIMIT);
    forall j | 0 <= j < 8 ensures s[|s| - 8 + j] == LE64((8 * n) % U64_LIMIT)[j] {
      assert s[|s| - 8..][j] == s[|s| - 8 + j];
    }
  }

  // ---------- the hash ----------

  function Horner(low: byte, high: nat): nat { low + 0x100 * high }

  /** Word j of block i of s, least significant byte first. */
  function WordAt(s: seq<byte>, i: nat, j: nat): word
    requires 64 * i + 64 <= |s| && j < 8
  {
    var o := 64 * i + 8 * j;
    Horner(s[o], Horner(s[o + 1], Horner(s[o + 2], Horner(s[o + 3],
    Horner(s[o + 4], Horner(s[o + 5], Horner(s[o + 6], s[o + 7])))))))
  }

  function BlockAt(s: seq<byte>, i: nat): Words
    requires 64 * i + 64 <= |s|
  {
    seq(8, j requires 0 <= j < 8 => WordAt(s, i, j))
  }

  /** rs are the registers before, between and after the blocks of s. */
  ghost predicate Chained(t: Tables, s: seq<byte>, rs: seq<Registers>) {
    && |rs| == |s| / 64 + 1
    && rs[0] == [0x0123_4567_89ab_cdef, 0xfedc_ba98_7654_3210, 0xf096_a5b4_c3b2_e187]
    && forall i | 0 <= i < |s| / 64 :: IsCompression(t, rs[i], rs[i + 1], BlockAt(s, i))
  }

  /** b holds w, least significant byte first. */
  ghost predicate HoldsWord(b: seq<byte>, w: word) {
    |b| == 8 && forall j | 0 <= j < 8 :: b[j] == w / Pow256(j) % 256
  }

  /** d holds the registers one after the other. */
  ghost predicate HoldsRegisters(d: seq<byte>, r: Registers) {
    |d| == 24 && HoldsWord(d[..8], r[0]) && HoldsWord(d[8..16], r[1]) && HoldsWord(d[16..], r[2])
  }

  /** d is the digest of the payload. */
  ghost predicate IsDigest(t: Tables, payload: seq<byte>, d: seq<byte>) {
    exists s: seq<byte>, rs: seq<Registers> :: IsPadded(payload, s) && Chained(t, s, rs) && HoldsRegisters(d, rs[|s| / 64])
  }

  lemma FromLEAt(b: seq<byte>, i: nat)
    requires i < |b|
    ensures FromLE(b[i..]) == Horner(b[i], FromLE(b[i + 1..]))
  {
    assert b[i..][1..] == b[i + 1..];
  }

  lemma WordExact(b: seq<byte>)
    requires |b| == 8
    ensures FromLE64(b) == Horner(b[0], Horner(b[1], Horner(b[2], Horner(b[3],
                           Horner(b[4], Horner(b[5], Horner(b[6], b[7])))))))
  {
    hide FromLE, Horner;
    assert b[0..] == b && b[7..] == [b[7]];
    FromLEAt(b, 0);
    FromLEAt(b, 1);
    FromLEAt(b, 2);
    FromLEAt(b, 3);
    FromLEAt(b, 4);
    FromLEAt(b, 5);
    FromLEAt(b, 6);
    LastDigit(b[7]);
  }

  lemma LastDigit(x: byte)
    ensures FromLE([x]) == x
  {}

  lemma BlockExact(s: seq<byte>, i: nat)
    requires 64 * i + 64 <= |s|
    ensures BlockAt(s, i) == BlockWords(s, i * BLOCK_SIZE)
  {
    forall j | 0 <= j < 8 ensures WordAt(s, i, j) == BlockWords(s, i * BLOCK_SIZE)[j] {
      var o := 64 * i + 8 * j;
      WordExact(s[o..o + 8]);
      hide Horner, FromLE64;
    }
  }

  lemma HoldsWordExact(b: seq<byte>, w: word)
    ensures HoldsWord(b, w) <==> b == LE64(w)
  {
    forall j | 0 <= j < 8 ensures LE64(w)[j] == w / Pow256(j) % 256 { DigitOfLE(w, 8, j); }
    hide Pow256, LE64;
  }

  lemma HoldsExact(d: seq<byte>, r: Registers)
    ensures HoldsRegisters(d, r) <==> d == LE64(r[0]) + LE64(r[1]) + LE64(r[2])
  {
    hide HoldsWord, LE64;
    var whole := LE64(r[0]) + LE64(r[1]) + LE64(r[2]);
    assert whole[..8] == LE64(r[0]) && whole[8..16] == LE64(r[1]) && whole[16..] == LE64(r[2]);
    HoldsWordExact(LE64(r[0]), r[0]);
    HoldsWordExact(LE64(r[1]), r[1]);
    HoldsWordExact(LE64(r[2]), r[2]);
    if |d| == 24 {
      HoldsWordExact(d[..8], r[0]);
      HoldsWordExact(d[8..16], r[1]);
      HoldsWordExact(d[16..], r[2]);
      assert d == d[..8] + d[8..16] + d[16..];
    }
  }

  lemma {:induction false} ChainedExact(t: Tables, s: seq<byte>, rs: seq<Registers>, n: nat)
    requires |s| % 64 == 0 && Chained(t, s, rs) && n <= |s| / 64
    ensures rs[n] == Hashed(t, s, n)
  {
    HashedStart(t, s);
    hide IsCompression, Compress, Hashed, BlockAt, BlockWords;
    if n > 0 {
      ChainedExact(t, s, rs, n - 1);
      HashedNext(t, s, n - 1);
      CompressExact(t, rs[n - 1], rs[n], BlockAt(s, n - 1));
      BlockExact(s, n - 1);
    }
  }

  lemma HashedChained(t: Tables, s: seq<byte>) returns (rs: seq<Registers>)
    requires |s| % 64 == 0
    ensures Chained(t, s, rs)
  {
    hide IsCompression, Compress, Hashed, BlockAt, BlockWords;
    rs := seq(|s| / 64 + 1, n requires 0 <= n <= |s| / 64 => Hashed(t, s, n));
    HashedStart(t, s);
    forall i | 0 <= i < |s| / 64 ensures IsCompression(t, rs[i], rs[i + 1], BlockAt(s, i)) {
      HashedNext(t, s, i);
      CompressExact(t, rs[i], rs[i + 1], BlockAt(s, i));
      BlockExact(s, i);
    }
  }

  lemma HashedStart(t: Tables, s: seq<byte>)
    ensures Hashed(t, s, 0) == [0x0123_4567_89ab_cdef, 0xfedc_ba98_7654_3210, 0xf096_a5b4_c3b2_e187]
  {}

  lemma DigestSound(t: Tables, payload: seq<byte>, d: seq<byte>, s: seq<byte>, rs: seq<Registers>)
    requires IsPadded(payload, s) && Chained(t, s, rs) && HoldsRegisters(d, rs[|s| / 64])
    ensures d == Digest(t, payload)
  {
    PaddedIsPad(payload, s);
    PadMinimal(payload, 0);
    hide IsPadded, IsCompression, HoldsRegisters, Hashed, Pad, Digest, LE64;
    var blocks := |s| / 64;
    ChainedExact(t, s, rs, blocks);
    DigestIs(t, payload, blocks);
    HoldsExact(d, rs[blocks]);
  }

  lemma DigestComplete(t: Tables, payload: seq<byte>)
    ensures IsDigest(t, payload, Digest(t, payload))
  {
    var s := Pad(payload);
    PadIsPadded(payload);
    PadMinimal(payload, 0);
    hide IsPadded, IsCompression, HoldsRegisters, Hashed, Pad, Digest, LE64;
    var rs := HashedChained(t, s);
    var blocks := |s| / 64;
    ChainedExact(t, s, rs, blocks);
    DigestIs(t, payload, blocks);
    HoldsExact(Digest(t, payload), rs[blocks]);
  }

  /** The digest of a payload is exactly what the description of the hash says. */
  lemma DigestExact(t: Tables, payload: seq<byte>, d: seq<byte>)
    ensures IsDigest(t, payload, d) <==> d == Digest(t, payload)
  {
    hide IsPadded, IsCompression, HoldsRegisters, Digest;
    DigestComplete(t, payload);
    if IsDigest(t, payload, d) {
      var s: seq<byte>, rs: seq<Registers> :| IsPadded(payload, s) && Chained(t, s, rs) && HoldsRegisters(d, rs[|s| / 64]);
      DigestSound(t, payload, d, s, rs);
    }
  }

  /** The initialization vector of a counter is the first third of the digest of its four bytes, the least significant first. */
  lemma IVExact(t: Tables, counter: u32, d: seq<byte>)
    requires IsDigest(t, [counter % 0x100, counter / 0x100 % 0x100, counter / 0x1_0000 % 0x100, counter / 0x100_0000], d)
    ensures DeriveIV(t, counter) == d[..8]
  {
    var encoded := [counter % 0x100, counter / 0x100 % 0x100, counter / 0x1_0000 % 0x100, counter / 0x100_0000];
    CounterBytes(counter);
    DigestExact(t, encoded, d);
    hide Digest, IsDigest, LE32;
    assert LE32(counter) == encoded;
  }

  lemma CounterBytes(v: u32)
    ensures LE32(v) == [v % 0x100, v / 0x100 % 0x100, v / 0x1_0000 % 0x100, v / 0x100_0000]
  {
    Pow256Values();
    assert Pow256(0) == 1;
    hide Pow256, LE;
    DigitOfLE(v, 4, 0);
    DigitOfLE(v, 4, 1);
    DigitOfLE(v, 4, 2);
    DigitOfLE(v, 4, 3);
  }
}
