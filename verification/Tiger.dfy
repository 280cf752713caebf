/**
  The Tiger hash (internal/online/bitdemon/tiger.go; Anderson and Biham, "Tiger: A Fast New Hash
  Function") for any S-boxes.

  The three registers are a sequence, and a round is told which register plays which part. Every round,
  every pass and the key schedule has an explicit inverse.
 */
module Tiger {
  import opened Bytes
  import opened Words64
  import C = Crypto

  const BLOCK_SIZE := 64
  const DIGEST_SIZE := 24

  /** The four tables of 256 words. */
  type Tables = (nat, byte) -> word

  type Registers = r: seq<word> | |r| == 3 witness [0, 0, 0]

  type Words = w: seq<word> | |w| == 8 witness [0, 0, 0, 0, 0, 0, 0, 0]

  // ---------- rounds ----------

  /** The byte of v that starts at bit 8 k. */
  function ByteAt(v: word, k: nat): byte
    requires k < 8
  {
    LE64(v)[k]
  }

  function Even(t: Tables, v: word): word {
    Mix(Mix(Mix(t(0, ByteAt(v, 0)), t(1, ByteAt(v, 2))), t(2, ByteAt(v, 4))), t(3, ByteAt(v, 6)))
  }

  function Odd(t: Tables, v: word): word {
    Mix(Mix(Mix(t(3, ByteAt(v, 1)), t(2, ByteAt(v, 3))), t(1, ByteAt(v, 5))), t(0, ByteAt(v, 7)))
  }

  /** One round in which register k plays a, the next one b and the one after that c. */
  function Round(t: Tables, r: Registers, k: nat, w: word, m: word): Registers {
    var a, b, c := k % 3, (k + 1) % 3, (k + 2) % 3;
    var v := Mix(r[c], w);
    r[c := v][a := Minus(r[a], Even(t, v))][b := Times(Plus(r[b], Odd(t, v)), m)]
  }

  function Unround(t: Tables, r: Registers, k: nat, w: word, m: word): Registers
    requires Multiplier(m)
  {
    var a, b, c := k % 3, (k + 1) % 3, (k + 2) % 3;
    var v := r[c];
    r[c := Mix(v, w)][a := Plus(r[a], Even(t, v))][b := Minus(Times(r[b], Inverse(m)), Odd(t, v))]
  }

  lemma Parts(k: nat)
    ensures var a, b, c := k % 3, (k + 1) % 3, (k + 2) % 3;
            a != b && b != c && a != c
  {}

  /** Registers that agree on all three parts are the same. */
  lemma SameRegisters(r: Registers, q: Registers, k: nat)
    requires r[k % 3] == q[k % 3] && r[(k + 1) % 3] == q[(k + 1) % 3] && r[(k + 2) % 3] == q[(k + 2) % 3]
    ensures r == q
  {
    assert r[0] == q[0] && r[1] == q[1] && r[2] == q[2];
  }

  /** A round is a permutation of the registers: Unround undoes it, and it undoes Unround. */
  lemma RoundInverse(t: Tables, r: Registers, k: nat, w: word, m: word)
    requires Multiplier(m)
    ensures Unround(t, Round(t, r, k, w, m), k, w, m) == r
    ensures Round(t, Unround(t, r, k, w, m), k, w, m) == r
  {
    hide Plus, Minus, Times, Mix, Even, Odd, Inverse;
    Parts(k);
    var a, b, c := k % 3, (k + 1) % 3, (k + 2) % 3;
    MixTwice(r[c], w);
    var v := Mix(r[c], w);
    PlusMinus(r[a], Even(t, v));
    PlusMinus(r[b], Odd(t, v));
    TimesInverse(Plus(r[b], Odd(t, v)), m);
    PlusMinus(r[a], Even(t, r[c]));
    PlusMinus(Times(r[b], Inverse(m)), Odd(t, r[c]));
    TimesInverse(r[b], m);
    SameRegisters(Unround(t, Round(t, r, k, w, m), k, w, m), r, k);
    SameRegisters(Round(t, Unround(t, r, k, w, m), k, w, m), r, k);
  }

  // ---------- passes ----------

  /** The first n rounds of a pass whose first round has register k as a. */
  function Rounds(t: Tables, r: Registers, k: nat, ws: Words, m: word, n: nat): Registers
    requires n <= 8
  {
    if n == 0 then r else Round(t, Rounds(t, r, k, ws, m, n - 1), k + n - 1, ws[n - 1], m)
  }

  function Unrounds(t: Tables, r: Registers, k: nat, ws: Words, m: word, n: nat): Registers
    requires Multiplier(m) && n <= 8
    decreases n
  {
    if n == 0 then r else Unrounds(t, Unround(t, r, k + n - 1, ws[n - 1], m), k, ws, m, n - 1)
  }

  lemma {:induction false} RoundsInverse(t: Tables, r: Registers, k: nat, ws: Words, m: word, n: nat)
    requires Multiplier(m) && n <= 8
    ensures Unrounds(t, Rounds(t, r, k, ws, m, n), k, ws, m, n) == r
    ensures Rounds(t, Unrounds(t, r, k, ws, m, n), k, ws, m, n) == r
    decreases n
  {
    hide Round, Unround;
    if n > 0 {
      RoundInverse(t, Rounds(t, r, k, ws, m, n - 1), k + n - 1, ws[n - 1], m);
      RoundsInverse(t, r, k, ws, m, n - 1);
      RoundInverse(t, r, k + n - 1, ws[n - 1], m);
      RoundsInverse(t, Unround(t, r, k + n - 1, ws[n - 1], m), k, ws, m, n - 1);
    }
  }

  // ---------- the key schedule ----------

  datatype Op = Sub | Xor | Add

  datatype Operand =
    | Whole(i: nat)                // words[i]
    | Masked(i: nat, mask: word)   // words[i] ^ mask
    | Left(i: nat, j: nat)         // words[i] ^ (^words[j] << 19)
    | Right(i: nat, j: nat)        // words[i] ^ (^words[j] >> 23)

  datatype KeyStep = KeyStep(target: nat, op: Op, operand: Operand)

  const SCHEDULE: seq<KeyStep> := [
    KeyStep(0, Sub, Masked(7, 0xa5a5_a5a5_a5a5_a5a5)),
    KeyStep(1, Xor, Whole(0)),
    KeyStep(2, Add, Whole(1)),
    KeyStep(3, Sub, Left(2, 1)),
    KeyStep(4, Xor, Whole(3)),
    KeyStep(5, Add, Whole(4)),
    KeyStep(6, Sub, Right(5, 4)),
    KeyStep(7, Xor, Whole(6)),
    KeyStep(0, Add, Whole(7)),
    KeyStep(1, Sub, Left(0, 7)),
    KeyStep(2, Xor, Whole(1)),
    KeyStep(3, Add, Whole(2)),
    KeyStep(4, Sub, Right(3, 2)),
    KeyStep(5, Xor, Whole(4)),
    KeyStep(6, Add, Whole(5)),
    KeyStep(7, Sub, Masked(6, 0x0123_4567_89ab_cdef))]

  /** The value of an operand, which never depends on the target of its step. */
  function ValueOf(ws: Words, o: Operand, target: nat): word {
    match o
    case Whole(i) => if i < 8 && i != target then ws[i] else 0
    case Masked(i, mask) => if i < 8 && i != target then Mix(ws[i], mask) else 0
    case Left(i, j) => if i < 8 && j < 8 && i != target && j != target then Mix(ws[i], ShiftLeft19(Not(ws[j]))) else 0
    case Right(i, j) => if i < 8 && j < 8 && i != target && j != target then Mix(ws[i], ShiftRight23(Not(ws[j]))) else 0
  }

  function Combine(op: Op, x: word, y: word): word {
    match op
    case Sub => Minus(x, y)
    case Xor => Mix(x, y)
    case Add => Plus(x, y)
  }

  function Opposite(op: Op): Op {
    match op
    case Sub => Add
    case Xor => Xor
    case Add => Sub
  }

  function Apply(ws: Words, s: KeyStep): Words {
    if s.target < 8 then ws[s.target := Combine(s.op, ws[s.target], ValueOf(ws, s.operand, s.target))] else ws
  }

  function Undo(s: KeyStep): KeyStep { s.(op := Opposite(s.op)) }

  lemma StepInverse(ws: Words, s: KeyStep)
    ensures Apply(Apply(ws, s), Undo(s)) == ws && Apply(Apply(ws, Undo(s)), s) == ws
  {
    hide ValueOf, Plus, Minus, Mix;
    if s.target < 8 {
      var v := ValueOf(ws, s.operand, s.target);
      var x := ws[s.target];
      PlusMinus(x, v);
      MixTwice(x, v);
      OperandKept(ws, s.operand, s.target, Combine(s.op, x, v));
      OperandKept(ws, s.operand, s.target, Combine(Opposite(s.op), x, v));
      assert ws[s.target := Combine(s.op, x, v)][s.target := x] == ws;
      assert ws[s.target := Combine(Opposite(s.op), x, v)][s.target := x] == ws;
    }
  }

  lemma OperandKept(ws: Words, o: Operand, target: nat, v: word)
    requires target < 8
    ensures ValueOf(ws[target := v], o, target) == ValueOf(ws, o, target)
  {}

  /** The words after the first n steps. */
  function Schedule(ws: Words, n: nat): Words
    requires n <= |SCHEDULE|
  {
    if n == 0 then ws else Apply(Schedule(ws, n - 1), SCHEDULE[n - 1])
  }

  function Unschedule(ws: Words, n: nat): Words
    requires n <= |SCHEDULE|
    decreases n
  {
    if n == 0 then ws else Unschedule(Apply(ws, Undo(SCHEDULE[n - 1])), n - 1)
  }

  lemma {:induction false} ScheduleInverse(ws: Words, n: nat)
    requires n <= |SCHEDULE|
    ensures Unschedule(Schedule(ws, n), n) == ws && Schedule(Unschedule(ws, n), n) == ws
    decreases n
  {
    hide Apply, SCHEDULE, Undo;
    if n > 0 {
      StepInverse(Schedule(ws, n - 1), SCHEDULE[n - 1]);
      ScheduleInverse(ws, n - 1);
      StepInverse(ws, SCHEDULE[n - 1]);
      ScheduleInverse(Apply(ws, Undo(SCHEDULE[n - 1])), n - 1);
    }
  }

  function KeySchedule(ws: Words): Words { Schedule(ws, |SCHEDULE|) }

  // ---------- compression ----------

  /** The three passes of a block before feed-forward; each pass starts with another register. */
  function Passes(t: Tables, r: Registers, ws: Words): Registers {
    var first := Rounds(t, r, 0, ws, 5, 8);
    var second := Rounds(t, first, 2, KeySchedule(ws), 7, 8);
    Rounds(t, second, 1, KeySchedule(KeySchedule(ws)), 9, 8)
  }

  function Unpasses(t: Tables, r: Registers, ws: Words): Registers {
    var second := Unrounds(t, r, 1, KeySchedule(KeySchedule(ws)), 9, 8);
    var first := Unrounds(t, second, 2, KeySchedule(ws), 7, 8);
    Unrounds(t, first, 0, ws, 5, 8)
  }

  /** For every block and any S-boxes the passes permute the registers. */
  lemma PassesInverse(t: Tables, r: Registers, ws: Words)
    ensures Unpasses(t, Passes(t, r, ws), ws) == r && Passes(t, Unpasses(t, r, ws), ws) == r
  {
    hide Rounds, Unrounds, KeySchedule;
    var w2, w3 := KeySchedule(ws), KeySchedule(KeySchedule(ws));
    RoundsInverse(t, r, 0, ws, 5, 8);
    var first := Rounds(t, r, 0, ws, 5, 8);
    RoundsInverse(t, first, 2, w2, 7, 8);
    RoundsInverse(t, Rounds(t, first, 2, w2, 7, 8), 1, w3, 9, 8);
    RoundsInverse(t, r, 1, w3, 9, 8);
    var second := Unrounds(t, r, 1, w3, 9, 8);
    RoundsInverse(t, second, 2, w2, 7, 8);
    RoundsInverse(t, Unrounds(t, second, 2, w2, 7, 8), 0, ws, 5, 8);
  }

  /** So two blocks with the same schedule are the same. */
  lemma ScheduleInjective(ws: Words, vs: Words)
    requires KeySchedule(ws) == KeySchedule(vs)
    ensures ws == vs
  {
    hide Schedule, Unschedule;
    ScheduleInverse(ws, |SCHEDULE|);
    ScheduleInverse(vs, |SCHEDULE|);
  }

  function FeedForward(r: Registers, original: Registers): Registers {
    [Mix(r[0], original[0]), Minus(r[1], original[1]), Plus(r[2], original[2])]
  }

  function Compress(t: Tables, r: Registers, ws: Words): Registers {
    FeedForward(Passes(t, r, ws), r)
  }

  // ---------- in place ----------

  /** The pointers a, b and c when register k plays a. */
  predicate Plays(a: nat, b: nat, c: nat, k: nat) {
    a == k % 3 && b == (k + 1) % 3 && c == (k + 2) % 3
  }

  lemma Rotate(a: nat, b: nat, c: nat, k: nat)
    requires Plays(a, b, c, k)
    ensures Plays(b, c, a, k + 1) && a != b && b != c && a != c
  {}

  method TigerRound(t: Tables, r: array<word>, a: nat, b: nat, c: nat, ghost k: nat, w: word, m: word)
    requires r.Length == 3 && Plays(a, b, c, k)
    modifies r
    ensures r[..] == Round(t, old(r[..]), k, w, m)
  {
    Rotate(a, b, c, k);
    hide Mix, Plus, Minus, Times, Even, Odd;
    r[c] := Mix(r[c], w);
    var value := r[c];
    r[a] := Minus(r[a], Even(t, value));
    r[b] := Plus(r[b], Odd(t, value));
    r[b] := Times(r[b], m);
  }

  lemma RoundsNext(t: Tables, r: Registers, k: nat, ws: Words, m: word, n: nat)
    requires n < 8
    ensures Rounds(t, r, k, ws, m, 0) == r
    ensures Rounds(t, r, k, ws, m, n + 1) == Round(t, Rounds(t, r, k, ws, m, n), k + n, ws[n], m)
  {
    hide Round;
  }

  /** One more round of a pass, with the pointers that play in it. */
  method NextRound(t: Tables, r: array<word>, a: nat, b: nat, c: nat, w: word, m: word,
                   ghost start: Registers, ghost ws: Words, ghost k: nat, ghost n: nat)
    requires r.Length == 3 && Plays(a, b, c, k + n) && n < 8 && w == ws[n]
    requires r[..] == Rounds(t, start, k, ws, m, n)
    modifies r
    ensures r[..] == Rounds(t, start, k, ws, m, n + 1)
    ensures Plays(b, c, a, k + n + 1)
  {
    hide Round, Rounds, Plays;
    RoundsNext(t, start, k, ws, m, n);
    Rotate(a, b, c, k + n);
    TigerRound(t, r, a, b, c, k + n, w, m);
  }

  method TigerPass(t: Tables, r: array<word>, a: nat, b: nat, c: nat, ghost k: nat, words: array<word>, m: word)
    requires r.Length == 3 && Plays(a, b, c, k) && words.Length == 8 && words != r
    modifies r
    ensures r[..] == Rounds(t, old(r[..]), k, words[..], m, 8)
  {
    hide Round, Rounds, Plays;
    ghost var start: Registers := r[..];
    ghost var ws: Words := words[..];
    RoundsNext(t, start, k, ws, m, 0);
    NextRound(t, r, a, b, c, words[0], m, start, ws, k, 0);
    NextRound(t, r, b, c, a, words[1], m, start, ws, k, 1);
    NextRound(t, r, c, a, b, words[2], m, start, ws, k, 2);
    NextRound(t, r, a, b, c, words[3], m, start, ws, k, 3);
    NextRound(t, r, b, c, a, words[4], m, start, ws, k, 4);
    NextRound(t, r, c, a, b, words[5], m, start, ws, k, 5);
    NextRound(t, r, a, b, c, words[6], m, start, ws, k, 6);
    NextRound(t, r, b, c, a, words[7], m, start, ws, k, 7);
  }

  lemma ScheduleNext(ws: Words, n: nat)
    requires n < |SCHEDULE|
    ensures Schedule(ws, 0) == ws && Schedule(ws, n + 1) == Apply(Schedule(ws, n), SCHEDULE[n])
  {
    hide Apply, SCHEDULE;
  }

  /** The first eight statements of the schedule. */
  method FirstHalf(w: array<word>)
    requires w.Length == 8
    modifies w
    ensures w[..] == Schedule(old(w[..]), 8)
  {
    hide Mix, Plus, Minus, Not, ShiftLeft19, ShiftRight23, Schedule;
    ghost var start: Words := w[..];
    ScheduleNext(start, 0);
    w[0] := Minus(w[0], Mix(w[7], 0xa5a5_a5a5_a5a5_a5a5));
    assert w[..] == Schedule(start, 1);
    ScheduleNext(start, 1);
    w[1] := Mix(w[1], w[0]);
    assert w[..] == Schedule(start, 2);
    ScheduleNext(start, 2);
    w[2] := Plus(w[2], w[1]);
    assert w[..] == Schedule(start, 3);
    ScheduleNext(start, 3);
    w[3] := Minus(w[3], Mix(w[2], ShiftLeft19(Not(w[1]))));
    assert w[..] == Schedule(start, 4);
    ScheduleNext(start, 4);
    w[4] := Mix(w[4], w[3]);
    assert w[..] == Schedule(start, 5);
    ScheduleNext(start, 5);
    w[5] := Plus(w[5], w[4]);
    assert w[..] == Schedule(start, 6);
    ScheduleNext(start, 6);
    w[6] := Minus(w[6], Mix(w[5], ShiftRight23(Not(w[4]))));
    assert w[..] == Schedule(start, 7);
    ScheduleNext(start, 7);
    w[7] := Mix(w[7], w[6]);
  }

  /** The other eight; earlier is the state before the first half. */
  method SecondHalf(w: array<word>, ghost earlier: Words)
    requires w.Length == 8 && w[..] == Schedule(earlier, 8)
    modifies w
    ensures w[..] == Schedule(earlier, 16)
  {
    hide Mix, Plus, Minus, Not, ShiftLeft19, ShiftRight23;
    w[0] := Plus(w[0], w[7]);
    assert w[..] == Schedule(earlier, 9);
    w[1] := Minus(w[1], Mix(w[0], ShiftLeft19(Not(w[7]))));
    assert w[..] == Schedule(earlier, 10);
    w[2] := Mix(w[2], w[1]);
    assert w[..] == Schedule(earlier, 11);
    w[3] := Plus(w[3], w[2]);
    assert w[..] == Schedule(earlier, 12);
    w[4] := Minus(w[4], Mix(w[3], ShiftRight23(Not(w[2]))));
    assert w[..] == Schedule(earlier, 13);
    w[5] := Mix(w[5], w[4]);
    assert w[..] == Schedule(earlier, 14);
    w[6] := Plus(w[6], w[5]);
    assert w[..] == Schedule(earlier, 15);
    w[7] := Minus(w[7], Mix(w[6], 0x0123_4567_89ab_cdef));
  }

  method TigerKeySchedule(w: array<word>)
    requires w.Length == 8
    modifies w
    ensures w[..] == KeySchedule(old(w[..]))
  {
    hide Schedule;
    FirstHalf(w);
    SecondHalf(w, old(w[..]));
  }

  method TigerCompress(t: Tables, r: array<word>, words: array<word>)
    requires r.Length == 3 && words.Length == 8 && words != r
    modifies r, words
    ensures r[..] == Compress(t, old(r[..]), old(words[..]))
    ensures words[..] == KeySchedule(KeySchedule(old(words[..])))
  {
    hide Rounds, KeySchedule, Mix, Plus, Minus;
    var originalA, originalB, originalC := r[0], r[1], r[2];
    TigerPass(t, r, 0, 1, 2, 0, words, 5);
    TigerKeySchedule(words);
    TigerPass(t, r, 2, 0, 1, 2, words, 7);
    TigerKeySchedule(words);
    TigerPass(t, r, 1, 2, 0, 1, words, 9);
    r[0] := Mix(r[0], originalA);
    r[1] := Minus(r[1], originalB);
    r[2] := Plus(r[2], originalC);
  }

  // ---------- padding ----------

  const MARKER: byte := 0x01

  function ZeroCount(n: nat): nat { (56 - (n + 1) % BLOCK_SIZE + BLOCK_SIZE) % BLOCK_SIZE }

  /** The message, a marker, zeros and the length in bits modulo 2^64. */
  function Pad(payload: seq<byte>): seq<byte> {
    (payload + [MARKER]) + (Repeat(0, ZeroCount(|payload|)) + LE64((8 * |payload|) % U64_LIMIT))
  }

  /** The padded length is the least multiple of 64 that leaves room for the marker and the length. */
  lemma PadMinimal(payload: seq<byte>, n: nat)
    ensures |Pad(payload)| % BLOCK_SIZE == 0 && |Pad(payload)| >= |payload| + 9
    ensures n % BLOCK_SIZE == 0 && n >= |payload| + 9 ==> n >= |Pad(payload)|
  {
    ZerosFill(|payload|);
    hide ZeroCount, LE64, Repeat;
    if n % BLOCK_SIZE == 0 { NextMultiple(|Pad(payload)|, n); }
  }

  lemma ZerosFill(n: nat)
    ensures ZeroCount(n) < BLOCK_SIZE && (n + 1 + ZeroCount(n) + 8) % BLOCK_SIZE == 0
  {
    var x := (n + 1) % BLOCK_SIZE;
    assert ZeroCount(n) == if x <= 56 then 56 - x else 120 - x;
  }

  lemma NextMultiple(m: nat, n: nat)
    requires m % BLOCK_SIZE == 0 && n % BLOCK_SIZE == 0
    ensures n > m - BLOCK_SIZE ==> n >= m
  {}

  /** Behind the message there is one marker and then only zeros up to the length. */
  lemma Marked(payload: seq<byte>)
    ensures var front := Pad(payload)[..|Pad(payload)| - 8];
            && |front| > |payload| && front[..|payload|] == payload && front[|payload|] == MARKER
            && forall j | |payload| < j < |front| :: front[j] == 0
  {
    hide LE64;
    var front := Pad(payload)[..|Pad(payload)| - 8];
    assert front == (payload + [MARKER]) + Repeat(0, ZeroCount(|payload|));
  }

  /** Messages of any length with the same padding are the same. */
  lemma PadInjective(p: seq<byte>, q: seq<byte>)
    requires Pad(p) == Pad(q)
    ensures p == q
  {
    PadMinimal(p, 0);
    Marked(p);
    Marked(q);
    hide Pad;
  }

  /** The built-in copy. */
  method CopyInto(a: array<byte>, start: nat, value: seq<byte>)
    requires start + |value| <= a.Length
    modifies a
    ensures forall j | 0 <= j < |value| :: a[start + j] == value[j]
    ensures forall j | 0 <= j < a.Length && !(start <= j < start + |value|) :: a[j] == old(a[j])
  {
    for i := 0 to |value|
      invariant forall j | 0 <= j < i :: a[start + j] == value[j]
      invariant forall j | 0 <= j < a.Length && !(start <= j < start + i) :: a[j] == old(a[j])
    {
      a[start + i] := value[i];
    }
  }

  /** The padding, byte by byte. */
  lemma PadByBytes(s: seq<byte>, payload: seq<byte>)
    requires |s| == |payload| + 1 + ZeroCount(|payload|) + 8
    requires forall j | 0 <= j < |payload| :: s[j] == payload[j]
    requires s[|payload|] == MARKER && forall j | |payload| < j < |s| - 8 :: s[j] == 0
    requires var length := LE64((8 * |payload|) % U64_LIMIT); forall j | 0 <= j < 8 :: s[|s| - 8 + j] == length[j]
    ensures s == Pad(payload)
  {
    hide LE64, ZeroCount;
    var length := LE64((8 * |payload|) % U64_LIMIT);
    var front := (payload + [MARKER]) + Repeat(0, ZeroCount(|payload|));
    assert s[..|s| - 8] == front;
    var tail := s[|s| - 8..];
    forall j | 0 <= j < 8 ensures tail[j] == length[j] {}
    assert tail == length;
    assert s == front + length;
  }

  method TigerPad(payload: seq<byte>) returns (padded: array<byte>)
    ensures fresh(padded) && padded[..] == Pad(payload)
  {
    hide LE64, Pad;
    var lengthWithMarker := |payload| + 1;
    var zeroCount := (56 - lengthWithMarker % BLOCK_SIZE + BLOCK_SIZE) % BLOCK_SIZE;
    assert zeroCount == ZeroCount(|payload|);
    hide ZeroCount;
    padded := new byte[lengthWithMarker + zeroCount + 8](_ => 0);
    CopyInto(padded, 0, payload);
    padded[|payload|] := MARKER;
    var length := LE64((8 * |payload|) % U64_LIMIT);
    CopyInto(padded, padded.Length - 8, length);
    PadByBytes(padded[..], payload);
  }

  // ---------- the hash ----------

  const INITIAL: Registers := [0x0123_4567_89ab_cdef, 0xfedc_ba98_7654_3210, 0xf096_a5b4_c3b2_e187]

  function BlockWords(s: seq<byte>, offset: nat): Words
    requires offset + BLOCK_SIZE <= |s|
  {
    seq(8, i requires 0 <= i < 8 => FromLE64(s[offset + 8 * i..offset + 8 * i + 8]))
  }

  /** The registers after the first n blocks. */
  function Hashed(t: Tables, s: seq<byte>, n: nat): Registers
    requires n * BLOCK_SIZE <= |s|
  {
    if n == 0 then INITIAL
    else Compress(t, Hashed(t, s, n - 1), BlockWords(s, (n - 1) * BLOCK_SIZE))
  }

  function Digest(t: Tables, payload: seq<byte>): (d: seq<byte>)
    ensures |d| == DIGEST_SIZE
  {
    PadMinimal(payload, 0);
    var r := Hashed(t, Pad(payload), |Pad(payload)| / BLOCK_SIZE);
    LE64(r[0]) + LE64(r[1]) + LE64(r[2])
  }

  /** The loop over the words of a block. */
  method LoadBlock(padded: array<byte>, offset: nat) returns (words: array<word>)
    requires offset + BLOCK_SIZE <= padded.Length
    ensures fresh(words) && words[..] == BlockWords(padded[..], offset)
  {
    hide FromLE64;
    words := new word[8](_ => 0);
    for index := 0 to 8
      invariant forall j | 0 <= j < index :: words[j] == BlockWords(padded[..], offset)[j]
    {
      var start := offset + index * 8;
      assert padded[start..start + 8] == padded[..][start..start + 8];
      words[index] := FromLE64(padded[start..start + 8]);
    }
  }

  lemma HashedNext(t: Tables, s: seq<byte>, n: nat)
    requires (n + 1) * BLOCK_SIZE <= |s|
    ensures Hashed(t, s, 0) == INITIAL
    ensures Hashed(t, s, n + 1) == Compress(t, Hashed(t, s, n), BlockWords(s, n * BLOCK_SIZE))
  {
    hide Compress, BlockWords;
  }

  /** The digest is the registers after the last block. */
  lemma DigestIs(t: Tables, payload: seq<byte>, n: nat)
    requires |Pad(payload)| == n * BLOCK_SIZE
    ensures var r := Hashed(t, Pad(payload), n);
            Digest(t, payload) == LE64(r[0]) + LE64(r[1]) + LE64(r[2])
  {
    hide Hashed, LE64, Pad;
  }

  /** The body of the loop over the blocks. */
  method HashBlock(t: Tables, padded: array<byte>, offset: nat, r: array<word>, ghost n: nat)
    requires r.Length == 3 && offset == n * BLOCK_SIZE && offset + BLOCK_SIZE <= padded.Length
    requires r[..] == Hashed(t, padded[..], n)
    modifies r
    ensures r[..] == Hashed(t, padded[..], n + 1)
  {
    hide Compress, BlockWords, Hashed;
    HashedNext(t, padded[..], n);
    var words := LoadBlock(padded, offset);
    TigerCompress(t, r, words);
  }

  method InitialRegisters() returns (r: array<word>)
    ensures fresh(r) && r.Length == 3 && r[..] == INITIAL
  {
    r := new word[3](i requires 0 <= i < 3 => INITIAL[i]);
  }

  /** offset is where block n of a padded message of this length starts, or its end. */
  predicate AtBlock(offset: nat, n: nat, length: nat) {
    offset == n * BLOCK_SIZE <= length && length % BLOCK_SIZE == 0
  }

  lemma NextBlock(offset: nat, n: nat, length: nat)
    requires AtBlock(offset, n, length)
    ensures offset < length ==> offset + BLOCK_SIZE <= length && AtBlock(offset + BLOCK_SIZE, n + 1, length)
    ensures offset >= length ==> length == n * BLOCK_SIZE
    ensures offset == n * BLOCK_SIZE <= length
  {}

  method Tiger192(t: Tables, payload: seq<byte>) returns (digest: seq<byte>)
    ensures digest == Digest(t, payload)
  {
    hide LE64, Pad, Hashed, Digest, INITIAL, AtBlock;
    var padded := TigerPad(payload);
    var r := InitialRegisters();
    ghost var n := 0;
    var offset := 0;
    FirstBlock(t, payload);
    while offset < padded.Length
      invariant padded[..] == Pad(payload) && fresh(r) && r.Length == 3
      invariant AtBlock(offset, n, padded.Length) && n * BLOCK_SIZE <= padded.Length
      invariant r[..] == Hashed(t, padded[..], n)
    {
      NextBlock(offset, n, padded.Length);
      HashBlock(t, padded, offset, r, n);
      offset := offset + BLOCK_SIZE;
      n := n + 1;
      NextBlock(offset, n, padded.Length);
    }
    NextBlock(offset, n, padded.Length);
    DigestIs(t, payload, n);
    digest := LE64(r[0]) + LE64(r[1]) + LE64(r[2]);
  }

  lemma FirstBlock(t: Tables, payload: seq<byte>)
    ensures AtBlock(0, 0, |Pad(payload)|) && Hashed(t, Pad(payload), 0) == INITIAL
  {
    PadMinimal(payload, 0);
  }

  /** DeriveIV: the first eight bytes of the hash of a counter. */
  function DeriveIV(t: Tables, counter: u32): (iv: seq<byte>)
    ensures |iv| == 8
  {
    Digest(t, LE32(counter))[..8]
  }

  function DeriveIVWith(t: Tables): u32 -> C.Bytestring { (counter: u32) => DeriveIV(t, counter) }

  /** With the vectors that Tiger derives, any block cipher and authentication code make sound primitives. */
  lemma DerivedIVIsSound(t: Tables, p: C.Primitives)
    requires forall key, block: C.Bytestring :: C.IsKey(key) && C.IsBlock(block) ==> C.Undoes(p, key, block)
    requires forall key, payload :: |p.mac(key, payload)| == C.MAC_SIZE
    ensures C.Sound(p.(deriveIV := DeriveIVWith(t)))
  {
    hide DeriveIV;
    var q := p.(deriveIV := DeriveIVWith(t));
    forall key, block: C.Bytestring | C.IsKey(key) && C.IsBlock(block) ensures C.Undoes(q, key, block) {
      assert C.Undoes(p, key, block);
    }
    forall seed: u32 ensures C.IsBlock(q.deriveIV(seed)) {
      assert q.deriveIV(seed) == DeriveIV(t, seed);
    }
  }
}
