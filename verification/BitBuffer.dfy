/**
  Bit streams (internal/online/bitdemon/bitbuffer.go).

  A writer's bytes are the packing of the bits written so far; a reader works through the bits of its
  bytes. The items of a stream form a prefix code, at every bit alignment and with the type-check mode
  changing in mid-stream.
 */
module BitBuffer {
  import opened Bytes
  import opened Bits
  import B = ByteBuffer

  const TAG_WIDTH := 5

  datatype Error = UnexpectedEOF | UnexpectedType

  /** One step of using a stream. Mode changes take no bits; a flag is one bit and sets the mode. */
  datatype Item =
    | Flag(flag: bool)
    | Mode(mode: bool)
    | Int32(u32: u32)
    | Int64(u64: u64)
    | Raw(raw: seq<byte>)

  datatype Shape = SFlag | SMode(mode: bool) | SInt32 | SInt64 | SRaw(length: u32)

  // ---------- encodings ----------

  function TagBits(typeChecked: bool, tag: byte): bits {
    if typeChecked then BitsOf(tag, TAG_WIDTH) else []
  }

  function Encode(typeChecked: bool, item: Item): bits {
    match item
    case Flag(b) => [b]
    case Mode(_) => []
    case Int32(v) => TagBits(typeChecked, B.TYPE_UINT32) + Flat(LE32(v))
    case Int64(v) => TagBits(typeChecked, B.TYPE_UINT64) + Flat(LE64(v))
    case Raw(s) => Flat(s)
  }

  /** The mode after an item. */
  function ModeAfter(typeChecked: bool, item: Item): bool {
    match item
    case Flag(b) => b
    case Mode(b) => b
    case _ => typeChecked
  }

  function EncodeAll(typeChecked: bool, items: seq<Item>): bits
    decreases |items|
  {
    if items == [] then []
    else Encode(typeChecked, items[0]) + EncodeAll(ModeAfter(typeChecked, items[0]), items[1..])
  }

  predicate Fits(shape: Shape, item: Item) {
    match shape
    case SFlag => item.Flag?
    case SMode(b) => item == Mode(b)
    case SInt32 => item.Int32?
    case SInt64 => item.Int64?
    case SRaw(n) => item.Raw? && |item.raw| == n
  }

  predicate AllFit(shapes: seq<Shape>, items: seq<Item>) {
    |shapes| == |items| && forall i | 0 <= i < |items| :: Fits(shapes[i], items[i])
  }

  // ---------- decoding ----------

  datatype Decoded = Got(item: Item, rest: bits) | Bad(error: Error)

  function Untag(typeChecked: bool, tag: byte, s: bits): (r: Result<bits, Error>) {
    if !typeChecked then Ok(s)
    else if |s| < TAG_WIDTH then Err(UnexpectedEOF)
    else if ByteOf(s[..TAG_WIDTH]) != tag then Err(UnexpectedType)
    else Ok(s[TAG_WIDTH..])
  }

  function Decode(typeChecked: bool, shape: Shape, s: bits): (d: Decoded)
    ensures d.Got? ==> Fits(shape, d.item)
  {
    match shape
    case SFlag => if s == [] then Bad(UnexpectedEOF) else Got(Flag(s[0]), s[1..])
    case SMode(b) => Got(Mode(b), s)
    case SInt32 =>
      (match Untag(typeChecked, B.TYPE_UINT32, s)
       case Err(e) => Bad(e)
       case Ok(t) => if |t| < 32 then Bad(UnexpectedEOF) else Got(Int32(FromLE32(Pack(t[..32]))), t[32..]))
    case SInt64 =>
      (match Untag(typeChecked, B.TYPE_UINT64, s)
       case Err(e) => Bad(e)
       case Ok(t) => if |t| < 64 then Bad(UnexpectedEOF) else Got(Int64(FromLE64(Pack(t[..64]))), t[64..]))
    case SRaw(n) => if |s| < 8 * n then Bad(UnexpectedEOF) else Got(Raw(Pack(s[..8 * n])), s[8 * n..])
  }

  lemma UntagExact(typeChecked: bool, tag: byte, s: bits, rest: bits)
    requires tag < 32
    ensures Untag(typeChecked, tag, s) == Ok(rest) <==> s == TagBits(typeChecked, tag) + rest
  {
    Pow2Of8();
    hide BitsOf, ValueOf, Pow2;
    if typeChecked {
      if |s| >= TAG_WIDTH {
        BitsOfValue(s[..TAG_WIDTH]);
        assert s == s[..TAG_WIDTH] + s[TAG_WIDTH..];
      }
      ValueOfBits(tag, TAG_WIDTH);
      if s == TagBits(typeChecked, tag) + rest {
        assert s[..TAG_WIDTH] == BitsOf(tag, TAG_WIDTH) && s[TAG_WIDTH..] == rest;
      }
    } else {
      assert [] + rest == rest;
    }
  }

  lemma WholeBytes(n: nat)
    requires n % 8 == 0
    ensures Padding(n) == 0
  {}

  lemma PackedBits(s: bits)
    requires |s| % 8 == 0
    ensures Flat(Pack(s)) == s
  {
    hide *;
    FlatPack(s);
    WholeBytes(|s|);
    assert s + Zeros(0) == s;
  }

  lemma TaggedSound(typeChecked: bool, tag: byte, s: bits, n: nat)
    requires tag < 32
    requires var t := Untag(typeChecked, tag, s); t.Ok? && |t.value| >= 8 * n
    ensures var t := Untag(typeChecked, tag, s).value;
            s == (TagBits(typeChecked, tag) + Flat(Pack(t[..8 * n]))) + t[8 * n..]
  {
    hide Flat, Pack, Untag, TagBits;
    var t := Untag(typeChecked, tag, s).value;
    UntagExact(typeChecked, tag, s, t);
    PackedBits(t[..8 * n]);
    assert t == t[..8 * n] + t[8 * n..];
    var head := TagBits(typeChecked, tag);
    assert head + (t[..8 * n] + t[8 * n..]) == (head + t[..8 * n]) + t[8 * n..];
  }

  lemma DecodeSound(typeChecked: bool, shape: Shape, s: bits)
    requires Decode(typeChecked, shape, s).Got?
    ensures var d := Decode(typeChecked, shape, s);
            Fits(shape, d.item) && s == Encode(typeChecked, d.item) + d.rest
  {
    hide Flat, Pack, Untag, TagBits, LE32, LE64, FromLE32, FromLE64;
    match shape
    case SFlag => assert s == [s[0]] + s[1..];
    case SMode(b) => assert [] + s == s;
    case SInt32 =>
      TaggedSound(typeChecked, B.TYPE_UINT32, s, 4);
      Canonical32(Pack(Untag(typeChecked, B.TYPE_UINT32, s).value[..32]));
    case SInt64 =>
      TaggedSound(typeChecked, B.TYPE_UINT64, s, 8);
      Canonical64(Pack(Untag(typeChecked, B.TYPE_UINT64, s).value[..64]));
    case SRaw(n) =>
      PackedBits(s[..8 * n]);
      assert s == s[..8 * n] + s[8 * n..];
  }

  /** Reading a tagged body of that many bytes. */
  lemma TaggedBody(typeChecked: bool, tag: byte, body: seq<byte>, rest: bits)
    requires tag < 32
    ensures var t := Untag(typeChecked, tag, (TagBits(typeChecked, tag) + Flat(body)) + rest);
            && t.Ok? && |t.value| >= 8 * |body|
            && Pack(t.value[..8 * |body|]) == body && t.value[8 * |body|..] == rest
  {
    hide Flat, Pack, Untag, TagBits;
    var s := (TagBits(typeChecked, tag) + Flat(body)) + rest;
    assert s == TagBits(typeChecked, tag) + (Flat(body) + rest);
    UntagExact(typeChecked, tag, s, Flat(body) + rest);
    assert (Flat(body) + rest)[..8 * |body|] == Flat(body) && (Flat(body) + rest)[8 * |body|..] == rest;
    PackFlat(body);
  }

  lemma DecodeComplete(typeChecked: bool, shape: Shape, item: Item, rest: bits)
    requires Fits(shape, item)
    ensures Decode(typeChecked, shape, Encode(typeChecked, item) + rest) == Got(item, rest)
  {
    hide Flat, Pack, Untag, TagBits, LE32, LE64, FromLE32, FromLE64;
    var s := Encode(typeChecked, item) + rest;
    match item
    case Flag(b) => assert s[1..] == rest;
    case Mode(b) => assert s == rest;
    case Int32(v) =>
      TaggedBody(typeChecked, B.TYPE_UINT32, LE32(v), rest);
      RoundTrip32(v);
    case Int64(v) =>
      TaggedBody(typeChecked, B.TYPE_UINT64, LE64(v), rest);
      RoundTrip64(v);
    case Raw(raw) =>
      assert s[..8 * |raw|] == Flat(raw) && s[8 * |raw|..] == rest;
      PackFlat(raw);
  }

  datatype Split = Split(items: seq<Item>, rest: bits)

  function DecodeAll(typeChecked: bool, shapes: seq<Shape>, s: bits): Option<Split>
    decreases |shapes|
  {
    if shapes == [] then Some(Split([], s))
    else
      match Decode(typeChecked, shapes[0], s)
      case Bad(_) => None
      case Got(item, rest) =>
        match DecodeAll(ModeAfter(typeChecked, item), shapes[1..], rest)
        case None => None
        case Some(r) => Some(Split([item] + r.items, r.rest))
  }

  lemma {:induction false} DecodeAllSound(typeChecked: bool, shapes: seq<Shape>, s: bits)
    requires DecodeAll(typeChecked, shapes, s).Some?
    ensures var r := DecodeAll(typeChecked, shapes, s).value;
            AllFit(shapes, r.items) && s == EncodeAll(typeChecked, r.items) + r.rest
    decreases |shapes|
  {
    hide Decode, Encode, Fits;
    if shapes != [] {
      var d := Decode(typeChecked, shapes[0], s);
      DecodeSound(typeChecked, shapes[0], s);
      var mode := ModeAfter(typeChecked, d.item);
      DecodeAllSound(mode, shapes[1..], d.rest);
      var r := DecodeAll(mode, shapes[1..], d.rest).value;
      var items := [d.item] + r.items;
      assert items[1..] == r.items;
      forall i | 0 <= i < |items| ensures Fits(shapes[i], items[i]) {
        if i > 0 { assert Fits(shapes[1..][i - 1], r.items[i - 1]); }
      }
      var head, mid := Encode(typeChecked, d.item), EncodeAll(mode, r.items);
      assert head + (mid + r.rest) == (head + mid) + r.rest;
    }
  }

  lemma {:induction false} DecodeAllComplete(typeChecked: bool, shapes: seq<Shape>, items: seq<Item>, rest: bits)
    requires AllFit(shapes, items)
    ensures DecodeAll(typeChecked, shapes, EncodeAll(typeChecked, items) + rest) == Some(Split(items, rest))
    decreases |items|
  {
    hide Decode, Encode;
    var s := EncodeAll(typeChecked, items) + rest;
    if shapes == [] {
      assert s == rest;
    } else {
      var mode := ModeAfter(typeChecked, items[0]);
      var head, tail := Encode(typeChecked, items[0]), EncodeAll(mode, items[1..]) + rest;
      assert s == head + tail;
      DecodeComplete(typeChecked, shapes[0], items[0], tail);
      assert AllFit(shapes[1..], items[1..]);
      DecodeAllComplete(mode, shapes[1..], items[1..], rest);
      assert items == [items[0]] + items[1..];
    }
  }

  /**
    At every alignment and through every change of mode, bits read back as these items and a rest
    exactly when they are the encoding of the items followed by the rest.
   */
  lemma DecodeAllExact(typeChecked: bool, shapes: seq<Shape>, s: bits, items: seq<Item>, rest: bits)
    ensures DecodeAll(typeChecked, shapes, s) == Some(Split(items, rest))
            <==> AllFit(shapes, items) && s == EncodeAll(typeChecked, items) + rest
  {
    if DecodeAll(typeChecked, shapes, s) == Some(Split(items, rest)) {
      DecodeAllSound(typeChecked, shapes, s);
    }
    if AllFit(shapes, items) && s == EncodeAll(typeChecked, items) + rest {
      DecodeAllComplete(typeChecked, shapes, items, rest);
    }
  }

  /** Reading the bytes a writer produced gives back what was written; only zero padding is left. */
  lemma WriterReaderRoundTrip(typeChecked: bool, shapes: seq<Shape>, items: seq<Item>)
    requires AllFit(shapes, items)
    ensures var written := EncodeAll(typeChecked, items);
            DecodeAll(typeChecked, shapes, Flat(Pack(written)))
            == Some(Split(items, Zeros(Padding(|written|))))
  {
    FlatPack(EncodeAll(typeChecked, items));
    DecodeAllComplete(typeChecked, shapes, items, Zeros(Padding(|EncodeAll(typeChecked, items)|)));
  }

  // ---------- reading item by item ----------

  lemma Uncons(typeChecked: bool, shape: Shape, shapes: seq<Shape>, s: bits, item: Item, items: seq<Item>, rest: bits)
    ensures DecodeAll(typeChecked, [shape] + shapes, s) == Some(Split([item] + items, rest))
            <==> var d := Decode(typeChecked, shape, s);
                 d.Got? && d.item == item
                 && DecodeAll(ModeAfter(typeChecked, item), shapes, d.rest) == Some(Split(items, rest))
  {
    hide Decode;
    assert ([shape] + shapes)[1..] == shapes;
    var all := DecodeAll(typeChecked, [shape] + shapes, s);
    assert ([item] + items)[0] == item && ([item] + items)[1..] == items;
    if all.Some? {
      var d := Decode(typeChecked, shape, s);
      var r := DecodeAll(ModeAfter(typeChecked, d.item), shapes, d.rest).value;
      assert all.value.items[0] == d.item && all.value.items[1..] == r.items;
    }
  }

  /** Reading one item and nothing else. */
  lemma LastItem(typeChecked: bool, shape: Shape, s: bits, item: Item, rest: bits)
    ensures DecodeAll(typeChecked, [shape], s) == Some(Split([item], rest))
            <==> Decode(typeChecked, shape, s) == Got(item, rest)
  {
    hide Decode;
    Uncons(typeChecked, shape, [], s, item, [], rest);
    assert [shape] + [] == [shape] && [item] + [] == [item];
  }

  /** Reading an integer and a run of bytes, neither tagged, and nothing else. */
  lemma IntegerAndRun(s: bits, v: u64, raw: seq<byte>, n: u32, rest: bits)
    ensures DecodeAll(false, [SInt64, SRaw(n)], s) == Some(Split([Int64(v), Raw(raw)], rest))
            <==> var d := Decode(false, SInt64, s);
                 d.Got? && d.item == Int64(v) && Decode(false, SRaw(n), d.rest) == Got(Raw(raw), rest)
  {
    hide Decode, DecodeAll;
    Uncons(false, SInt64, [SRaw(n)], s, Int64(v), [Raw(raw)], rest);
    assert [SInt64] + [SRaw(n)] == [SInt64, SRaw(n)] && [Int64(v)] + [Raw(raw)] == [Int64(v), Raw(raw)];
    if Decode(false, SInt64, s).Got? { LastItem(false, SRaw(n), Decode(false, SInt64, s).rest, Raw(raw), rest); }
  }

  /** A type-checked flag and two tagged integers, after which type checking ends. */
  function Titled(a: u32, b: u32, tail: seq<Item>): seq<Item> {
    [Flag(true)] + ([Int32(a)] + ([Int32(b)] + ([Mode(false)] + tail)))
  }

  function TitledShapes(tail: seq<Shape>): seq<Shape> {
    [SFlag] + ([SInt32] + ([SInt32] + ([SMode(false)] + tail)))
  }

  /** Reading the start of such a message leaves rest. */
  predicate ReadsTitled(w: bits, a: u32, b: u32, rest: bits) {
    var flag := Decode(false, SFlag, w);
    && flag.Got? && flag.item == Flag(true)
    && var first := Decode(true, SInt32, flag.rest);
    && first.Got? && first.item == Int32(a)
    && Decode(true, SInt32, first.rest) == Got(Int32(b), rest)
  }

  lemma TitledFit(a: u32, b: u32, shapes: seq<Shape>, tail: seq<Item>)
    requires AllFit(shapes, tail)
    ensures AllFit(TitledShapes(shapes), Titled(a, b, tail))
  {}

  lemma TitledUnfold(w: bits, a: u32, b: u32, shapes: seq<Shape>, tail: seq<Item>, rest: bits) returns (mid: bits)
    requires DecodeAll(false, TitledShapes(shapes), w) == Some(Split(Titled(a, b, tail), rest))
    ensures ReadsTitled(w, a, b, mid) && DecodeAll(false, shapes, mid) == Some(Split(tail, rest))
  {
    hide DecodeAll;
    var s1, s2, s3 := [SMode(false)] + shapes, [SInt32] + ([SMode(false)] + shapes), [SInt32] + ([SInt32] + ([SMode(false)] + shapes));
    var i1, i2, i3 := [Mode(false)] + tail, [Int32(b)] + ([Mode(false)] + tail), [Int32(a)] + ([Int32(b)] + ([Mode(false)] + tail));
    Uncons(false, SFlag, s3, w, Flag(true), i3, rest);
    hide Decode;
    var w1 := Decode(false, SFlag, w).rest;
    Uncons(true, SInt32, s2, w1, Int32(a), i2, rest);
    var w2 := Decode(true, SInt32, w1).rest;
    Uncons(true, SInt32, s1, w2, Int32(b), i1, rest);
    mid := Decode(true, SInt32, w2).rest;
    ModeItem(true, false, shapes, mid, tail, rest);
  }

  lemma TitledFold(w: bits, a: u32, b: u32, mid: bits, shapes: seq<Shape>, tail: seq<Item>, rest: bits)
    requires ReadsTitled(w, a, b, mid) && DecodeAll(false, shapes, mid) == Some(Split(tail, rest))
    ensures DecodeAll(false, TitledShapes(shapes), w) == Some(Split(Titled(a, b, tail), rest))
  {
    hide DecodeAll, Decode;
    var s1, s2, s3 := [SMode(false)] + shapes, [SInt32] + ([SMode(false)] + shapes), [SInt32] + ([SInt32] + ([SMode(false)] + shapes));
    var i1, i2, i3 := [Mode(false)] + tail, [Int32(b)] + ([Mode(false)] + tail), [Int32(a)] + ([Int32(b)] + ([Mode(false)] + tail));
    var w1 := Decode(false, SFlag, w).rest;
    var w2 := Decode(true, SInt32, w1).rest;
    ModeItem(true, false, shapes, mid, tail, rest);
    Uncons(true, SInt32, s1, w2, Int32(b), i1, rest);
    Uncons(true, SInt32, s2, w1, Int32(a), i2, rest);
    Uncons(false, SFlag, s3, w, Flag(true), i3, rest);
  }

  lemma ModeItem(typeChecked: bool, mode: bool, shapes: seq<Shape>, s: bits, tail: seq<Item>, rest: bits)
    ensures DecodeAll(typeChecked, [SMode(mode)] + shapes, s) == Some(Split([Mode(mode)] + tail, rest))
            <==> DecodeAll(mode, shapes, s) == Some(Split(tail, rest))
  {
    hide DecodeAll;
    Uncons(typeChecked, SMode(mode), shapes, s, Mode(mode), tail, rest);
  }

  // ---------- messages whose last byte holds five padding bits ----------

  const SLACK := 5

  lemma BitAtHalf(v: nat, k: nat)
    ensures BitAt(v, k + 1) == BitAt(v / 2, k)
    ensures BitAt(v, 0) == (v % 2 == 1)
  {}

  lemma {:induction false} LowBitsOnly(v: nat, low: nat, k: nat)
    requires v < Pow2(low) && low <= k
    ensures !BitAt(v, k)
  {
    BitAtHalf(v, if k > 0 then k - 1 else 0);
    if k > 0 { LowBitsOnly(v / 2, if low > 0 then low - 1 else 0, k - 1); }
  }

  lemma {:induction false} SomeHighBit(v: nat, low: nat, high: nat) returns (k: nat)
    requires Pow2(low) <= v < Pow2(high)
    ensures low <= k < high && BitAt(v, k)
  {
    if low == 0 && v == 1 {
      k := 0;
    } else {
      k := SomeHighBit(v / 2, if low > 0 then low - 1 else 0, high - 1);
      BitAtHalf(v, k);
      k := k + 1;
    }
  }

  lemma TopFive(b: byte)
    ensures b < 8 ==> forall k | 3 <= k < 8 :: !BitAt(b, k)
    ensures b >= 8 ==> exists k | 3 <= k < 8 :: BitAt(b, k)
  {
    Pow2Of8();
    assert Pow2(1) == 2 && Pow2(2) == 4 && Pow2(3) == 8;
    hide BitAt;
    if b < 8 {
      forall k | 3 <= k < 8 ensures !BitAt(b, k) { LowBitsOnly(b, 3, k); }
    } else {
      var k := SomeHighBit(b, 3, 8);
      assert 3 <= k < 8 && BitAt(b, k);
    }
  }

  lemma LastByte(data: seq<byte>, s: bits, rest: bits)
    requires data != [] && |rest| == SLACK && Flat(data) == s + rest
    ensures data[|data| - 1] < 8 <==> rest == Zeros(SLACK)
  {
    hide Flat, BitAt;
    var last := |data| - 1;
    TopFive(data[last]);
    forall k | 3 <= k < 8 ensures rest[k - 3] == BitAt(data[last], k) {
      FlatAt(data, 8 * last + k);
    }
    forall k | 0 <= k < SLACK && data[last] < 8 ensures !rest[k] {
      assert !BitAt(data[last], k + 3);
    }
    forall k | 3 <= k < 8 && rest == Zeros(SLACK) ensures !BitAt(data[last], k) {
      assert !rest[k - 3];
    }
  }

  /** The body with this two-byte header and these bits behind it, padded to a byte. */
  function FixedBody(header: seq<byte>, items: seq<Item>): seq<byte> {
    header + Pack(EncodeAll(false, items))
  }

  lemma FixedBodyExact(header: seq<byte>, body: seq<byte>, shapes: seq<Shape>, items: seq<Item>)
    requires |header| == 2 <= |body| && AllFit(shapes, items)
    ensures var slack := Zeros(Padding(|EncodeAll(false, items)|));
            body == FixedBody(header, items)
            <==> body[..2] == header && DecodeAll(false, shapes, Flat(body[2..])) == Some(Split(items, slack))
  {
    hide DecodeAll, EncodeAll, Flat, Pack, Padding;
    var slack := Zeros(Padding(|EncodeAll(false, items)|));
    DecodeAllExact(false, shapes, Flat(body[2..]), items, slack);
    PackExact(body[2..], EncodeAll(false, items));
    assert body == body[..2] + body[2..];
    var fixed := FixedBody(header, items);
    assert fixed[..2] == header && fixed[2..] == Pack(EncodeAll(false, items));
  }

  lemma EncodeCons(typeChecked: bool, item: Item, items: seq<Item>)
    ensures EncodeAll(typeChecked, [item] + items)
            == Encode(typeChecked, item) + EncodeAll(ModeAfter(typeChecked, item), items)
  {
    assert ([item] + items)[1..] == items;
  }

  lemma EncodeOne(typeChecked: bool, item: Item)
    ensures EncodeAll(typeChecked, [item]) == Encode(typeChecked, item)
  {
    EncodeCons(typeChecked, item, []);
    assert [item] + [] == [item];
    assert Encode(typeChecked, item) + [] == Encode(typeChecked, item);
  }

  const TITLED_WIDTH := 1 + 2 * (TAG_WIDTH + 32)

  lemma TitledWidth(a: u32, b: u32, tail: seq<Item>)
    ensures |EncodeAll(false, Titled(a, b, tail))| == TITLED_WIDTH + |EncodeAll(false, tail)|
  {
    hide EncodeAll, BitsOf, Flat, LE32;
    EncodeCons(true, Mode(false), tail);
    EncodeCons(true, Int32(b), [Mode(false)] + tail);
    EncodeCons(true, Int32(a), [Int32(b)] + ([Mode(false)] + tail));
    EncodeCons(false, Flag(true), [Int32(a)] + ([Int32(b)] + ([Mode(false)] + tail)));
  }

  lemma TitledBits(a: u32, b: u32, tail: seq<Item>)
    ensures EncodeAll(false, Titled(a, b, tail))
            == (([true] + Encode(true, Int32(a))) + Encode(true, Int32(b))) + EncodeAll(false, tail)
  {
    hide EncodeAll, BitsOf, Flat, LE32;
    EncodeCons(true, Mode(false), tail);
    EncodeCons(true, Int32(b), [Mode(false)] + tail);
    EncodeCons(true, Int32(a), [Int32(b)] + ([Mode(false)] + tail));
    EncodeCons(false, Flag(true), [Int32(a)] + ([Int32(b)] + ([Mode(false)] + tail)));
    var first, second, last := Encode(true, Int32(a)), Encode(true, Int32(b)), EncodeAll(false, tail);
    assert [] + last == last;
    assert [true] + (first + (second + last)) == (([true] + first) + second) + last;
  }

  /** The encodings of these messages end with five zero bits. */
  ghost predicate TailFits(shapes: seq<Shape>, tail: seq<Item>) {
    AllFit(shapes, tail) && (TITLED_WIDTH + |EncodeAll(false, tail)|) % 8 == 3
  }

  /** What a reader of the body of a titled message finds. */
  lemma TitledBodyReads(header: seq<byte>, a: u32, b: u32, shapes: seq<Shape>, tail: seq<Item>) returns (mid: bits)
    requires |header| == 2 && TailFits(shapes, tail)
    ensures var body := FixedBody(header, Titled(a, b, tail));
            && 8 * (|body| - 2) == TITLED_WIDTH + |EncodeAll(false, tail)| + SLACK && body[..2] == header
            && ReadsTitled(Flat(body[2..]), a, b, mid)
            && DecodeAll(false, shapes, mid) == Some(Split(tail, Zeros(SLACK)))
  {
    hide EncodeAll, DecodeAll, Flat, Pack, Titled, TitledShapes, ReadsTitled;
    var items := Titled(a, b, tail);
    var body := FixedBody(header, items);
    assert body[..2] == header;
    TitledWidth(a, b, tail);
    TitledFit(a, b, shapes, tail);
    FixedBodyExact(header, body, TitledShapes(shapes), items);
    mid := TitledUnfold(Flat(body[2..]), a, b, shapes, tail, Zeros(SLACK));
  }

  /**
    A body that reads as such a message and leaves five bits is its encoding exactly when the last
    byte is below eight.
   */
  lemma TitledBodyExact(header: seq<byte>, body: seq<byte>, a: u32, b: u32, mid: bits,
                        shapes: seq<Shape>, tail: seq<Item>, rest: bits)
    requires |header| == 2 < |body| && body[..2] == header && TailFits(shapes, tail)
    requires ReadsTitled(Flat(body[2..]), a, b, mid) && DecodeAll(false, shapes, mid) == Some(Split(tail, rest))
    ensures |rest| == 8 * (|body| - 2) - (TITLED_WIDTH + |EncodeAll(false, tail)|)
    ensures |rest| == SLACK ==> (body == FixedBody(header, Titled(a, b, tail)) <==> body[|body| - 1] < 8)
  {
    hide EncodeAll, DecodeAll, Flat, Pack, Titled, TitledShapes, ReadsTitled, FixedBody;
    var items := Titled(a, b, tail);
    var w := Flat(body[2..]);
    TitledWidth(a, b, tail);
    TitledFit(a, b, shapes, tail);
    TitledFold(w, a, b, mid, shapes, tail, rest);
    DecodeAllExact(false, TitledShapes(shapes), w, items, rest);
    FixedBodyExact(header, body, TitledShapes(shapes), items);
    if |rest| == SLACK { LastByte(body[2..], EncodeAll(false, items), rest); }
  }

  // ---------- the writer ----------

  class BitWriter {
    var typeChecked: bool
    var data: seq<byte>
    var bitOffset: nat
    ghost var written: bits

    ghost predicate Valid()
      reads this
    {
      bitOffset == |written| && data == Pack(written)
    }

    constructor (typeChecked: bool)
      ensures Valid() && this.typeChecked == typeChecked && written == []
    {
      this.typeChecked := typeChecked;
      data, bitOffset, written := [], 0, [];
    }

    /** The data holds every written bit, then zeros up to the end of the last byte. */
    lemma DataShape()
      requires Valid()
      ensures |data| == (bitOffset + 7) / 8
      ensures Flat(data) == written + Zeros(8 * |data| - bitOffset)
    {
      FlatPack(written);
    }

    method SetTypeChecked(typeChecked: bool)
      requires Valid()
      modifies this
      ensures Valid() && written == old(written) && this.typeChecked == typeChecked
    {
      this.typeChecked := typeChecked;
    }

    method WriteBits(value: seq<byte>, count: nat)
      requires Valid() && count <= 8 * |value|
      modifies this
      ensures Valid() && typeChecked == old(typeChecked)
      ensures written == old(written) + Flat(value)[..count]
    {
      hide Pack, Flat;
      for bit := 0 to count
        invariant bitOffset == old(bitOffset) && typeChecked == old(typeChecked)
        invariant written == old(written) + Flat(value)[..bit]
        invariant data == Pack(written)
      {
        var outputBit := bitOffset + bit;
        var outputByte := outputBit / 8;
        FlatAt(value, bit);
        PackSnoc(written, Flat(value)[bit]);
        assert Flat(value)[..bit + 1] == Flat(value)[..bit] + [Flat(value)[bit]];
        if outputByte == |data| {
          data := data + [0];
        }
        if BitAt(value[bit / 8], bit % 8) {
          data := data[outputByte := SetBit(data[outputByte], outputBit % 8)];
        }
        written := written + [Flat(value)[bit]];
      }
      bitOffset := bitOffset + count;
    }

    method WriteTypeCheckedFlag()
      requires Valid()
      modifies this
      ensures Valid() && typeChecked == old(typeChecked)
      ensures written == old(written) + Encode(typeChecked, Flag(typeChecked))
    {
      FlagBit(typeChecked);
      if typeChecked {
        WriteBits([1], 1);
        return;
      }
      WriteBits([0], 1);
    }

    method WriteRaw(value: seq<byte>)
      requires Valid()
      modifies this
      ensures Valid() && typeChecked == old(typeChecked)
      ensures written == old(written) + Encode(typeChecked, Raw(value))
    {
      WriteBits(value, |value| * 8);
      assert Flat(value)[..8 * |value|] == Flat(value);
    }

    method WriteUint8(value: byte)
      requires Valid()
      modifies this
      ensures Valid() && typeChecked == old(typeChecked)
      ensures written == old(written) + (TagBits(typeChecked, B.TYPE_UINT8) + BitsOf(value, 8))
    {
      hide Flat, BitsOf, TagBits;
      WriteType(B.TYPE_UINT8);
      FlatOne(value);
      WriteBits([value], 8);
      assert Flat([value])[..8] == Flat([value]);
      assert written == (old(written) + TagBits(typeChecked, B.TYPE_UINT8)) + BitsOf(value, 8);
    }

    method WriteUint32(value: u32)
      requires Valid()
      modifies this
      ensures Valid() && typeChecked == old(typeChecked)
      ensures written == old(written) + Encode(typeChecked, Int32(value))
    {
      hide Flat, BitsOf, TagBits, LE32, LE;
      WriteType(B.TYPE_UINT32);
      var encoded := LE32(value);
      WriteBits(encoded, 32);
      assert Flat(encoded)[..32] == Flat(encoded);
      assert written == (old(written) + TagBits(typeChecked, B.TYPE_UINT32)) + Flat(encoded);
    }

    method WriteType(tag: byte)
      requires Valid()
      modifies this
      ensures Valid() && typeChecked == old(typeChecked)
      ensures written == old(written) + TagBits(typeChecked, tag)
    {
      if typeChecked {
        WriteBits([tag], TAG_WIDTH);
        TagIsPrefix(tag);
      }
    }
  }

  lemma FlagBit(b: bool)
    ensures Flat([if b then 1 else 0])[..1] == [b]
  {
    FlatOne(if b then 1 else 0);
    assert BitsOf(if b then 1 else 0, 8)[0] == b;
  }

  lemma {:induction false} BitsPrefix(v: nat, m: nat, n: nat)
    requires m <= n
    ensures BitsOf(v, n)[..m] == BitsOf(v, m)
  {
    if m > 0 {
      BitsPrefix(v / 2, m - 1, n - 1);
      var rest := BitsOf(v / 2, n - 1);
      assert ([v % 2 == 1] + rest)[..m] == [v % 2 == 1] + rest[..m - 1];
    }
  }

  lemma TagIsPrefix(tag: byte)
    ensures Flat([tag])[..TAG_WIDTH] == BitsOf(tag, TAG_WIDTH)
  {
    hide BitsOf;
    FlatOne(tag);
    BitsPrefix(tag, TAG_WIDTH, 8);
  }

  // ---------- the reader ----------

  /** The next item was read, or the read failed with that error and consumed nothing. */
  predicate Did(typeChecked: bool, shape: Shape, before: bits, r: Result<Item, Error>, after: bits) {
    && (r.Ok? ==> Decode(typeChecked, shape, before) == Got(r.value, after) && Fits(shape, r.value))
    && (r.Err? ==> Decode(typeChecked, shape, before) == Bad(r.error) && after == before)
  }

  /** The first n bits of s are in place and the bytes behind them are still zero. */
  ghost predicate Built(result: seq<byte>, s: bits, n: nat)
    requires n <= |s|
  {
    && |Pack(s[..n])| <= |result|
    && result == Pack(s[..n]) + Repeat(0, |result| - |Pack(s[..n])|)
  }

  lemma BuiltStart(s: bits, length: nat)
    ensures Built(Repeat(0, length), s, 0)
  {
    assert s[..0] == [];
    assert [] + Repeat(0, length) == Repeat(0, length);
  }

  lemma BuiltStep(result: seq<byte>, s: bits, n: nat)
    requires n < |s| <= 8 * |result| && Built(result, s, n)
    ensures n / 8 < |result|
    ensures Built(if s[n] then result[n / 8 := SetBit(result[n / 8], n % 8)] else result, s, n + 1)
  {
    hide Pack, SetBit, AppendBit;
    var packed := Pack(s[..n]);
    assert s[..n + 1] == s[..n] + [s[n]];
    PackSnoc(s[..n], s[n]);
    SetInPlace(packed, n, s[n], |result| - |packed|);
  }

  lemma CopyBit(data: seq<byte>, i: nat, result: seq<byte>, s: bits, n: nat)
    requires i < 8 * |data| && n < |s| <= 8 * |result|
    requires s[n] == Flat(data)[i] && Built(result, s, n)
    ensures i / 8 < |data| && n / 8 < |result|
    ensures Built(if BitAt(data[i / 8], i % 8) then result[n / 8 := SetBit(result[n / 8], n % 8)] else result, s, n + 1)
  {
    hide Flat, Built, BitAt, SetBit;
    FlatAt(data, i);
    BuiltStep(result, s, n);
  }

  lemma BuiltEnd(result: seq<byte>, s: bits)
    requires |result| == (|s| + 7) / 8 && Built(result, s, |s|)
    ensures result == Pack(s)
  {
    assert s[..|s|] == s;
    assert Pack(s) + Repeat(0, 0) == Pack(s);
  }

  method CopyBits(data: seq<byte>, start: nat, count: nat) returns (result: seq<byte>)
    requires start + count <= 8 * |data|
    ensures result == Pack(Flat(data)[start..start + count])
  {
    hide Flat, Pack, BitAt, SetBit, Built, Repeat;
    ghost var taken := Flat(data)[start..start + count];
    var resultBytes := count / 8;
    if count % 8 != 0 {
      resultBytes := resultBytes + 1;
    }
    result := Repeat(0, resultBytes);
    BuiltStart(taken, resultBytes);
    for bit := 0 to count
      invariant |result| == resultBytes && Built(result, taken, bit)
    {
      var inputBit := start + bit;
      CopyBit(data, inputBit, result, taken, bit);
      if BitAt(data[inputBit / 8], inputBit % 8) {
        result := result[bit / 8 := SetBit(result[bit / 8], bit % 8)];
      }
    }
    BuiltEnd(result, taken);
  }

  class BitReader {
    var typeChecked: bool
    const data: seq<byte>
    var bitOffset: nat

    constructor (data: seq<byte>)
      ensures Valid() && this.data == data && !typeChecked && Rest() == Flat(data)
    {
      this.data := data;
      typeChecked, bitOffset := false, 0;
    }

    ghost predicate Valid()
      reads this
    {
      bitOffset <= 8 * |data|
    }

    /** The bits that have not been read yet. */
    ghost function Rest(): (rest: bits)
      requires Valid()
      reads this
      ensures |rest| == 8 * |data| - bitOffset
    {
      Flat(data)[bitOffset..]
    }

    function RemainingBits(): int
      reads this
    {
      |data| * 8 - bitOffset
    }

    method SetTypeChecked(typeChecked: bool)
      requires Valid()
      modifies this
      ensures Valid() && Rest() == old(Rest()) && this.typeChecked == typeChecked
    {
      this.typeChecked := typeChecked;
    }

    method ReadBits(count: nat) returns (r: Result<seq<byte>, Error>)
      requires Valid()
      modifies this
      ensures Valid() && typeChecked == old(typeChecked)
      ensures r.Ok? <==> count <= |old(Rest())|
      ensures r.Ok? ==> r.value == Pack(old(Rest())[..count]) && Rest() == old(Rest())[count..]
      ensures r.Err? ==> Rest() == old(Rest()) && r.error == UnexpectedEOF
    {
      if count > RemainingBits() {
        return Err(UnexpectedEOF);
      }
      hide Flat, Pack;
      var result := CopyBits(data, bitOffset, count);
      assert Rest()[..count] == Flat(data)[bitOffset..bitOffset + count];
      bitOffset := bitOffset + count;
      r := Ok(result);
    }

    method ReadTypeCheckedFlag() returns (r: Result<Item, Error>)
      requires Valid()
      modifies this
      ensures Valid() && Did(old(typeChecked), SFlag, old(Rest()), r, Rest())
      ensures typeChecked == if r.Ok? then r.value.flag else old(typeChecked)
    {
      var value := ReadBits(1);
      if value.Err? {
        return Err(value.error);
      }
      OneBit(old(Rest())[0]);
      assert old(Rest())[..1] == [old(Rest())[0]];
      typeChecked := value.value[0] % 2 != 0;
      r := Ok(Flag(typeChecked));
    }

    method ReadRaw(length: u32) returns (r: Result<Item, Error>)
      requires Valid()
      modifies this
      ensures Valid() && typeChecked == old(typeChecked) && Did(typeChecked, SRaw(length), old(Rest()), r, Rest())
    {
      var requiredBits := length * 8;
      if requiredBits > RemainingBits() {
        return Err(UnexpectedEOF);
      }
      var value := ReadBits(requiredBits);
      r := Ok(Raw(value.value));
    }

    method Expect(tag: byte) returns (r: Result<(), Error>)
      requires Valid()
      modifies this
      ensures Valid() && typeChecked == old(typeChecked)
      ensures match Untag(typeChecked, tag, old(Rest()))
              case Ok(rest) => r.Ok? && Rest() == rest
              case Err(e) => r == Err(e)
    {
      if !typeChecked {
        return Ok(());
      }
      var encoded := ReadBits(TAG_WIDTH);
      if encoded.Err? {
        return Err(encoded.error);
      }
      PackOne(old(Rest())[..TAG_WIDTH]);
      if encoded.value[0] != tag {
        return Err(UnexpectedType);
      }
      r := Ok(());
    }

    method ReadUint32() returns (r: Result<Item, Error>)
      requires Valid()
      modifies this
      ensures Valid() && typeChecked == old(typeChecked) && Did(typeChecked, SInt32, old(Rest()), r, Rest())
    {
      hide Flat, Pack;
      var start := bitOffset;
      var tagged := Expect(B.TYPE_UINT32);
      if tagged.Err? {
        bitOffset := start;
        return Err(tagged.error);
      }
      var value := ReadBits(32);
      if value.Err? {
        bitOffset := start;
        return Err(value.error);
      }
      r := Ok(Int32(FromLE32(value.value)));
    }

    method ReadUint64() returns (r: Result<Item, Error>)
      requires Valid()
      modifies this
      ensures Valid() && typeChecked == old(typeChecked) && Did(typeChecked, SInt64, old(Rest()), r, Rest())
    {
      hide Flat, Pack;
      var start := bitOffset;
      var tagged := Expect(B.TYPE_UINT64);
      if tagged.Err? {
        bitOffset := start;
        return Err(tagged.error);
      }
      var value := ReadBits(64);
      if value.Err? {
        bitOffset := start;
        return Err(value.error);
      }
      r := Ok(Int64(FromLE64(value.value)));
    }
  }

  lemma OneBit(b: bool)
    ensures Pack([b]) == [if b then 1 else 0]
  {
    PackOne([b]);
    assert [b][1..] == [];
  }

  /** Setting a bit in the zero bytes reserved behind a packed string is appending it. */
  lemma SetInPlace(packed: seq<byte>, n: nat, b: bool, spare: nat)
    requires |packed| == (n + 7) / 8 && (n + 8) / 8 <= |packed| + spare
    ensures var reserved := packed + Repeat(0, spare);
            var next := AppendBit(packed, n, b);
            && |next| == (n + 8) / 8
            && next + Repeat(0, |packed| + spare - |next|)
               == if b then reserved[n / 8 := SetBit(reserved[n / 8], n % 8)] else reserved
  {
    hide SetBit;
    if n / 8 == |packed| {
      assert Repeat(0, spare) == [0] + Repeat(0, spare - 1);
      assert packed + ([0] + Repeat(0, spare - 1)) == (packed + [0]) + Repeat(0, spare - 1);
    }
  }
}
