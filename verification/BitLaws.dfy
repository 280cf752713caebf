/**
  Bit streams as numbers: a packed stream, read as one number with its least significant byte first, has
  its items as digits, the first item lowest. This says where every bit of a message is.
 */
module BitLaws {
  import opened Bytes
  import opened Bits
  import opened BitBuffer

  // ---------- bits, bytes and numbers ----------

  lemma {:induction false} ValueOfAppend(a: bits, b: bits)
    ensures ValueOf(a + b) == ValueOf(a) + Pow2(|a|) * ValueOf(b)
  {
    if a == [] {
      assert a + b == b;
    } else {
      ValueOfAppend(a[1..], b);
      assert (a + b)[0] == a[0] && (a + b)[1..] == a[1..] + b;
      Doubled(Pow2(|a| - 1), ValueOf(b));
    }
  }

  lemma Doubled(p: nat, v: nat)
    ensures 2 * (p * v) == (2 * p) * v
  {}

  lemma {:induction false} FlatValue(data: seq<byte>)
    ensures ValueOf(Flat(data)) == FromLE(data)
  {
    if data != [] {
      FlatValue(data[1..]);
      ValueOfAppend(BitsOf(data[0], 8), Flat(data[1..]));
      Pow2Of8();
      ValueOfBits(data[0], 8);
      hide BitsOf, ValueOf, Pow2;
    }
  }

  /** The bytes of a packed stream are the digits of its number to base 256. */
  lemma PackValue(s: bits)
    ensures FromLE(Pack(s)) == ValueOf(s) && Pack(s) == LE(ValueOf(s), (|s| + 7) / 8)
  {
    FlatPack(s);
    FlatValue(Pack(s));
    ValueOfZeros(s, Padding(|s|));
    EncodeDecodeLE(Pack(s));
  }

  // ---------- items ----------

  /** The number of a list of items. */
  function Number(typeChecked: bool, items: seq<Item>): nat { ValueOf(EncodeAll(typeChecked, items)) }

  /** low, and above it high, where low takes the digits below p. */
  function Above(low: nat, p: nat, high: nat): nat { low + p * high }

  lemma Ahead(typeChecked: bool, item: Item, rest: seq<Item>)
    ensures Number(typeChecked, [item] + rest)
            == Above(ValueOf(Encode(typeChecked, item)), Pow2(|Encode(typeChecked, item)|), Number(ModeAfter(typeChecked, item), rest))
  {
    EncodeCons(typeChecked, item, rest);
    ValueOfAppend(Encode(typeChecked, item), EncodeAll(ModeAfter(typeChecked, item), rest));
    hide Encode, EncodeAll, ValueOf, Pow2;
  }

  lemma FlatNumber(tag: byte, v: nat, data: seq<byte>)
    requires tag < 32
    ensures ValueOf(Flat(data)) == FromLE(data) && Pow2(|Flat(data)|) == Pow256(|data|)
    ensures ValueOf(BitsOf(tag, TAG_WIDTH) + Flat(data)) == tag + 32 * FromLE(data)
    ensures Pow2(|BitsOf(tag, TAG_WIDTH) + Flat(data)|) == 32 * Pow256(|data|)
  {
    FlatValue(data);
    Powers(|data|);
    Pow2Of8();
    Pow2Sum(TAG_WIDTH, 8 * |data|);
    ValueOfAppend(BitsOf(tag, TAG_WIDTH), Flat(data));
    ValueOfBits(tag, TAG_WIDTH);
  }

  lemma {:induction false} Powers(n: nat)
    ensures Pow2(8 * n) == Pow256(n)
  {
    if n > 0 {
      Powers(n - 1);
      Pow2Of8();
      Pow2Sum(8 * (n - 1), 8);
    }
  }

  /** A flag is the lowest bit of the number, and type checking is on for the rest exactly when it is set. */
  lemma FlagFirst(typeChecked: bool, b: bool, rest: seq<Item>)
    ensures Number(typeChecked, [Flag(b)] + rest) == (if b then 1 else 0) + 2 * Number(b, rest)
    ensures Number(typeChecked, [Mode(b)] + rest) == Number(b, rest)
  {
    Ahead(typeChecked, Flag(b), rest);
    Ahead(typeChecked, Mode(b), rest);
    OneBit(b);
  }

  lemma OneBit(b: bool)
    ensures ValueOf([b]) == (if b then 1 else 0) && Pow2(1) == 2 && ValueOf([]) == 0
  {
    assert [b][1..] == [];
  }

  lemma Shifted(tag: nat, v: nat, q: nat, r: nat)
    ensures (tag + 32 * v) + (32 * q) * r == tag + 32 * (v + q * r)
  {
    assert (32 * q) * r == 32 * (q * r);
  }

  lemma Tagged(typeChecked: bool, item: Item, tag: byte, data: seq<byte>, rest: seq<Item>)
    requires tag < 32 && Encode(typeChecked, item) == TagBits(typeChecked, tag) + Flat(data)
    requires ModeAfter(typeChecked, item) == typeChecked
    ensures Number(typeChecked, [item] + rest)
            == var r := Above(FromLE(data), Pow256(|data|), Number(typeChecked, rest));
               if typeChecked then tag + 32 * r else r
  {
    hide *;
    Ahead(typeChecked, item, rest);
    TaggedNumber(typeChecked, tag, data);
    Combine(typeChecked, tag, FromLE(data), Pow256(|data|), Number(typeChecked, rest),
            ValueOf(Encode(typeChecked, item)), Pow2(|Encode(typeChecked, item)|));
  }

  lemma TaggedNumber(typeChecked: bool, tag: byte, data: seq<byte>)
    requires tag < 32
    ensures var e := TagBits(typeChecked, tag) + Flat(data);
            && ValueOf(e) == (if typeChecked then tag + 32 * FromLE(data) else FromLE(data))
            && Pow2(|e|) == (if typeChecked then 32 * Pow256(|data|) else Pow256(|data|))
  {
    FlatNumber(tag, 0, data);
    hide Flat, BitsOf, ValueOf, FromLE, Pow2, Pow256;
    assert [] + Flat(data) == Flat(data);
  }

  lemma Combine(typeChecked: bool, tag: nat, v: nat, q: nat, r: nat, e: nat, p: nat)
    requires e == if typeChecked then tag + 32 * v else v
    requires p == if typeChecked then 32 * q else q
    ensures Above(e, p, r) == if typeChecked then tag + 32 * Above(v, q, r) else Above(v, q, r)
  {
    Shifted(tag, v, q, r);
  }

  /** A checked integer has its type in the lowest five bits, 8 or 10, and its value in the next 32 or 64. */
  lemma IntegerFirst(typeChecked: bool, v: u32, w: u64, rest: seq<Item>)
    ensures Number(typeChecked, [Int32(v)] + rest)
            == if typeChecked then 8 + 32 * (v + U32_LIMIT * Number(true, rest)) else v + U32_LIMIT * Number(false, rest)
    ensures Number(typeChecked, [Int64(w)] + rest)
            == if typeChecked then 10 + 32 * (w + U64_LIMIT * Number(true, rest)) else w + U64_LIMIT * Number(false, rest)
  {
    RoundTrip32(v);
    RoundTrip64(w);
    Pow256Limits();
    hide Number, Flat, TagBits, LE, FromLE, Pow256;
    Tagged(typeChecked, Int32(v), 8, LE32(v), rest);
    Tagged(typeChecked, Int64(w), 10, LE64(w), rest);
  }

  /** Raw bytes are the digits to base 256, the first byte lowest. */
  lemma RawFirst(typeChecked: bool, s: seq<byte>, rest: seq<Item>)
    ensures Number(typeChecked, [Raw(s)] + rest) == Above(FromLE(s), Pow256(|s|), Number(typeChecked, rest))
  {
    Ahead(typeChecked, Raw(s), rest);
    FlatNumber(0, 0, s);
  }

  lemma NothingLeft(typeChecked: bool)
    ensures Number(typeChecked, []) == 0
  {}
}
