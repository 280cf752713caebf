/**
  Typed byte buffers (internal/online/bitdemon/bytebuffer.go).

  A buffer holds a list of fields. Each field has exactly one encoding and no encoding is a prefix of
  another of the same kind, so a list of kinds determines how any byte string splits into fields.
 */
module ByteBuffer {
  import opened Bytes

  const TYPE_UINT8: byte := 0x03
  const TYPE_INT32: byte := 0x07
  const TYPE_UINT32: byte := 0x08
  const TYPE_UINT64: byte := 0x0a
  const TYPE_STRING: byte := 0x10
  const TYPE_BLOB: byte := 0x13

  datatype Field = U8(u8: byte) | I32(i32: i32) | U32(u32: u32) | U64(u64: u64) | Str(str: seq<byte>) | Blob(blob: seq<byte>)

  /** What a reader expects next; strings and blobs with their maximum length. */
  datatype Kind = KU8 | KI32 | KU32 | KU64 | KStr(max: u32) | KBlob(max: u32)

  datatype Error = UnexpectedEOF | UnexpectedType | MissingNUL | ValueTooLarge | EmbeddedNUL

  datatype Decoded = Got(field: Field, rest: seq<byte>) | Bad(error: Error)

  // ---------- encodings ----------

  function Tag(typeChecked: bool, tag: byte): (s: seq<byte>) {
    if typeChecked then [tag] else []
  }

  /** Two's complement. */
  function Unsigned(v: i32): u32 { if v < 0 then v + U32_LIMIT else v }

  function Signed(v: u32): (r: i32)
    ensures Unsigned(r) == v
  {
    if v < 0x8000_0000 then v else v - U32_LIMIT
  }

  /** The fields a writer can write. */
  predicate Writable(f: Field) {
    match f
    case Str(s) => 0 !in s && |s| + 1 < U32_LIMIT
    case Blob(b) => |b| < U32_LIMIT
    case _ => true
  }

  function FieldTag(f: Field): byte {
    match f
    case U8(_) => TYPE_UINT8
    case I32(_) => TYPE_INT32
    case U32(_) => TYPE_UINT32
    case U64(_) => TYPE_UINT64
    case Str(_) => TYPE_STRING
    case Blob(_) => TYPE_BLOB
  }

  /** What follows the tag. A blob carries its length as a tagged integer. */
  function Body(typeChecked: bool, f: Field): seq<byte>
    requires Writable(f)
  {
    match f
    case U8(v) => [v]
    case I32(v) => LE32(Unsigned(v))
    case U32(v) => LE32(v)
    case U64(v) => LE64(v)
    case Str(s) => s + [0]
    case Blob(b) => Tag(typeChecked, TYPE_UINT32) + (LE32(|b|) + b)
  }

  function Encode(typeChecked: bool, f: Field): seq<byte>
    requires Writable(f)
  {
    Tag(typeChecked, FieldTag(f)) + Body(typeChecked, f)
  }

  predicate OfKind(k: Kind, f: Field) {
    match k
    case KU8 => f.U8?
    case KI32 => f.I32?
    case KU32 => f.U32?
    case KU64 => f.U64?
    case KStr(max) => f.Str? && |f.str| <= max
    case KBlob(max) => f.Blob? && |f.blob| <= max
  }

  /** A writable field of that kind. */
  predicate Conforms(k: Kind, f: Field) {
    Writable(f) && OfKind(k, f)
  }

  // ---------- decoding one field ----------

  /** The rest after the expected tag. */
  function Untag(typeChecked: bool, tag: byte, s: seq<byte>): (r: Result<seq<byte>, Error>)
    ensures r.Ok? <==> Tag(typeChecked, tag) <= s
    ensures r.Ok? ==> s == Tag(typeChecked, tag) + r.value
  {
    if !typeChecked then Ok(s)
    else if s == [] then Err(UnexpectedEOF)
    else if s[0] != tag then Err(UnexpectedType)
    else Ok(s[1..])
  }

  /** The position of the first zero byte, or the length when there is none. */
  function IndexOfZero(s: seq<byte>): (i: nat)
    ensures i <= |s| && 0 !in s[..i] && (i < |s| ==> s[i] == 0)
  {
    if s == [] || s[0] == 0 then 0
    else
      var i := 1 + IndexOfZero(s[1..]);
      assert s[..i] == [s[0]] + s[1..][..i - 1];
      i
  }

  function DecodeBody(typeChecked: bool, k: Kind, s: seq<byte>): (r: Decoded) {
    match k
    case KU8 => if |s| < 1 then Bad(UnexpectedEOF) else Got(U8(s[0]), s[1..])
    case KI32 => if |s| < 4 then Bad(UnexpectedEOF) else Got(I32(Signed(FromLE32(s[..4]))), s[4..])
    case KU32 => if |s| < 4 then Bad(UnexpectedEOF) else Got(U32(FromLE32(s[..4])), s[4..])
    case KU64 => if |s| < 8 then Bad(UnexpectedEOF) else Got(U64(FromLE64(s[..8])), s[8..])
    case KStr(max) =>
      var end := IndexOfZero(s);
      if end == |s| then Bad(MissingNUL)
      else if end > max then Bad(ValueTooLarge)
      else Got(Str(s[..end]), s[end + 1..])
    case KBlob(max) =>
      match Untag(typeChecked, TYPE_UINT32, s)
      case Err(e) => Bad(e)
      case Ok(t) =>
        if |t| < 4 then Bad(UnexpectedEOF)
        else if FromLE32(t[..4]) > max then Bad(ValueTooLarge)
        else if |t[4..]| < FromLE32(t[..4]) then Bad(UnexpectedEOF)
        else Got(Blob(t[4..][..FromLE32(t[..4])]), t[4..][FromLE32(t[..4])..])
  }

  function TagOf(k: Kind): byte {
    match k
    case KU8 => TYPE_UINT8
    case KI32 => TYPE_INT32
    case KU32 => TYPE_UINT32
    case KU64 => TYPE_UINT64
    case KStr(_) => TYPE_STRING
    case KBlob(_) => TYPE_BLOB
  }

  function Decode(typeChecked: bool, k: Kind, s: seq<byte>): (r: Decoded) {
    match Untag(typeChecked, TagOf(k), s)
    case Err(e) => Bad(e)
    case Ok(t) => DecodeBody(typeChecked, k, t)
  }

  lemma SplitAt(s: seq<byte>, n: nat)
    requires n <= |s|
    ensures s == s[..n] + s[n..]
  {}

  lemma Regroup(tag: seq<byte>, length: seq<byte>, body: seq<byte>, rest: seq<byte>)
    ensures tag + (length + (body + rest)) == (tag + (length + body)) + rest
  {}

  lemma BlobSound(typeChecked: bool, max: u32, t: seq<byte>)
    requires DecodeBody(typeChecked, KBlob(max), t).Got?
    ensures var r := DecodeBody(typeChecked, KBlob(max), t);
            Conforms(KBlob(max), r.field) && t == Body(typeChecked, r.field) + r.rest
  {
    hide LE32, FromLE32, Untag, Tag;
    var tag := Tag(typeChecked, TYPE_UINT32);
    var u := Untag(typeChecked, TYPE_UINT32, t).value;
    var n := FromLE32(u[..4]);
    Canonical32(u[..4]);
    SplitAt(u, 4);
    SplitAt(u[4..], n);
    Regroup(tag, u[..4], u[4..][..n], u[4..][n..]);
  }

  lemma {:induction false} StringSound(t: seq<byte>)
    requires IndexOfZero(t) < |t|
    ensures var end := IndexOfZero(t); 0 !in t[..end] && t == (t[..end] + [0]) + t[end + 1..]
  {
    var end := IndexOfZero(t);
    hide IndexOfZero;
    SplitAt(t, end + 1);
    assert t[..end + 1] == t[..end] + [0];
  }

  lemma BodySound(typeChecked: bool, k: Kind, t: seq<byte>)
    requires DecodeBody(typeChecked, k, t).Got?
    requires k.KStr? ==> k.max + 1 < U32_LIMIT
    ensures var r := DecodeBody(typeChecked, k, t);
            Conforms(k, r.field) && t == Body(typeChecked, r.field) + r.rest
  {
    match k
    case KU8 => assert t == [t[0]] + t[1..];
    case KI32 => Canonical32(t[..4]); SplitAt(t, 4);
    case KU32 => Canonical32(t[..4]); SplitAt(t, 4);
    case KU64 => Canonical64(t[..8]); SplitAt(t, 8);
    case KStr(max) => StringSound(t);
    case KBlob(max) => BlobSound(typeChecked, max, t);
  }

  /** Whatever decodes is the encoding of the field followed by the rest. */
  lemma DecodeSound(typeChecked: bool, k: Kind, s: seq<byte>)
    requires Decode(typeChecked, k, s).Got?
    requires k.KStr? ==> k.max + 1 < U32_LIMIT
    ensures var r := Decode(typeChecked, k, s);
            Conforms(k, r.field) && s == Encode(typeChecked, r.field) + r.rest
  {
    hide DecodeBody, Body;
    BodySound(typeChecked, k, Untag(typeChecked, TagOf(k), s).value);
  }

  lemma ZeroAfter(s: seq<byte>, rest: seq<byte>)
    requires 0 !in s
    ensures IndexOfZero(s + [0] + rest) == |s|
  {
    var t := s + [0] + rest;
    var i := IndexOfZero(t);
    assert t[|s|] == 0;
    assert forall j | 0 <= j < |s| :: t[j] == s[j] && s[j] in s;
  }

  lemma UntagTag(typeChecked: bool, tag: byte, rest: seq<byte>)
    ensures Untag(typeChecked, tag, Tag(typeChecked, tag) + rest) == Ok(rest)
  {
    assert ([tag] + rest)[1..] == rest;
    assert [] + rest == rest;
  }

  lemma BlobComplete(typeChecked: bool, max: u32, b: seq<byte>, rest: seq<byte>)
    requires Conforms(KBlob(max), Blob(b))
    ensures DecodeBody(typeChecked, KBlob(max), Body(typeChecked, Blob(b)) + rest) == Got(Blob(b), rest)
  {
    var u := LE32(|b|) + (b + rest);
    assert Body(typeChecked, Blob(b)) + rest == Tag(typeChecked, TYPE_UINT32) + u;
    UntagTag(typeChecked, TYPE_UINT32, u);
    Whole32(|b|, b + rest);
    assert (b + rest)[..|b|] == b && (b + rest)[|b|..] == rest;
  }

  lemma BodyComplete(typeChecked: bool, k: Kind, f: Field, rest: seq<byte>)
    requires Conforms(k, f)
    ensures DecodeBody(typeChecked, k, Body(typeChecked, f) + rest) == Got(f, rest)
  {
    var t := Body(typeChecked, f) + rest;
    match f
    case U8(v) => assert t[1..] == rest;
    case I32(v) => Whole32(Unsigned(v), rest); assert Signed(Unsigned(v)) == v;
    case U32(v) => Whole32(v, rest);
    case U64(v) =>
      RoundTrip64(v);
      assert t[..8] == LE64(v) && t[8..] == rest;
    case Str(str) =>
      ZeroAfter(str, rest);
      assert t[..|str|] == str && t[|str| + 1..] == rest;
    case Blob(b) => BlobComplete(typeChecked, k.max, b, rest);
  }

  lemma TaggedDecode(typeChecked: bool, k: Kind, body: seq<byte>, rest: seq<byte>)
    ensures Decode(typeChecked, k, (Tag(typeChecked, TagOf(k)) + body) + rest)
            == DecodeBody(typeChecked, k, body + rest)
  {
    hide DecodeBody, TagOf;
    UntagTag(typeChecked, TagOf(k), body + rest);
    assert (Tag(typeChecked, TagOf(k)) + body) + rest == Tag(typeChecked, TagOf(k)) + (body + rest);
  }

  /** Every conforming field decodes from its encoding, leaving exactly what follows. */
  lemma DecodeComplete(typeChecked: bool, k: Kind, f: Field, rest: seq<byte>)
    requires Conforms(k, f)
    ensures Decode(typeChecked, k, Encode(typeChecked, f) + rest) == Got(f, rest)
  {
    BodyComplete(typeChecked, k, f, rest);
    assert TagOf(k) == FieldTag(f);
    hide DecodeBody, Body, TagOf, FieldTag, Conforms, Untag, Decode;
    TaggedDecode(typeChecked, k, Body(typeChecked, f), rest);
  }

  lemma Whole32(v: u32, rest: seq<byte>)
    ensures (LE32(v) + rest)[..4] == LE32(v) && (LE32(v) + rest)[4..] == rest && FromLE32(LE32(v)) == v
  {
    RoundTrip32(v);
  }

  // ---------- lists of fields ----------

  predicate AllWritable(fs: seq<Field>) {
    forall i | 0 <= i < |fs| :: Writable(fs[i])
  }

  function EncodeAll(typeChecked: bool, fs: seq<Field>): seq<byte>
    requires AllWritable(fs)
  {
    if fs == [] then [] else Encode(typeChecked, fs[0]) + EncodeAll(typeChecked, fs[1..])
  }

  lemma {:induction false} EncodeAllAppend(typeChecked: bool, fs: seq<Field>, gs: seq<Field>)
    requires AllWritable(fs) && AllWritable(gs)
    ensures AllWritable(fs + gs)
    ensures EncodeAll(typeChecked, fs + gs) == EncodeAll(typeChecked, fs) + EncodeAll(typeChecked, gs)
  {
    hide Encode;
    if fs == [] {
      assert fs + gs == gs;
    } else {
      EncodeAllAppend(typeChecked, fs[1..], gs);
      assert (fs + gs)[0] == fs[0] && (fs + gs)[1..] == fs[1..] + gs;
      var head, mid, tail := Encode(typeChecked, fs[0]), EncodeAll(typeChecked, fs[1..]), EncodeAll(typeChecked, gs);
      assert head + (mid + tail) == (head + mid) + tail;
    }
  }

  lemma EncodeAllSnoc(typeChecked: bool, fs: seq<Field>, f: Field)
    requires AllWritable(fs) && Writable(f)
    ensures AllWritable(fs + [f])
    ensures EncodeAll(typeChecked, fs + [f]) == EncodeAll(typeChecked, fs) + Encode(typeChecked, f)
  {
    EncodeAllAppend(typeChecked, fs, [f]);
    assert EncodeAll(typeChecked, [f]) == Encode(typeChecked, f) + [];
  }

  datatype Split = Split(fields: seq<Field>, rest: seq<byte>)

  function DecodeAll(typeChecked: bool, ks: seq<Kind>, s: seq<byte>): Option<Split> {
    if ks == [] then Some(Split([], s))
    else
      match Decode(typeChecked, ks[0], s)
      case Bad(_) => None
      case Got(f, rest) =>
        match DecodeAll(typeChecked, ks[1..], rest)
        case None => None
        case Some(r) => Some(Split([f] + r.fields, r.rest))
  }

  predicate AllConform(ks: seq<Kind>, fs: seq<Field>) {
    |ks| == |fs| && forall i | 0 <= i < |fs| :: Conforms(ks[i], fs[i])
  }

  predicate Bounded(ks: seq<Kind>) {
    forall i | 0 <= i < |ks| && ks[i].KStr? :: ks[i].max + 1 < U32_LIMIT
  }

  lemma WritableFields(ks: seq<Kind>, fs: seq<Field>)
    requires AllConform(ks, fs)
    ensures AllWritable(fs)
  {}

  lemma {:induction false} DecodeAllSound(typeChecked: bool, ks: seq<Kind>, s: seq<byte>)
    requires Bounded(ks) && DecodeAll(typeChecked, ks, s).Some?
    ensures var r := DecodeAll(typeChecked, ks, s).value;
            AllConform(ks, r.fields) && s == EncodeAll(typeChecked, r.fields) + r.rest
  {
    hide Encode, Decode, Conforms;
    if ks != [] {
      var d := Decode(typeChecked, ks[0], s);
      DecodeSound(typeChecked, ks[0], s);
      assert Bounded(ks[1..]);
      DecodeAllSound(typeChecked, ks[1..], d.rest);
      var r := DecodeAll(typeChecked, ks[1..], d.rest).value;
      var fs := [d.field] + r.fields;
      assert fs[1..] == r.fields;
      ConsConforms(ks, fs);
      WritableFields(ks, fs);
      var head, mid := Encode(typeChecked, d.field), EncodeAll(typeChecked, r.fields);
      assert head + (mid + r.rest) == (head + mid) + r.rest;
    }
  }

  lemma {:induction false} DecodeAllComplete(typeChecked: bool, ks: seq<Kind>, fs: seq<Field>, rest: seq<byte>)
    requires AllConform(ks, fs)
    ensures DecodeAll(typeChecked, ks, EncodeAll(typeChecked, fs) + rest) == Some(Split(fs, rest))
  {
    hide Encode, Decode;
    var s := EncodeAll(typeChecked, fs) + rest;
    if ks == [] {
      assert s == rest;
    } else {
      var head, tail := Encode(typeChecked, fs[0]), EncodeAll(typeChecked, fs[1..]) + rest;
      assert s == head + tail;
      DecodeComplete(typeChecked, ks[0], fs[0], tail);
      DecodeAllComplete(typeChecked, ks[1..], fs[1..], rest);
      assert fs == [fs[0]] + fs[1..];
    }
  }

  /**
    A byte string splits into fields of the given kinds and a rest exactly when it is their
    encoding followed by that rest; so it splits in at most one way.
   */
  lemma DecodeAllExact(typeChecked: bool, ks: seq<Kind>, s: seq<byte>, fs: seq<Field>, rest: seq<byte>)
    requires Bounded(ks)
    ensures DecodeAll(typeChecked, ks, s) == Some(Split(fs, rest))
            <==> AllConform(ks, fs) && s == EncodeAll(typeChecked, fs) + rest
  {
    if DecodeAll(typeChecked, ks, s) == Some(Split(fs, rest)) {
      DecodeAllSound(typeChecked, ks, s);
    }
    if AllConform(ks, fs) && s == EncodeAll(typeChecked, fs) + rest {
      DecodeAllComplete(typeChecked, ks, fs, rest);
    }
  }

  lemma ConformAppend(ks: seq<Kind>, fs: seq<Field>, ls: seq<Kind>, gs: seq<Field>)
    requires AllConform(ks, fs) && AllConform(ls, gs)
    ensures AllConform(ks + ls, fs + gs)
  {
    hide Conforms;
    forall i | 0 <= i < |fs + gs| ensures Conforms((ks + ls)[i], (fs + gs)[i]) {
      if i >= |fs| { assert Conforms(ls[i - |fs|], gs[i - |fs|]); }
    }
  }

  lemma ConsConforms(ks: seq<Kind>, fs: seq<Field>)
    requires ks != [] && fs != [] && Conforms(ks[0], fs[0]) && AllConform(ks[1..], fs[1..])
    ensures AllConform(ks, fs)
  {
    hide Conforms;
    forall i | 0 <= i < |fs| ensures Conforms(ks[i], fs[i]) {
      if i > 0 { assert Conforms(ks[1..][i - 1], fs[1..][i - 1]); }
    }
  }

  // ---------- reading field by field ----------

  lemma {:induction false} DecodeAllAppend(typeChecked: bool, ks: seq<Kind>, ls: seq<Kind>, s: seq<byte>)
    ensures DecodeAll(typeChecked, ks + ls, s)
            == match DecodeAll(typeChecked, ks, s)
               case None => None
               case Some(r) =>
                 match DecodeAll(typeChecked, ls, r.rest)
                 case None => None
                 case Some(q) => Some(Split(r.fields + q.fields, q.rest))
  {
    hide Decode;
    if ks == [] {
      assert ks + ls == ls;
      var q := DecodeAll(typeChecked, ls, s);
      if q.Some? { assert [] + q.value.fields == q.value.fields; }
    } else {
      assert (ks + ls)[0] == ks[0] && (ks + ls)[1..] == ks[1..] + ls;
      var d := Decode(typeChecked, ks[0], s);
      if d.Got? {
        DecodeAllAppend(typeChecked, ks[1..], ls, d.rest);
        var r := DecodeAll(typeChecked, ks[1..], d.rest);
        if r.Some? && DecodeAll(typeChecked, ls, r.value.rest).Some? {
          var q := DecodeAll(typeChecked, ls, r.value.rest).value;
          assert [d.field] + (r.value.fields + q.fields) == ([d.field] + r.value.fields) + q.fields;
        }
      }
    }
  }

  lemma {:induction false} DecodeAllLength(typeChecked: bool, ks: seq<Kind>, s: seq<byte>)
    requires DecodeAll(typeChecked, ks, s).Some?
    ensures |DecodeAll(typeChecked, ks, s).value.fields| == |ks|
  {
    hide Decode;
    if ks != [] { DecodeAllLength(typeChecked, ks[1..], Decode(typeChecked, ks[0], s).rest); }
  }

  /** Reading two lists of kinds is reading the first and then the second. */
  lemma DecodeAllSplit(typeChecked: bool, ks: seq<Kind>, ls: seq<Kind>, s: seq<byte>,
                       fs: seq<Field>, gs: seq<Field>, rest: seq<byte>)
    requires |fs| == |ks|
    ensures DecodeAll(typeChecked, ks + ls, s) == Some(Split(fs + gs, rest))
            <==> var first := DecodeAll(typeChecked, ks, s);
                 && first.Some? && first.value.fields == fs
                 && DecodeAll(typeChecked, ls, first.value.rest) == Some(Split(gs, rest))
  {
    hide DecodeAll;
    DecodeAllAppend(typeChecked, ks, ls, s);
    var first := DecodeAll(typeChecked, ks, s);
    if first.Some? {
      DecodeAllLength(typeChecked, ks, s);
      var second := DecodeAll(typeChecked, ls, first.value.rest);
      if second.Some? && first.value.fields + second.value.fields == fs + gs {
        assert (fs + gs)[..|ks|] == fs && (fs + gs)[|ks|..] == gs;
        assert (first.value.fields + second.value.fields)[..|ks|] == first.value.fields;
        assert (first.value.fields + second.value.fields)[|ks|..] == second.value.fields;
      }
    }
  }

  /** As many fields as done holds have been read from whole, and rest is left. */
  ghost predicate At(typeChecked: bool, ks: seq<Kind>, whole: seq<byte>, done: seq<Field>, rest: seq<byte>) {
    |done| <= |ks| && DecodeAll(typeChecked, ks[..|done|], whole) == Some(Split(done, rest))
  }

  lemma Begin(typeChecked: bool, ks: seq<Kind>, whole: seq<byte>)
    ensures At(typeChecked, ks, whole, [], whole)
  {}

  lemma DecodeOne(typeChecked: bool, k: Kind, s: seq<byte>)
    ensures DecodeAll(typeChecked, [k], s)
            == match Decode(typeChecked, k, s) case Bad(_) => None case Got(f, rest) => Some(Split([f], rest))
  {
    hide Decode;
    assert [k][1..] == [];
    var d := Decode(typeChecked, k, s);
    if d.Got? { assert [d.field] + [] == [d.field]; }
  }

  lemma ReadStep(typeChecked: bool, ks: seq<Kind>, whole: seq<byte>, done: seq<Field>,
                 k: Kind, before: seq<byte>, r: Result<Field, Error>, after: seq<byte>)
    requires At(typeChecked, ks, whole, done, before) && |done| < |ks| && k == ks[|done|]
    requires Did(typeChecked, k, before, r, after)
    ensures r.Err? ==> DecodeAll(typeChecked, ks, whole) == None
    ensures r.Ok? ==> At(typeChecked, ks, whole, done + [r.value], after)
  {
    hide Decode, DecodeAll;
    var n := |done|;
    DecodeAllAppend(typeChecked, ks[..n], [k], whole);
    DecodeOne(typeChecked, k, before);
    assert ks[..n + 1] == ks[..n] + [k];
    DecodeAllAppend(typeChecked, ks[..n + 1], ks[n + 1..], whole);
    assert ks == ks[..n + 1] + ks[n + 1..];
  }

  lemma ReadAll(typeChecked: bool, ks: seq<Kind>, whole: seq<byte>, done: seq<Field>, rest: seq<byte>)
    requires At(typeChecked, ks, whole, done, rest) && |done| == |ks|
    ensures DecodeAll(typeChecked, ks, whole) == Some(Split(done, rest))
  {
    assert ks[..|done|] == ks;
  }

  // ---------- the writer ----------

  lemma BlobWritten(typeChecked: bool, data: seq<byte>, value: seq<byte>)
    requires Writable(Blob(value))
    ensures ((data + Tag(typeChecked, TYPE_BLOB)) + Encode(typeChecked, U32(|value|))) + value
            == data + Encode(typeChecked, Blob(value))
  {
    hide LE32, Tag;
    JoinBlob(data, Tag(typeChecked, TYPE_BLOB), Tag(typeChecked, TYPE_UINT32), LE32(|value|), value);
  }

  lemma JoinBlob(data: seq<byte>, tag: seq<byte>, lengthTag: seq<byte>, length: seq<byte>, value: seq<byte>)
    ensures ((data + tag) + (lengthTag + length)) + value == data + (tag + (lengthTag + (length + value)))
  {
    assert (lengthTag + length) + value == lengthTag + (length + value);
    assert ((data + tag) + (lengthTag + length)) + value == data + (tag + ((lengthTag + length) + value));
  }

  class ByteWriter {
    const typeChecked: bool
    var data: seq<byte>

    constructor (typeChecked: bool)
      ensures this.typeChecked == typeChecked && data == []
    {
      this.typeChecked := typeChecked;
      data := [];
    }

    method WriteType(tag: byte)
      modifies this
      ensures data == old(data) + Tag(typeChecked, tag)
    {
      if typeChecked {
        data := data + [tag];
      }
    }

    method WriteRaw(value: seq<byte>)
      modifies this
      ensures data == old(data) + value
    {
      data := data + value;
    }

    method WriteUint8(value: byte)
      modifies this
      ensures data == old(data) + Encode(typeChecked, U8(value))
    {
      WriteType(TYPE_UINT8);
      data := data + [value];
    }

    method WriteInt32(value: i32)
      modifies this
      ensures data == old(data) + Encode(typeChecked, I32(value))
    {
      WriteType(TYPE_INT32);
      data := data + LE32(Unsigned(value));
    }

    method WriteUint32(value: u32)
      modifies this
      ensures data == old(data) + Encode(typeChecked, U32(value))
    {
      WriteType(TYPE_UINT32);
      data := data + LE32(value);
    }

    method WriteUint64(value: u64)
      modifies this
      ensures data == old(data) + Encode(typeChecked, U64(value))
    {
      WriteType(TYPE_UINT64);
      data := data + LE64(value);
    }

    /** Refuses, writing nothing, exactly the strings that have no encoding. */
    method WriteString(value: seq<byte>) returns (r: Result<(), Error>)
      modifies this
      ensures r.Ok? <==> Writable(Str(value))
      ensures r.Ok? ==> data == old(data) + Encode(typeChecked, Str(value))
      ensures r.Err? ==> data == old(data) && r.error == if 0 in value then EmbeddedNUL else ValueTooLarge
    {
      if 0 in value {
        return Err(EmbeddedNUL);
      }
      if |value| + 1 > U32_LIMIT - 1 {
        return Err(ValueTooLarge);
      }
      WriteType(TYPE_STRING);
      data := data + value;
      data := data + [0];
      r := Ok(());
    }

    method WriteBlob(value: seq<byte>) returns (r: Result<(), Error>)
      modifies this
      ensures r.Ok? <==> Writable(Blob(value))
      ensures r.Ok? ==> data == old(data) + Encode(typeChecked, Blob(value))
      ensures r.Err? ==> data == old(data) && r.error == ValueTooLarge
    {
      if |value| > U32_LIMIT - 1 {
        return Err(ValueTooLarge);
      }
      WriteType(TYPE_BLOB);
      WriteUint32(|value|);
      data := data + value;
      BlobWritten(typeChecked, old(data), value);
      r := Ok(());
    }
  }

  lemma NoFields()
    ensures EncodeAll(true, []) == [] && AllConform([], [])
  {}

  /** Writing the next field of a list. */
  lemma WroteNext(start: seq<byte>, typeChecked: bool, done: seq<Field>, f: Field, before: seq<byte>)
    requires AllWritable(done) && Writable(f) && before == start + EncodeAll(typeChecked, done)
    ensures AllWritable(done + [f])
    ensures before + Encode(typeChecked, f) == start + EncodeAll(typeChecked, done + [f])
  {
    hide Encode, EncodeAll;
    EncodeAllSnoc(typeChecked, done, f);
    assert (start + EncodeAll(typeChecked, done)) + Encode(typeChecked, f)
        == start + (EncodeAll(typeChecked, done) + Encode(typeChecked, f));
  }

  // ---------- the reader ----------

  /** The next field of kind k was read, or the read failed with that error and consumed nothing. */
  predicate Did(typeChecked: bool, k: Kind, before: seq<byte>, r: Result<Field, Error>, after: seq<byte>) {
    && (r.Ok? ==> Decode(typeChecked, k, before) == Got(r.value, after) && OfKind(k, r.value))
    && (r.Err? ==> Decode(typeChecked, k, before) == Bad(r.error) && after == before)
  }

  lemma DropDrop(s: seq<byte>, i: nat, j: nat)
    requires i + j <= |s|
    ensures s[i..][j..] == s[i + j..]
  {}

  lemma TagFailed(typeChecked: bool, k: Kind, before: seq<byte>, error: Error)
    requires Untag(typeChecked, TagOf(k), before) == Err(error)
    ensures Did(typeChecked, k, before, Err(error), before)
  {}

  /** What reading a string does once its tag has been read. */
  lemma StringReadAt(typeChecked: bool, max: u32, before: seq<byte>, data: seq<byte>, offset: nat)
    requires offset <= |data| && Untag(typeChecked, TYPE_STRING, before) == Ok(data[offset..])
    ensures var text := data[offset..];
            var end := IndexOfZero(text);
            if end == |text| then Did(typeChecked, KStr(max), before, Err(MissingNUL), before)
            else if end > max then Did(typeChecked, KStr(max), before, Err(ValueTooLarge), before)
            else Did(typeChecked, KStr(max), before, Ok(Str(text[..end])), data[offset + end + 1..])
  {
    hide Untag, IndexOfZero, Did;
    var text := data[offset..];
    StringRead(typeChecked, max, before, text);
    if IndexOfZero(text) < |text| { DropDrop(data, offset, IndexOfZero(text) + 1); }
  }

  lemma StringRead(typeChecked: bool, max: u32, before: seq<byte>, text: seq<byte>)
    requires Untag(typeChecked, TYPE_STRING, before) == Ok(text)
    ensures var end := IndexOfZero(text);
            if end == |text| then Did(typeChecked, KStr(max), before, Err(MissingNUL), before)
            else if end > max then Did(typeChecked, KStr(max), before, Err(ValueTooLarge), before)
            else Did(typeChecked, KStr(max), before, Ok(Str(text[..end])), text[end + 1..])
  {
    hide Untag, IndexOfZero, DecodeBody;
    assert Decode(typeChecked, KStr(max), before) == DecodeBody(typeChecked, KStr(max), text);
    hide Decode;
    StringBody(typeChecked, max, text);
  }

  lemma StringBody(typeChecked: bool, max: u32, text: seq<byte>)
    ensures DecodeBody(typeChecked, KStr(max), text)
            == var end := IndexOfZero(text);
               if end == |text| then Bad(MissingNUL)
               else if end > max then Bad(ValueTooLarge)
               else Got(Str(text[..end]), text[end + 1..])
  {
    hide Untag, IndexOfZero;
  }

  class ByteReader {
    const typeChecked: bool
    const data: seq<byte>
    var offset: nat

    constructor (data: seq<byte>, typeChecked: bool)
      ensures this.data == data && this.typeChecked == typeChecked && offset == 0
      ensures Valid() && Rest() == data
    {
      this.data := data;
      this.typeChecked := typeChecked;
      offset := 0;
    }

    ghost predicate Valid()
      reads this
    {
      offset <= |data|
    }

    /** What has not been read yet. */
    ghost function Rest(): (rest: seq<byte>)
      requires Valid()
      reads this
      ensures |rest| == |data| - offset
    {
      data[offset..]
    }

    function Remaining(): int
      reads this
    {
      |data| - offset
    }

    method Read(length: int) returns (r: Result<seq<byte>, Error>)
      requires Valid() && length >= 0
      modifies this
      ensures Valid()
      ensures r.Ok? <==> length <= |old(Rest())|
      ensures r.Ok? ==> r.value == old(Rest())[..length] && Rest() == old(Rest())[length..]
      ensures r.Err? ==> offset == old(offset) && r.error == UnexpectedEOF
    {
      if length > Remaining() {
        return Err(UnexpectedEOF);
      }
      var start := offset;
      offset := offset + length;
      r := Ok(data[start..offset]);
    }

    method Expect(tag: byte) returns (r: Result<(), Error>)
      requires Valid()
      modifies this
      ensures Valid()
      ensures match Untag(typeChecked, tag, old(Rest()))
              case Ok(rest) => r.Ok? && Rest() == rest
              case Err(e) => r == Err(e)
    {
      if !typeChecked {
        return Ok(());
      }
      var read := Read(1);
      if read.Err? {
        return Err(read.error);
      }
      if read.value[0] != tag {
        return Err(UnexpectedType);
      }
      r := Ok(());
    }

    method ReadRaw(length: u32) returns (r: Result<seq<byte>, Error>)
      requires Valid()
      modifies this
      ensures Valid()
      ensures r.Ok? <==> length <= |old(Rest())|
      ensures r.Ok? ==> r.value == old(Rest())[..length] && Rest() == old(Rest())[length..]
      ensures r.Err? ==> offset == old(offset)
    {
      r := Read(length);
    }

    method ReadUint8() returns (r: Result<Field, Error>)
      requires Valid()
      modifies this
      ensures Valid() && Did(typeChecked, KU8, old(Rest()), r, Rest())
    {
      var start := offset;
      var tagged := Expect(TYPE_UINT8);
      if tagged.Err? {
        offset := start;
        return Err(tagged.error);
      }
      var read := Read(1);
      if read.Err? {
        offset := start;
        return Err(read.error);
      }
      r := Ok(U8(read.value[0]));
    }

    method ReadInt32() returns (r: Result<Field, Error>)
      requires Valid()
      modifies this
      ensures Valid() && Did(typeChecked, KI32, old(Rest()), r, Rest())
    {
      var start := offset;
      var tagged := Expect(TYPE_INT32);
      if tagged.Err? {
        offset := start;
        return Err(tagged.error);
      }
      var read := Read(4);
      if read.Err? {
        offset := start;
        return Err(read.error);
      }
      r := Ok(I32(Signed(FromLE32(read.value))));
    }

    method ReadUint32() returns (r: Result<Field, Error>)
      requires Valid()
      modifies this
      ensures Valid() && Did(typeChecked, KU32, old(Rest()), r, Rest())
    {
      var start := offset;
      var tagged := Expect(TYPE_UINT32);
      if tagged.Err? {
        offset := start;
        return Err(tagged.error);
      }
      var read := Read(4);
      if read.Err? {
        offset := start;
        return Err(read.error);
      }
      r := Ok(U32(FromLE32(read.value)));
    }

    method ReadUint64() returns (r: Result<Field, Error>)
      requires Valid()
      modifies this
      ensures Valid() && Did(typeChecked, KU64, old(Rest()), r, Rest())
    {
      var start := offset;
      var tagged := Expect(TYPE_UINT64);
      if tagged.Err? {
        offset := start;
        return Err(tagged.error);
      }
      var read := Read(8);
      if read.Err? {
        offset := start;
        return Err(read.error);
      }
      r := Ok(U64(FromLE64(read.value)));
    }

    method ReadString(max: u32) returns (r: Result<Field, Error>)
      requires Valid()
      modifies this
      ensures Valid() && Did(typeChecked, KStr(max), old(Rest()), r, Rest())
    {
      hide Did, DecodeBody, IndexOfZero, Rest;
      var start := offset;
      RestIs();
      var tagged := Expect(TYPE_STRING);
      if tagged.Err? {
        offset := start;
        RestIs();
        TagFailed(typeChecked, KStr(max), old(Rest()), tagged.error);
        return Err(tagged.error);
      }
      RestIs();
      var remainder := data[offset..];
      var terminator := IndexOfZero(remainder);
      StringReadAt(typeChecked, max, old(Rest()), data, offset);
      if terminator == |remainder| {
        offset := start;
        RestIs();
        return Err(MissingNUL);
      }
      if terminator > max {
        offset := start;
        RestIs();
        return Err(ValueTooLarge);
      }
      offset := offset + terminator + 1;
      RestIs();
      r := Ok(Str(remainder[..terminator]));
    }

    lemma RestIs()
      requires Valid()
      ensures Rest() == data[offset..]
    {}

    method ReadBlob(max: u32) returns (r: Result<Field, Error>)
      requires Valid()
      modifies this
      ensures Valid() && Did(typeChecked, KBlob(max), old(Rest()), r, Rest())
    {
      var start := offset;
      var tagged := Expect(TYPE_BLOB);
      if tagged.Err? {
        offset := start;
        return Err(tagged.error);
      }
      var length := ReadUint32();
      if length.Err? {
        offset := start;
        return Err(length.error);
      }
      if length.value.u32 > max {
        offset := start;
        return Err(ValueTooLarge);
      }
      var read := Read(length.value.u32);
      if read.Err? {
        offset := start;
        return Err(read.error);
      }
      r := Ok(Blob(read.value));
    }
  }
}
