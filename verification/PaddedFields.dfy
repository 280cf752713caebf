/** A list of typed fields and what follows it. */
module PaddedFields {
  import opened Bytes
  import opened ByteBuffer

  /** payload is the encoding of these fields followed by rest. */
  ghost predicate Followed(payload: seq<byte>, ks: seq<Kind>, fs: seq<Field>, rest: seq<byte>) {
    AllConform(ks, fs) && AllWritable(fs) && payload == EncodeAll(true, fs) + rest
  }

  lemma FollowedExact(payload: seq<byte>, ks: seq<Kind>, fs: seq<Field>, rest: seq<byte>)
    requires Bounded(ks)
    ensures Followed(payload, ks, fs, rest) <==> DecodeAll(true, ks, payload) == Some(Split(fs, rest))
  {
    hide DecodeAll, EncodeAll, Bounded, AllConform;
    DecodeAllExact(true, ks, payload, fs, rest);
    if AllConform(ks, fs) { WritableFields(ks, fs); }
  }

  /** Reading three fields one after the other leaves rest. */
  ghost predicate ReadsThree(s: seq<byte>, k: Kind, l: Kind, m: Kind, f: Field, g: Field, h: Field, rest: seq<byte>) {
    var first := Decode(true, k, s);
    && first.Got? && first.field == f
    && var second := Decode(true, l, first.rest);
    && second.Got? && second.field == g
    && Decode(true, m, second.rest) == Got(h, rest)
  }

  /** Reading a list of kinds is reading the first and then the others. */
  lemma ReadsFirst(s: seq<byte>, k: Kind, ks: seq<Kind>, f: Field, fs: seq<Field>, rest: seq<byte>)
    ensures DecodeAll(true, [k] + ks, s) == Some(Split([f] + fs, rest))
            <==> var first := Decode(true, k, s);
                 && first.Got? && first.field == f
                 && DecodeAll(true, ks, first.rest) == Some(Split(fs, rest))
  {
    hide Decode;
    assert ([k] + ks)[0] == k && ([k] + ks)[1..] == ks;
    var first := Decode(true, k, s);
    if first.Got? && DecodeAll(true, ks, first.rest).Some? {
      var others := DecodeAll(true, ks, first.rest).value.fields;
      assert ([first.field] + others)[0] == first.field && ([first.field] + others)[1..] == others;
      assert ([f] + fs)[0] == f && ([f] + fs)[1..] == fs;
    }
  }

  lemma ThreeFields(s: seq<byte>, k: Kind, l: Kind, m: Kind, f: Field, g: Field, h: Field, rest: seq<byte>)
    ensures DecodeAll(true, [k, l, m], s) == Some(Split([f, g, h], rest)) <==> ReadsThree(s, k, l, m, f, g, h, rest)
  {
    hide Decode, DecodeAll;
    assert [k, l, m] == [k] + [l, m] && [f, g, h] == [f] + [g, h];
    ReadsFirst(s, k, [l, m], f, [g, h], rest);
    var first := Decode(true, k, s);
    if first.Got? { TwoFields(first.rest, l, m, g, h, rest); }
  }

  lemma TwoFields(s: seq<byte>, l: Kind, m: Kind, g: Field, h: Field, rest: seq<byte>)
    ensures DecodeAll(true, [l, m], s) == Some(Split([g, h], rest))
            <==> var first := Decode(true, l, s);
                 first.Got? && first.field == g && Decode(true, m, first.rest) == Got(h, rest)
  {
    hide Decode, DecodeAll;
    assert [l, m] == [l] + [m] && [g, h] == [g] + [h];
    ReadsFirst(s, l, [m], g, [h], rest);
    var first := Decode(true, l, s);
    if first.Got? { OneField(first.rest, m, h, rest); }
  }

  lemma OneField(s: seq<byte>, m: Kind, h: Field, rest: seq<byte>)
    ensures DecodeAll(true, [m], s) == Some(Split([h], rest)) <==> Decode(true, m, s) == Got(h, rest)
  {
    hide Decode;
    assert [m] == [m] + [] && [h] == [h] + [];
    ReadsFirst(s, m, [], h, [], rest);
  }

  /** So three fields and a rest read back exactly from their encoding. */
  lemma ThreeFollowed(payload: seq<byte>, k: Kind, l: Kind, m: Kind, f: Field, g: Field, h: Field, rest: seq<byte>)
    requires Bounded([k, l, m])
    ensures Followed(payload, [k, l, m], [f, g, h], rest) <==> ReadsThree(payload, k, l, m, f, g, h, rest)
  {
    hide DecodeAll, Followed, ReadsThree, Bounded;
    FollowedExact(payload, [k, l, m], [f, g, h], rest);
    ThreeFields(payload, k, l, m, f, g, h, rest);
  }
}
