/**
  The bytes of everything a lobby connection sends (internal/online/lobby/lsg.go: writeConnectionID,
  handleMatchmaking and the three reply paths of HandleTCP).
 */
module Outbox {
  import opened Bytes
  import opened MatchmakingTypes
  import opened Outputs
  import opened ByteBuffer
  import C = Crypto
  import E = Envelope
  import F = Frame
  import L = EventLog
  import Mm = Matchmaking
  import P = Messaging

  const LSG_CONNECTION_ID_MESSAGE: byte := 0x04

  /** Within bounds, with a transaction number that has not wrapped. */
  predicate Sendable(item: Sent) {
    Fits(item) && (item.Reply? ==> item.tx < U64_LIMIT)
  }

  // ---------- bytes of replies ----------

  function ResultBytes(results: seq<Info>): (s: seq<byte>)
    requires forall i | 0 <= i < |results| :: ResultFits(results[i])
  {
    if results == [] then []
    else
      var last := |results| - 1;
      Mm.ResultConforms(results[last]);
      ResultBytes(results[..last]) + EncodeAll(true, Mm.ResultFields(results[last]))
  }

  function OutcomeBytes(tx: u64, outcome: Outcome): seq<byte>
    requires Fits(Reply(tx, outcome))
  {
    match outcome
    case Plain(task) => L.TaskReply(tx, task, L.STATUS_NO_ERROR, 0, 0)
    case Created(id) => L.TaskReply(tx, Mm.TASK_CREATE, L.STATUS_NO_ERROR, 1, 1) + Encode(true, Blob(id))
    case Found(results, total) =>
      L.TaskReply(tx, Mm.TASK_FIND, L.STATUS_NO_ERROR, |results|, total) + ResultBytes(results)
  }

  /** The body of the frame that carries the item to a client with this session key. */
  function Body(p: C.Primitives, key: C.SessionKey, item: Sent): seq<byte>
    requires C.Sound(p) && Sendable(item)
  {
    match item
    case ConnectionID(id) => [0, LSG_CONNECTION_ID_MESSAGE] + Encode(true, U64(id))
    case Echo => []
    case Reply(tx, outcome) => E.ClearBody(OutcomeBytes(tx, outcome))
    case Push(seed, sender, name, message) => P.PushBody(p, key, seed, sender, name, message)
  }

  // ---------- sizes ----------

  const MAX_RESULT := 357
  const MAX_PUSH := 4200

  function Size(f: Field): nat {
    match f
    case U8(_) => 2
    case I32(_) => 5
    case U32(_) => 5
    case U64(_) => 9
    case Str(s) => |s| + 2
    case Blob(b) => |b| + 6
  }

  lemma FieldSize(f: Field)
    requires Writable(f)
    ensures |Encode(true, f)| == Size(f)
  {}

  function Sizes(fs: seq<Field>): nat {
    if fs == [] then 0 else Size(fs[0]) + Sizes(fs[1..])
  }

  lemma {:induction false} FieldsSize(fs: seq<Field>)
    requires AllWritable(fs)
    ensures |EncodeAll(true, fs)| == Sizes(fs)
  {
    if fs != [] {
      FieldSize(fs[0]);
      FieldsSize(fs[1..]);
    }
  }

  lemma SizesCons(f: Field, fs: seq<Field>)
    ensures Sizes([f] + fs) == Size(f) + Sizes(fs)
  {
    assert ([f] + fs)[1..] == fs;
  }

  lemma {:induction false} SizesAppend(fs: seq<Field>, gs: seq<Field>)
    ensures Sizes(fs + gs) == Sizes(fs) + Sizes(gs)
  {
    if fs == [] {
      assert fs + gs == gs;
    } else {
      assert (fs + gs)[0] == fs[0] && (fs + gs)[1..] == fs[1..] + gs;
      SizesAppend(fs[1..], gs);
    }
  }

  lemma AttributesSize(a: Attributes)
    requires |a.text130| <= MAX_TEXT
    ensures Sizes(Mm.AttributeFields(a)) <= 67
  {
    hide Sizes;
    var f, g, h := U32(a.u154), U32(a.u158), I32(a.i15c);
    SizesNone();
    SizesCons(h, []);
    SizesCons(g, [h]);
    SizesCons(f, [g, h]);
    SizesCons(Str(a.text130), [f, g, h]);
    SizesCons(U64(a.u128), [Str(a.text130), f, g, h]);
    SizesCons(U32(a.u120), [U64(a.u128), Str(a.text130), f, g, h]);
    SizesCons(U32(a.u11c), [U32(a.u120), U64(a.u128), Str(a.text130), f, g, h]);
    assert [h] + [] == [h];
    assert [g] + [h] == [g, h];
    assert [f] + [g, h] == [f, g, h];
    assert [Str(a.text130)] + [f, g, h] == [Str(a.text130), f, g, h];
    assert [U64(a.u128)] + [Str(a.text130), f, g, h] == [U64(a.u128), Str(a.text130), f, g, h];
    assert [U32(a.u120)] + [U64(a.u128), Str(a.text130), f, g, h] == [U32(a.u120), U64(a.u128), Str(a.text130), f, g, h];
    assert [U32(a.u11c)] + [U32(a.u120), U64(a.u128), Str(a.text130), f, g, h] == Mm.AttributeFields(a);
  }

  lemma SizesNone()
    ensures Sizes([]) == 0
  {}

  lemma HeadSize(info: Info)
    requires |info.hostAddress| <= MAX_HOST_ADDRESS
    ensures Sizes([Blob(info.hostAddress), Blob(info.sessionID), U32(info.gameType), U32(info.maxPlayers), U32(info.numPlayers)]) <= 290
  {
    hide Sizes;
    var a, b, c, d, e := Blob(info.hostAddress), Blob(info.sessionID), U32(info.gameType), U32(info.maxPlayers), U32(info.numPlayers);
    SizesNone();
    SizesCons(e, []);
    SizesCons(d, [e]);
    SizesCons(c, [d, e]);
    SizesCons(b, [c, d, e]);
    SizesCons(a, [b, c, d, e]);
    assert [e] + [] == [e] && [d] + [e] == [d, e] && [c] + [d, e] == [c, d, e];
    assert [b] + [c, d, e] == [b, c, d, e] && [a] + [b, c, d, e] == [a, b, c, d, e];
  }

  lemma ResultSize(info: Info)
    requires ResultFits(info)
    ensures AllWritable(Mm.ResultFields(info)) && |EncodeAll(true, Mm.ResultFields(info))| <= MAX_RESULT
  {
    hide Sizes, EncodeAll;
    Mm.ResultConforms(info);
    FieldsSize(Mm.ResultFields(info));
    SizesAppend([Blob(info.hostAddress), Blob(info.sessionID), U32(info.gameType), U32(info.maxPlayers), U32(info.numPlayers)],
                Mm.AttributeFields(info.attributes));
    HeadSize(info);
    AttributesSize(info.attributes);
  }

  lemma {:induction false} ResultsSize(results: seq<Info>)
    requires forall i | 0 <= i < |results| :: ResultFits(results[i])
    ensures |ResultBytes(results)| <= MAX_RESULT * |results|
  {
    hide EncodeAll;
    if results != [] {
      ResultSize(results[|results| - 1]);
      ResultsSize(results[..|results| - 1]);
    }
  }

  lemma TaskReplySize(tx: u64, task: byte, status: u32, count: u32, total: u32)
    ensures 0 < |L.TaskReply(tx, task, status, count, total)| <= 27
  {
    hide Sizes, EncodeAll;
    L.ReplyWritable(tx, task, status, count, total);
    FieldsSize(L.ReplyFields(tx, task, status, count, total));
    SizesNone();
    SizesCons(U32(total), []);
    var tail := if count != 0 then [U32(total)] else [];
    assert [U32(total)] + [] == [U32(total)];
    SizesCons(U32(count), tail);
    SizesCons(U8(task), [U32(count)] + tail);
    SizesCons(U32(status), [U8(task)] + ([U32(count)] + tail));
    SizesCons(U64(tx), [U32(status)] + ([U8(task)] + ([U32(count)] + tail)));
    assert [U64(tx)] + ([U32(status)] + ([U8(task)] + ([U32(count)] + tail))) == L.ReplyFields(tx, task, status, count, total);
  }

  lemma OutcomeSize(tx: u64, outcome: Outcome)
    requires Fits(Reply(tx, outcome))
    ensures |OutcomeBytes(tx, outcome)| <= 27 + MAX_RESULT * MAX_FIND_RESULTS
  {
    hide L.TaskReply, Encode, EncodeAll, ResultBytes;
    match outcome
    case Plain(task) => TaskReplySize(tx, task, L.STATUS_NO_ERROR, 0, 0);
    case Created(id) =>
      TaskReplySize(tx, Mm.TASK_CREATE, L.STATUS_NO_ERROR, 1, 1);
      FieldSize(Blob(id));
    case Found(results, total) =>
      TaskReplySize(tx, Mm.TASK_FIND, L.STATUS_NO_ERROR, |results|, total);
      ResultsSize(results);
  }

  lemma PushSize(p: C.Primitives, key: C.SessionKey, seed: u32, sender: u64, name: seq<byte>, message: seq<byte>)
    requires C.Sound(p) && P.Pushable(name, message)
    ensures var n := |P.PushBody(p, key, seed, sender, name, message)|; n <= MAX_PUSH && n % 8 == 5
  {
    hide Sizes, EncodeAll, C.Chain, C.Sound, C.PadTo3DESBlock;
    P.PushDecrypts(p, key, seed, sender, name, message);
    var fields := P.PushFields(sender, name, message);
    P.PushConforms(sender, name, message);
    FieldsSize(fields);
    SizesNone();
    SizesCons(Blob(message), []);
    SizesCons(Str(name), [Blob(message)]);
    SizesCons(U64(sender), [Str(name), Blob(message)]);
    SizesCons(U32(P.INSTANT_MESSAGE_EVENT), [U64(sender), Str(name), Blob(message)]);
    assert [Blob(message)] + [] == [Blob(message)] && [Str(name)] + [Blob(message)] == [Str(name), Blob(message)];
    assert [U64(sender)] + [Str(name), Blob(message)] == [U64(sender), Str(name), Blob(message)];
    assert [U32(P.INSTANT_MESSAGE_EVENT)] + [U64(sender), Str(name), Blob(message)] == fields;
    var clear := P.PushPlaintext(sender, name, message);
    C.PaddingExact(clear, C.PadTo3DESBlock(clear));
  }

  /** Everything a connection sends can be framed: never of the reserved length, and far below the limit. */
  lemma BodiesAreFrameable(p: C.Primitives, key: C.SessionKey, item: Sent)
    requires C.Sound(p) && Sendable(item)
    ensures var body := Body(p, key, item);
            F.Writable(body) && |body| <= F.DEFAULT_MAX_BODY && (item.Push? ==> |body| % 8 == 5)
  {
    hide C.Sound, C.Chain, OutcomeBytes, P.PushBody, EncodeAll, E.ClearBody;
    match item
    case ConnectionID(id) => FieldSize(U64(id));
    case Echo =>
    case Reply(tx, outcome) =>
      OutcomeSize(tx, outcome);
      E.ClearBodyShape(OutcomeBytes(tx, outcome));
    case Push(seed, sender, name, message) => PushSize(p, key, seed, sender, name, message);
  }

  // ---------- replies read back ----------

  function ManyKinds(n: nat): seq<Kind> {
    if n == 0 then [] else ManyKinds(n - 1) + Mm.RESULT_KINDS
  }

  function ManyFields(results: seq<Info>): seq<Field> {
    if results == [] then []
    else ManyFields(results[..|results| - 1]) + Mm.ResultFields(results[|results| - 1])
  }

  /** What a client expects behind the message type of a reply to its task. */
  function OutcomeKinds(outcome: Outcome): seq<Kind> {
    match outcome
    case Plain(_) => [KU64, KU32, KU8, KU32]
    case Created(_) => [KU64, KU32, KU8, KU32, KU32] + [KBlob(SESSION_ID_SIZE)]
    case Found(results, _) =>
      ([KU64, KU32, KU8, KU32] + if results == [] then [] else [KU32]) + ManyKinds(|results|)
  }

  function OutcomeFields(tx: u64, outcome: Outcome): seq<Field>
    requires Fits(Reply(tx, outcome))
  {
    match outcome
    case Plain(task) => L.ReplyFields(tx, task, L.STATUS_NO_ERROR, 0, 0)
    case Created(id) => L.ReplyFields(tx, Mm.TASK_CREATE, L.STATUS_NO_ERROR, 1, 1) + [Blob(id)]
    case Found(results, total) =>
      L.ReplyFields(tx, Mm.TASK_FIND, L.STATUS_NO_ERROR, |results|, total) + ManyFields(results)
  }

  lemma {:induction false} ManyConform(results: seq<Info>)
    requires forall i | 0 <= i < |results| :: ResultFits(results[i])
    ensures AllConform(ManyKinds(|results|), ManyFields(results)) && AllWritable(ManyFields(results))
    ensures ResultBytes(results) == EncodeAll(true, ManyFields(results))
  {
    hide EncodeAll, AllConform;
    if results == [] {
      NoFields();
    } else {
      var init, last := results[..|results| - 1], results[|results| - 1];
      ManyConform(init);
      Mm.ResultConforms(last);
      ConformAppend(ManyKinds(|init|), ManyFields(init), Mm.RESULT_KINDS, Mm.ResultFields(last));
      EncodeAllAppend(true, ManyFields(init), Mm.ResultFields(last));
    }
  }

  lemma HeadConforms(tx: u64, task: byte, count: u32, total: u32)
    ensures AllConform([KU64, KU32, KU8, KU32] + if count == 0 then [] else [KU32],
                       L.ReplyFields(tx, task, L.STATUS_NO_ERROR, count, total))
  {}

  lemma OneBlob(id: SessionID)
    ensures AllConform([KBlob(SESSION_ID_SIZE)], [Blob(id)]) && EncodeAll(true, [Blob(id)]) == Encode(true, Blob(id))
  {
    assert Encode(true, Blob(id)) + [] == Encode(true, Blob(id));
  }

  /** The bytes of a reply are the encoding of its fields, of the kinds its task has. */
  ghost predicate EncodedAs(bytes: seq<byte>, ks: seq<Kind>, fs: seq<Field>) {
    AllConform(ks, fs) && AllWritable(fs) && bytes == [L.TASK_REPLY_MESSAGE] + EncodeAll(true, fs)
  }

  lemma PlainEncoded(tx: u64, task: byte)
    ensures EncodedAs(OutcomeBytes(tx, Plain(task)), OutcomeKinds(Plain(task)), OutcomeFields(tx, Plain(task)))
  {
    hide EncodeAll, AllConform;
    HeadConforms(tx, task, 0, 0);
    assert [KU64, KU32, KU8, KU32] + [] == [KU64, KU32, KU8, KU32];
    WritableFields(OutcomeKinds(Plain(task)), OutcomeFields(tx, Plain(task)));
  }

  lemma BehindHead(ks: seq<Kind>, head: seq<Field>, ls: seq<Kind>, fs: seq<Field>, bytes: seq<byte>)
    requires EncodedAs(bytes, ks, head) && AllConform(ls, fs) && AllWritable(fs)
    ensures EncodedAs(bytes + EncodeAll(true, fs), ks + ls, head + fs)
  {
    hide EncodeAll, AllConform;
    ConformAppend(ks, head, ls, fs);
    EncodeAllAppend(true, head, fs);
    assert ([L.TASK_REPLY_MESSAGE] + EncodeAll(true, head)) + EncodeAll(true, fs)
        == [L.TASK_REPLY_MESSAGE] + (EncodeAll(true, head) + EncodeAll(true, fs));
  }

  lemma HeadEncoded(tx: u64, task: byte, count: u32, total: u32)
    ensures EncodedAs(L.TaskReply(tx, task, L.STATUS_NO_ERROR, count, total),
                      [KU64, KU32, KU8, KU32] + if count == 0 then [] else [KU32],
                      L.ReplyFields(tx, task, L.STATUS_NO_ERROR, count, total))
  {
    hide EncodeAll, AllConform, L.ReplyFields;
    L.ReplyWritable(tx, task, L.STATUS_NO_ERROR, count, total);
    HeadConforms(tx, task, count, total);
  }

  lemma OutcomeEncoded(tx: u64, outcome: Outcome)
    requires Fits(Reply(tx, outcome))
    ensures EncodedAs(OutcomeBytes(tx, outcome), OutcomeKinds(outcome), OutcomeFields(tx, outcome))
  {
    hide EncodeAll, AllConform, Encode, ManyKinds, ManyFields, ResultBytes, EncodedAs, L.ReplyFields, L.TaskReply;
    match outcome
    case Plain(task) => PlainEncoded(tx, task);
    case Created(id) =>
      HeadEncoded(tx, Mm.TASK_CREATE, 1, 1);
      OneBlob(id);
      assert [KU64, KU32, KU8, KU32] + [KU32] == [KU64, KU32, KU8, KU32, KU32];
      BehindHead([KU64, KU32, KU8, KU32, KU32], L.ReplyFields(tx, Mm.TASK_CREATE, L.STATUS_NO_ERROR, 1, 1),
                 [KBlob(SESSION_ID_SIZE)], [Blob(id)], L.TaskReply(tx, Mm.TASK_CREATE, L.STATUS_NO_ERROR, 1, 1));
    case Found(results, total) =>
      HeadEncoded(tx, Mm.TASK_FIND, |results|, total);
      ManyConform(results);
      BehindHead([KU64, KU32, KU8, KU32] + if |results| == 0 then [] else [KU32],
                 L.ReplyFields(tx, Mm.TASK_FIND, L.STATUS_NO_ERROR, |results|, total),
                 ManyKinds(|results|), ManyFields(results),
                 L.TaskReply(tx, Mm.TASK_FIND, L.STATUS_NO_ERROR, |results|, total));
  }

  /**
    The client reads back every field of a reply, up to fifty results included; at most one zero
    byte follows.
   */
  lemma ReplyReadsBack(p: C.Primitives, key: C.SessionKey, tx: u64, outcome: Outcome)
    requires C.Sound(p) && Sendable(Reply(tx, outcome))
    ensures var body := Body(p, key, Reply(tx, outcome));
            && |body| >= 2 && body[0] == 0 && body[1] == L.TASK_REPLY_MESSAGE
            && var all := DecodeAll(true, OutcomeKinds(outcome), body[2..]);
               all.Some? && all.value.fields == OutcomeFields(tx, outcome)
               && |all.value.rest| <= 1 && AllZero(all.value.rest)
  {
    hide C.Sound, DecodeAll, EncodeAll, OutcomeBytes, OutcomeFields, OutcomeKinds, AllConform;
    OutcomeEncoded(tx, outcome);
    var reply := OutcomeBytes(tx, outcome);
    var body := Body(p, key, Reply(tx, outcome));
    E.ClearBodyShape(reply);
    hide E.ClearBody;
    var rest := body[1..][|reply|..];
    var fields := EncodeAll(true, OutcomeFields(tx, outcome));
    assert body[1..] == reply + rest;
    assert body[1..][0] == reply[0] && body[2..] == body[1..][1..];
    assert body[2..] == fields + rest;
    DecodeAllComplete(true, OutcomeKinds(outcome), OutcomeFields(tx, outcome), rest);
  }

  // ---------- whole connections ----------

  /** The transaction number a client finds in a record, if the record is a task reply. */
  function TransactionOf(r: F.Record): Option<u64> {
    if !r.Frame? || |r.body| < 2 || r.body[0] != 0 || r.body[1] != L.TASK_REPLY_MESSAGE then None
    else
      match Decode(true, KU64, r.body[2..])
      case Got(U64(tx), _) => Some(tx)
      case _ => None
  }

  lemma FirstKind(outcome: Outcome)
    ensures OutcomeKinds(outcome) != [] && OutcomeKinds(outcome)[0] == KU64
  {}

  lemma FirstField(tx: u64, outcome: Outcome)
    requires Fits(Reply(tx, outcome))
    ensures OutcomeFields(tx, outcome) != [] && OutcomeFields(tx, outcome)[0] == U64(tx)
  {}

  lemma FirstDecoded(ks: seq<Kind>, s: seq<byte>)
    requires ks != [] && DecodeAll(true, ks, s).Some?
    ensures Decode(true, ks[0], s).Got? && DecodeAll(true, ks, s).value.fields != []
    ensures DecodeAll(true, ks, s).value.fields[0] == Decode(true, ks[0], s).field
  {
    hide Decode;
  }

  /** Exactly the task replies are recognised as such, each with its own number. */
  lemma TransactionRead(p: C.Primitives, key: C.SessionKey, item: Sent)
    requires C.Sound(p) && Sendable(item)
    ensures TransactionOf(F.RecordOf(Body(p, key, item))) == if item.Reply? then Some(item.tx) else None
  {
    hide C.Sound, Decode, DecodeAll, OutcomeKinds, OutcomeFields, OutcomeBytes, P.PushBody;
    var body := Body(p, key, item);
    match item
    case ConnectionID(id) => assert body[1] == LSG_CONNECTION_ID_MESSAGE;
    case Echo =>
    case Reply(tx, outcome) =>
      ReplyReadsBack(p, key, tx, outcome);
      FirstKind(outcome);
      FirstField(tx, outcome);
      FirstDecoded(OutcomeKinds(outcome), body[2..]);
    case Push(seed, sender, name, message) =>
      P.PushDecrypts(p, key, seed, sender, name, message);
  }

  /** Everything written, frame after frame. */
  function Wire(p: C.Primitives, key: C.SessionKey, items: seq<Sent>): seq<byte>
    requires C.Sound(p) && forall i | 0 <= i < |items| :: Sendable(items[i])
  {
    if items == [] then []
    else
      var last := |items| - 1;
      BodiesAreFrameable(p, key, items[last]);
      Wire(p, key, items[..last]) + F.FrameBytes(Body(p, key, items[last]))
  }

  function Records(p: C.Primitives, key: C.SessionKey, items: seq<Sent>): (rs: seq<F.Record>)
    requires C.Sound(p) && forall i | 0 <= i < |items| :: Sendable(items[i])
    ensures |rs| == |items| && forall i | 0 <= i < |items| :: rs[i] == F.RecordOf(Body(p, key, items[i]))
  {
    seq(|items|, i requires 0 <= i < |items| => F.RecordOf(Body(p, key, items[i])))
  }

  lemma {:induction false} WireIsRecords(p: C.Primitives, key: C.SessionKey, items: seq<Sent>)
    requires C.Sound(p) && forall i | 0 <= i < |items| :: Sendable(items[i])
    ensures F.AllReceivable(Records(p, key, items), 0)
    ensures Wire(p, key, items) == F.EncodeAll(Records(p, key, items), 0)
  {
    hide Body, Sendable, C.Sound, F.FrameBytes, F.Encode, F.Receivable, F.RecordOf;
    if items != [] {
      var init, item := items[..|items| - 1], items[|items| - 1];
      WireIsRecords(p, key, init);
      BodiesAreFrameable(p, key, item);
      var body := Body(p, key, item);
      F.FrameBytesAreRecord(body, 0);
      var r := F.RecordOf(body);
      SingleRecord(r);
      F.EncodeAllAppend(Records(p, key, init), [r], 0);
      assert Records(p, key, items) == Records(p, key, init) + [r];
    }
  }

  lemma SingleRecord(r: F.Record)
    requires F.Receivable(r, 0)
    ensures F.AllReceivable([r], 0) && F.EncodeAll([r], 0) == F.Encode(r, 0)
  {
    assert [r][1..] == [];
    assert F.Encode(r, 0) + [] == F.Encode(r, 0);
  }

  /** The transaction numbers found in a stream of records, in order. */
  function Transactions(rs: seq<F.Record>): seq<nat> {
    if rs == [] then []
    else
      Transactions(rs[..|rs| - 1])
      + match TransactionOf(rs[|rs| - 1]) case Some(tx) => [tx] case None => []
  }

  lemma {:induction false} TransactionsAre(p: C.Primitives, key: C.SessionKey, items: seq<Sent>)
    requires C.Sound(p) && forall i | 0 <= i < |items| :: Sendable(items[i])
    ensures Transactions(Records(p, key, items)) == ReplyNumbers(items)
  {
    hide Body, Sendable, C.Sound, TransactionOf, F.RecordOf;
    if items != [] {
      var init, item := items[..|items| - 1], items[|items| - 1];
      TransactionsAre(p, key, init);
      TransactionRead(p, key, item);
      assert Records(p, key, items)[..|items| - 1] == Records(p, key, init);
    }
  }

  /**
    Whatever a connection has sent parses to whole records, one per item, and the task replies among
    them carry the numbers of the replies in order.
   */
  lemma OutputParses(p: C.Primitives, key: C.SessionKey, items: seq<Sent>)
    requires C.Sound(p) && forall i | 0 <= i < |items| :: Sendable(items[i])
    ensures F.ParseAll(Wire(p, key, items), 0) == Some(Records(p, key, items))
    ensures Transactions(Records(p, key, items)) == ReplyNumbers(items)
  {
    WireIsRecords(p, key, items);
    hide *;
    F.ParseAllExact(Wire(p, key, items), 0, Records(p, key, items));
    TransactionsAre(p, key, items);
  }
}
