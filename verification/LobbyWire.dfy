/**
  The lobby's messages byte by byte: what the codecs write and accept, said in plain bytes and digits to
  base 256 (Bytes.DigitOfLE says which byte of LE holds which digit).
 */
module LobbyWire {
  import opened Bytes
  import opened MatchmakingTypes
  import opened Outputs
  import opened ByteBuffer
  import C = Crypto
  import E = Envelope
  import F = Frame
  import L = EventLog
  import Mm = Matchmaking
  import O = Outbox
  import P = Messaging
  import PaddedFields
  import Seqs

  // ---------- fields ----------

  /** One field: its type, then its value, least significant byte first; a blob's length is a typed integer. */
  function Typed(f: Field): seq<byte> {
    match f
    case U8(v) => [0x03, v]
    case I32(v) => [0x07] + LE(if v < 0 then v + 0x1_0000_0000 else v, 4)
    case U32(v) => [0x08] + LE(v, 4)
    case U64(v) => [0x0a] + LE(v, 8)
    case Str(s) => [0x10] + s + [0]
    case Blob(b) => [0x13, 0x08] + LE(|b|, 4) + b
  }

  function AllTyped(fs: seq<Field>): seq<byte> {
    if fs == [] then [] else Typed(fs[0]) + AllTyped(fs[1..])
  }

  lemma FieldOnWire(f: Field)
    requires Writable(f)
    ensures Encode(true, f) == Typed(f)
  {
    hide LE;
  }

  /** The encoding of fields is one typed field after the other. */
  lemma {:induction false} FieldsOnWire(fs: seq<Field>)
    requires AllWritable(fs)
    ensures EncodeAll(true, fs) == AllTyped(fs)
  {
    hide Typed, Encode;
    if fs != [] {
      FieldOnWire(fs[0]);
      FieldsOnWire(fs[1..]);
    }
  }

  // ---------- requests ----------

  function Attributed(a: Attributes): seq<Field> {
    [U32(a.u11c), U32(a.u120), U64(a.u128), Str(a.text130), U32(a.u154), U32(a.u158), I32(a.i15c)]
  }

  /** The fields of a request: creation is task 1, update 2, deletion 3 and search 5. */
  function RequestList(q: Mm.Request): seq<Field> {
    if q.task == 1 then
      [U8(1), Blob(q.info.hostAddress), U32(q.info.gameType), U32(q.info.maxPlayers)] + Attributed(q.info.attributes)
    else if q.task == 2 then
      [U8(2), Blob(q.sessionID), Blob(q.info.hostAddress), U32(q.info.gameType), U32(q.info.maxPlayers)]
      + Attributed(q.info.attributes)
    else if q.task == 3 then [U8(3), Blob(q.sessionID)]
    else [U8(5), U32(1), U32(q.offset), U32(q.maxResults), U32(q.query.key), I32(q.query.value)]
  }

  lemma RequestIs(q: Mm.Request)
    requires Mm.InBounds(q)
    ensures Mm.Fields(q) == RequestList(q)
  {
    assert Attributed(q.info.attributes) == Mm.AttributeFields(q.info.attributes);
    hide Attributed, Mm.AttributeFields;
  }

  /** Details within bounds, without what the server supplies. */
  predicate Announced(info: Info) {
    && |info.hostAddress| <= 255 && |info.attributes.text130| <= 31
    && (forall i | 0 <= i < |info.attributes.text130| :: info.attributes.text130[i] != 0)
    && info.sessionID == [0, 0, 0, 0, 0, 0, 0, 0] && info.numPlayers == 0
  }

  /** A request the server serves; what its task does not use is zero. */
  predicate Serviceable(q: Mm.Request) {
    var none := Info([], [0, 0, 0, 0, 0, 0, 0, 0], 0, 0, 0, Attributes(0, 0, 0, [], 0, 0, 0));
    && (q.task == 1 || q.task == 5 ==> q.sessionID == [0, 0, 0, 0, 0, 0, 0, 0])
    && (q.task == 1 || q.task == 2 ==> Announced(q.info))
    && (q.task == 3 || q.task == 5 ==> q.info == none)
    && (q.task == 5 ==> q.numParams == 1 && q.maxResults <= 50)
    && (q.task != 5 ==> q.numParams == 0 && q.offset == 0 && q.maxResults == 0 && q.query == Query(0, 0))
    && q.task in {1, 2, 3, 5}
  }

  lemma ServiceableIs(q: Mm.Request)
    ensures Serviceable(q) <==> Mm.InBounds(q)
  {
    assert Announced(q.info) <==> Mm.RequestInfo(q.info);
    hide Announced, Mm.RequestInfo;
  }

  /** A payload is accepted as a request exactly when it is the fields of a serviceable one and something accepted as padding. */
  lemma RequestOnWire(payload: seq<byte>, seed: u32, q: Mm.Request)
    ensures Mm.Accepts(payload, seed, q)
            <==> Serviceable(q) && exists rest :: E.AcceptedPadding(rest, seed) && payload == AllTyped(RequestList(q)) + rest
  {
    hide EncodeAll, AllTyped, RequestList, Serviceable, Mm.Fields, Mm.InBounds, E.AcceptedPadding;
    ServiceableIs(q);
    if Mm.InBounds(q) {
      Mm.FieldsConform(q);
      RequestIs(q);
      FieldsOnWire(Mm.Fields(q));
    }
  }

  lemma EventIs(payload: seq<byte>, q: L.EventLogRequest, rest: seq<byte>)
    ensures PaddedFields.Followed(payload, L.EVENT_KINDS, L.EventFields(q), rest)
            <==> |q.blob| <= 0x1_0000 && payload == AllTyped([U8(q.task), Blob(q.blob), U32(q.category)]) + rest
  {
    hide EncodeAll, AllTyped;
    if |q.blob| <= 0x1_0000 { FieldsOnWire(L.EventFields(q)); }
    assert Conforms(L.EVENT_KINDS[1], L.EventFields(q)[1]) <==> |q.blob| <= 0x1_0000;
  }

  /** The same for an event. */
  lemma EventOnWire(payload: seq<byte>, seed: u32, q: L.EventLogRequest)
    ensures L.Accepts(payload, seed, q)
            <==> q.task == 2 && |q.blob| <= 0x1_0000
                 && exists rest :: E.AcceptedPadding(rest, seed) && payload == AllTyped([U8(2), Blob(q.blob), U32(q.category)]) + rest
  {
    hide AllTyped, PaddedFields.Followed, E.AcceptedPadding;
    forall rest { EventIs(payload, q, rest); }
  }

  lemma MessageIs(payload: seq<byte>, q: P.MessagingRequest, rest: seq<byte>)
    ensures PaddedFields.Followed(payload, P.MESSAGE_KINDS, P.MessageFields(q), rest)
            <==> |q.message| <= 4096 && payload == AllTyped([U8(q.task), U64(q.recipient), Blob(q.message)]) + rest
  {
    hide EncodeAll, AllTyped;
    if |q.message| <= 4096 { FieldsOnWire(P.MessageFields(q)); }
    assert Conforms(P.MESSAGE_KINDS[2], P.MessageFields(q)[2]) <==> |q.message| <= 4096;
  }

  /** And for a message to another client, which fills whole blocks with the code and the service before it. */
  lemma MessageOnWire(payload: seq<byte>, seed: u32, q: P.MessagingRequest)
    ensures P.Encodes(payload, seed, q)
            <==> q.task == 0x0e && |q.message| <= 4096 && |payload| % 8 == 3
                 && exists rest :: E.ValidPadding(rest, seed) && payload == AllTyped([U8(0x0e), U64(q.recipient), Blob(q.message)]) + rest
  {
    hide AllTyped, PaddedFields.Followed, E.ValidPadding;
    forall rest { MessageIs(payload, q, rest); }
  }

  // ---------- replies ----------

  function ResultList(info: Info): seq<Field> {
    [Blob(info.hostAddress), Blob(info.sessionID), U32(info.gameType), U32(info.maxPlayers), U32(info.numPlayers)]
    + Attributed(info.attributes)
  }

  function ResultLists(results: seq<Info>): seq<byte> {
    if results == [] then [] else AllTyped(ResultList(results[0])) + ResultLists(results[1..])
  }

  lemma ResultOnWire(info: Info)
    requires ResultFits(info)
    ensures AllWritable(Mm.ResultFields(info)) && EncodeAll(true, Mm.ResultFields(info)) == AllTyped(ResultList(info))
  {
    hide EncodeAll, AllTyped;
    Mm.ResultConforms(info);
    FieldsOnWire(Mm.ResultFields(info));
  }

  lemma {:induction false} ListsSnoc(results: seq<Info>, last: Info)
    ensures ResultLists(results + [last]) == ResultLists(results) + AllTyped(ResultList(last))
  {
    hide AllTyped, ResultList;
    if results == [] {
      assert [] + [last] == [last];
      assert AllTyped(ResultList(last)) + [] == AllTyped(ResultList(last));
    } else {
      assert (results + [last])[0] == results[0] && (results + [last])[1..] == results[1..] + [last];
      ListsSnoc(results[1..], last);
    }
  }

  lemma {:induction false} ResultsOnWire(results: seq<Info>)
    requires forall i | 0 <= i < |results| :: ResultFits(results[i])
    ensures O.ResultBytes(results) == ResultLists(results)
  {
    hide EncodeAll, AllTyped, ResultList, Mm.ResultFields;
    if results != [] {
      var init, last := results[..|results| - 1], results[|results| - 1];
      ResultsOnWire(init);
      ResultOnWire(last);
      ListsSnoc(init, last);
      assert results == init + [last];
    }
  }

  /** The head of a reply: message type, transaction number, status 0, task and number of results, and the total if there are any. */
  function Head(tx: u64, task: byte, count: u32, total: u32): seq<byte> {
    [1] + AllTyped([U64(tx), U32(0), U8(task), U32(count)]) + if count == 0 then [] else AllTyped([U32(total)])
  }

  lemma HeadOnWire(tx: u64, task: byte, count: u32, total: u32)
    ensures L.TaskReply(tx, task, L.STATUS_NO_ERROR, count, total) == Head(tx, task, count, total)
  {
    hide AllTyped, EncodeAll;
    L.ReplyWritable(tx, task, L.STATUS_NO_ERROR, count, total);
    FieldsOnWire(L.ReplyFields(tx, task, L.STATUS_NO_ERROR, count, total));
    TypedAppend([U64(tx), U32(0), U8(task), U32(count)], [U32(total)]);
    assert [U64(tx), U32(0), U8(task), U32(count)] + [] == [U64(tx), U32(0), U8(task), U32(count)];
  }

  lemma {:induction false} TypedAppend(fs: seq<Field>, gs: seq<Field>)
    ensures AllTyped(fs + gs) == AllTyped(fs) + AllTyped(gs)
  {
    assert AllTyped([]) == [];
    hide Typed, AllTyped;
    if fs == [] {
      assert fs + gs == gs;
    } else {
      TypedAppend(fs[1..], gs);
      TypedCons(fs[0], fs[1..]);
      TypedCons(fs[0], fs[1..] + gs);
      Seqs.HeadTail(fs, gs);
      Seqs.Associative(Typed(fs[0]), AllTyped(fs[1..]), AllTyped(gs));
    }
  }

  lemma TypedCons(f: Field, fs: seq<Field>)
    ensures AllTyped([f] + fs) == Typed(f) + AllTyped(fs)
  {
    assert ([f] + fs)[1..] == fs;
  }

  lemma OneTyped(f: Field)
    ensures AllTyped([f]) == Typed(f)
  {
    hide Typed;
    assert [f][1..] == [] && Typed(f) + [] == Typed(f);
  }

  /** A plain reply is a head without results, a creation is answered by the new ID, a search by a page and the total. */
  lemma ReplyOnWire(tx: u64, outcome: Outcome)
    requires Fits(Reply(tx, outcome))
    ensures O.OutcomeBytes(tx, outcome)
            == match outcome
               case Plain(task) => Head(tx, task, 0, 0)
               case Created(id) => Head(tx, 1, 1, 1) + ([0x13, 0x08, 8, 0, 0, 0] + id)
               case Found(results, total) => Head(tx, 5, |results|, total) + ResultLists(results)
  {
    hide Head, ResultLists, L.TaskReply, O.ResultBytes;
    match outcome
    case Plain(task) => HeadOnWire(tx, task, 0, 0);
    case Created(id) =>
      HeadOnWire(tx, 1, 1, 1);
      FieldOnWire(Blob(id));
      Eight();
    case Found(results, total) =>
      HeadOnWire(tx, 5, |results|, total);
      ResultsOnWire(results);
  }

  lemma Eight()
    ensures LE(8, 4) == [8, 0, 0, 0] && LE(200, 4) == [200, 0, 0, 0] && LE(0, 4) == [0, 0, 0, 0]
  {}

  lemma Places(tx: seq<byte>, status: seq<byte>, task: byte, count: seq<byte>, tail: seq<byte>)
    requires |tx| == 8 && |status| == 4 && |count| == 4
    ensures var h := [1] + (([0x0a] + tx) + (([0x08] + status) + ([0x03, task] + ([0x08] + count)))) + tail;
            && h[0] == 1 && h[2..10] == tx && h[11..15] == status && h[16] == task && h[18..22] == count && h[22..] == tail
  {
    var h := [1] + (([0x0a] + tx) + (([0x08] + status) + ([0x03, task] + ([0x08] + count)))) + tail;
    assert h == [1, 0x0a] + tx + [0x08] + status + [0x03, task, 0x08] + count + tail;
  }

  lemma FourTyped(f: Field, g: Field, k: Field, m: Field)
    ensures AllTyped([f, g, k, m]) == Typed(f) + (Typed(g) + (Typed(k) + Typed(m)))
  {
    hide Typed;
    OneTyped(m);
    assert [f, g, k, m][1..] == [g, k, m] && [g, k, m][1..] == [k, m] && [k, m][1..] == [m];
    assert AllTyped([k, m]) == Typed(k) + Typed(m);
    assert AllTyped([g, k, m]) == Typed(g) + AllTyped([k, m]);
    assert AllTyped([f, g, k, m]) == Typed(f) + AllTyped([g, k, m]);
  }

  /** Where the fields of a head are. */
  lemma HeadPlaces(tx: u64, task: byte, count: u32, total: u32)
    ensures var h := Head(tx, task, count, total);
            && |h| == (if count == 0 then 22 else 27)
            && h[0] == 1 && h[2..10] == LE(tx, 8) && h[11..15] == [0, 0, 0, 0] && h[16] == task && h[18..22] == LE(count, 4)
            && h[22..] == if count == 0 then [] else [0x08] + LE(total, 4)
  {
    hide LE, AllTyped;
    Eight();
    FourTyped(U64(tx), U32(0), U8(task), U32(count));
    OneTyped(U32(total));
    Places(LE(tx, 8), LE(0, 4), task, LE(count, 4), if count == 0 then [] else AllTyped([U32(total)]));
  }

  /** What a client finds that learns the number of results from the head: that many matches, one after the other. */
  function ReadMatches(s: seq<byte>, n: nat): Option<(seq<seq<Field>>, seq<byte>)>
    decreases n
  {
    if n == 0 then Some(([], s))
    else
      match DecodeAll(true, [KBlob(255), KBlob(8), KU32, KU32, KU32, KU32, KU32, KU64, KStr(31), KU32, KU32, KI32], s)
      case None => None
      case Some(one) =>
        match ReadMatches(one.rest, n - 1)
        case None => None
        case Some((others, rest)) => Some(([one.fields] + others, rest))
  }

  lemma {:induction false} MatchesRead(results: seq<Info>, rest: seq<byte>) returns (lists: seq<seq<Field>>)
    requires forall i | 0 <= i < |results| :: ResultFits(results[i])
    ensures ReadMatches(ResultLists(results) + rest, |results|) == Some((lists, rest))
    ensures |lists| == |results| && forall i | 0 <= i < |results| :: lists[i] == ResultList(results[i])
  {
    hide DecodeAll, EncodeAll, AllTyped;
    if results == [] {
      lists := [];
      assert ResultLists(results) + rest == rest;
    } else {
      var tail := ResultLists(results[1..]) + rest;
      var others := MatchesRead(results[1..], rest);
      ResultOnWire(results[0]);
      Mm.ResultDecodes(results[0], tail);
      ResultIs(results[0]);
      hide ResultList, ResultFits, Mm.ResultFields;
      assert ResultLists(results) + rest == AllTyped(ResultList(results[0])) + tail;
      lists := [ResultList(results[0])] + others;
    }
  }

  lemma ResultIs(info: Info)
    ensures Mm.ResultFields(info) == ResultList(info)
    ensures Mm.RESULT_KINDS == [KBlob(255), KBlob(8), KU32, KU32, KU32, KU32, KU32, KU64, KStr(31), KU32, KU32, KI32]
  {}

  /**
    A client that takes the transaction number, the number of results and the total from their places in
    the head, and then reads as many matches as it says, finds what the search answered.
   */
  lemma ClientReads(p: C.Primitives, key: C.SessionKey, tx: u64, results: seq<Info>, total: u32) returns (lists: seq<seq<Field>>, rest: seq<byte>)
    requires C.Sound(p) && O.Sendable(Reply(tx, Found(results, total)))
    ensures var body := O.Body(p, key, Reply(tx, Found(results, total)));
            && |body| >= 23 && body[..2] == [0, 1] && body[17] == 5
            && FromLE(body[3..11]) == tx && FromLE(body[19..23]) == |results|
            && (results != [] ==> |body| >= 28 && FromLE(body[24..28]) == total)
            && ReadMatches(body[if FromLE(body[19..23]) == 0 then 23 else 28..], FromLE(body[19..23])) == Some((lists, rest))
    ensures |lists| == |results| && forall i | 0 <= i < |results| :: lists[i] == ResultList(results[i])
    ensures |rest| <= 1 && AllZero(rest)
  {
    var outcome := Found(results, total);
    var reply := O.OutcomeBytes(tx, outcome);
    hide C.Sound, DecodeAll, LE, FromLE, Head, ResultList, ReadMatches, O.OutcomeBytes;
    ReplyOnWire(tx, outcome);
    HeadPlaces(tx, 5, |results|, total);
    var head := Head(tx, 5, |results|, total);
    Pow256Limits();
    DecodeEncodeLE(tx, 8);
    DecodeEncodeLE(|results|, 4);
    DecodeEncodeLE(total, 4);
    var body := E.ClearBody(reply);
    rest := Repeat(0, if |reply| + 1 == 200 then 1 else 0);
    lists := MatchesRead(results, rest);
    hide ResultLists;
    ClientPlaces(head, ResultLists(results), rest);
  }

  lemma ClientPlaces(head: seq<byte>, lists: seq<byte>, rest: seq<byte>)
    requires |head| == 22 || |head| == 27
    ensures var body := [0] + (head + lists) + rest;
            && body[..2] == [0, head[0]] && body[17] == head[16] && body[3..11] == head[2..10] && body[19..23] == head[18..22]
            && (|head| == 27 ==> body[24..28] == head[22..][1..])
            && body[1 + |head|..] == lists + rest
  {
    var body := [0] + (head + lists) + rest;
    var tail := lists + rest;
    assert body == [0] + (head + tail);
    assert body[1..] == head + tail;
    assert body[1 + |head|..] == tail;
    assert forall i | 0 <= i < |head| :: body[i + 1] == head[i];
    assert body[3..11] == head[2..10] && body[19..23] == head[18..22];
  }

  // ---------- envelopes ----------

  /** What a connection sends besides pushes: its number, an empty body as an echo, and replies behind a zero byte, never 200 bytes long. */
  lemma BodiesOnWire(p: C.Primitives, key: C.SessionKey, id: u64, tx: u64, outcome: Outcome)
    requires C.Sound(p) && O.Sendable(Reply(tx, outcome))
    ensures O.Body(p, key, ConnectionID(id)) == [0, 4, 0x0a] + LE(id, 8)
    ensures O.Body(p, key, Echo) == []
    ensures var reply := O.OutcomeBytes(tx, outcome);
            O.Body(p, key, Reply(tx, outcome)) == [0] + reply + if |reply| == 199 then [0] else []
  {
    FieldOnWire(U64(id));
    hide C.Sound, LE, Encode, O.OutcomeBytes;
    assert [0, 4] + ([0x0a] + LE(id, 8)) == [0, 4, 0x0a] + LE(id, 8);
  }

  /** Request padding: a zero byte, then up to seven copies of the seed's low byte. */
  lemma PaddingOnWire(padding: seq<byte>, seed: u32)
    ensures E.ValidPadding(padding, seed)
            <==> 1 <= |padding| <= 8 && padding[0] == 0 && forall i | 1 <= i < |padding| :: padding[i] == seed % 0x100
  {
    if 1 <= |padding| <= 8 && padding[0] == 0 && forall i | 1 <= i < |padding| :: padding[i] == seed % 0x100 {
      assert padding == [0] + Repeat(seed % 256, |padding| - 1);
    }
  }

  /** A sealed request: the byte 1, the seed, and in chained blocks the code of the payload, the service and the payload. */
  lemma SealOnWire(p: C.Primitives, key: C.SessionKey, body: seq<byte>, q: E.EncryptedRequest)
    requires C.Sound(p) && C.IsBlock(p.deriveIV(q.seed))
    ensures E.Seals(p, key, body, q)
            <==> && |body| >= 5 && body[..5] == [1] + LE(q.seed, 4) && |body| % 8 == 5
                 && C.IsCBC(p, key, p.deriveIV(q.seed), p.mac(key, q.payload) + [q.service] + q.payload, body[5..])
  {
    var plain := E.RequestPlaintext(p, key, q);
    assert plain == p.mac(key, q.payload) + [q.service] + q.payload;
    hide C.Sound, C.IsCBC, C.Chain, LE, E.RequestPlaintext;
    if C.Whole(plain) {
      var sealed := E.Encrypted(p, key, q.seed, plain);
      C.ChainedExactly(p, key, p.deriveIV(q.seed), plain, sealed[5..]);
      assert sealed[..5] == [1] + LE(q.seed, 4);
      if |body| >= 5 {
        C.ChainedExactly(p, key, p.deriveIV(q.seed), plain, body[5..]);
        assert body == body[..5] + body[5..];
      }
    }
  }

  /** A push: the byte 1, the seed, and in chained blocks a signature, the type 2, the event 21, sender, name and message, and zeros. */
  lemma PushOnWire(p: C.Primitives, key: C.SessionKey, seed: u32, sender: u64, name: seq<byte>, message: seq<byte>)
    returns (plain: seq<byte>)
    requires C.Sound(p) && P.Pushable(name, message)
    ensures var clear := [0xef, 0xbe, 0xad, 0xde, 2] + AllTyped([U32(21), U64(sender), Str(name), Blob(message)]);
            clear <= plain && |plain| % 8 == 0 && |plain| - |clear| < 8 && AllZero(plain[|clear|..])
    ensures C.IsBlock(p.deriveIV(seed))
    ensures var body := P.PushBody(p, key, seed, sender, name, message);
            && |body| >= 5 && body[..5] == [1] + LE(seed, 4)
            && C.IsCBC(p, key, p.deriveIV(seed), plain, body[5..])
  {
    hide C.Sound, C.IsCBC, C.Chain, C.PadTo3DESBlock, P.PushPlaintext, AllTyped, LE;
    C.SoundIV(p, seed);
    PlaintextOnWire(sender, name, message);
    var clear := P.PushPlaintext(sender, name, message);
    plain := C.PadTo3DESBlock(clear);
    C.PaddingExact(clear, plain);
    var body := P.PushBody(p, key, seed, sender, name, message);
    assert body[..5] == [1] + LE(seed, 4);
    C.ChainedExactly(p, key, p.deriveIV(seed), plain, body[5..]);
  }

  lemma PlaintextOnWire(sender: u64, name: seq<byte>, message: seq<byte>)
    requires P.Pushable(name, message)
    ensures P.PushPlaintext(sender, name, message)
            == [0xef, 0xbe, 0xad, 0xde, 2] + AllTyped([U32(21), U64(sender), Str(name), Blob(message)])
  {
    hide EncodeAll, AllTyped, LE;
    P.PushConforms(sender, name, message);
    FieldsOnWire(P.PushFields(sender, name, message));
    Signature();
  }

  lemma Signature()
    ensures LE(0xdeadbeef, 4) == [0xef, 0xbe, 0xad, 0xde]
  {}

  // ---------- transport ----------

  /** A frame is its length and its body; a keepalive is length zero, and length 200 announces a buffer size. */
  lemma RecordOnWire(r: F.Record, maxBody: u32)
    requires F.Receivable(r, maxBody)
    ensures F.Encode(r, maxBody)
            == match r
               case Keepalive => [0, 0, 0, 0]
               case BufferAvailable(v) => [200, 0, 0, 0] + LE(v, 4)
               case Frame(body) => LE(|body|, 4) + body
  {
    Eight();
  }
}
