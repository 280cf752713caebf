/**
  Matchmaking requests and results (internal/online/lobby/matchmaking.go).

  A payload is accepted exactly when it is the typed encoding of one request within bounds followed by
  request padding, and no payload encodes two requests.
 */
module Matchmaking {
  import opened Bytes
  import opened MatchmakingTypes
  import opened ByteBuffer
  import Envelope
  import Outputs

  const TASK_CREATE: byte := 0x01
  const TASK_UPDATE: byte := 0x02
  const TASK_DELETE: byte := 0x03
  const TASK_FIND: byte := 0x05

  const NO_ID: SessionID := [0, 0, 0, 0, 0, 0, 0, 0]
  const NO_INFO := Info([], NO_ID, 0, 0, 0, Attributes(0, 0, 0, [], 0, 0, 0))

  datatype Request = Request(
    task: byte, sessionID: SessionID, info: Info, numParams: u32, offset: u32, maxResults: u32, query: Query)

  datatype RequestError = MalformedRequest | UnsupportedTask | UnsupportedQuery | IdentityTooLong

  // ---------- fields ----------

  const ATTRIBUTE_KINDS: seq<Kind> := [KU32, KU32, KU64, KStr(MAX_TEXT), KU32, KU32, KI32]
  const INFO_KINDS: seq<Kind> := [KBlob(MAX_HOST_ADDRESS), KU32, KU32] + ATTRIBUTE_KINDS
  const ID_KINDS: seq<Kind> := [KBlob(SESSION_ID_SIZE)]
  const RANGE_KINDS: seq<Kind> := [KU32, KU32, KU32]
  const QUERY_KINDS: seq<Kind> := [KU32, KI32]

  function AttributeFields(a: Attributes): seq<Field> {
    [U32(a.u11c), U32(a.u120), U64(a.u128), Str(a.text130), U32(a.u154), U32(a.u158), I32(a.i15c)]
  }

  /** What a client sends of a match; the server supplies the session ID and the player count. */
  function InfoFields(info: Info): seq<Field> {
    [Blob(info.hostAddress), U32(info.gameType), U32(info.maxPlayers)] + AttributeFields(info.attributes)
  }

  predicate Supported(task: byte) {
    task == TASK_CREATE || task == TASK_UPDATE || task == TASK_DELETE || task == TASK_FIND
  }

  function ArgumentKinds(task: byte): seq<Kind> {
    if task == TASK_CREATE then INFO_KINDS
    else if task == TASK_UPDATE then ID_KINDS + INFO_KINDS
    else if task == TASK_DELETE then ID_KINDS
    else if task == TASK_FIND then RANGE_KINDS + QUERY_KINDS
    else []
  }

  function ArgumentFields(q: Request): seq<Field> {
    if q.task == TASK_CREATE then InfoFields(q.info)
    else if q.task == TASK_UPDATE then [Blob(q.sessionID)] + InfoFields(q.info)
    else if q.task == TASK_DELETE then [Blob(q.sessionID)]
    else if q.task == TASK_FIND then
      [U32(q.numParams), U32(q.offset), U32(q.maxResults)] + [U32(q.query.key), I32(q.query.value)]
    else []
  }

  function Fields(q: Request): seq<Field> { [U8(q.task)] + ArgumentFields(q) }

  predicate TextFits(text: seq<byte>) { |text| <= MAX_TEXT && 0 !in text }

  predicate RequestInfo(info: Info) {
    && |info.hostAddress| <= MAX_HOST_ADDRESS && TextFits(info.attributes.text130)
    && info.sessionID == NO_ID && info.numPlayers == 0
  }

  /** A request the server supports, with the fields its task does not use left at zero. */
  predicate InBounds(q: Request) {
    if q.task == TASK_CREATE then
      RequestInfo(q.info) && q == Request(q.task, NO_ID, q.info, 0, 0, 0, Query(0, 0))
    else if q.task == TASK_UPDATE then
      RequestInfo(q.info) && q == Request(q.task, q.sessionID, q.info, 0, 0, 0, Query(0, 0))
    else if q.task == TASK_DELETE then
      q == Request(q.task, q.sessionID, NO_INFO, 0, 0, 0, Query(0, 0))
    else
      && q.task == TASK_FIND && q.numParams == 1 && q.maxResults <= MAX_FIND_RESULTS
      && q == Request(q.task, NO_ID, NO_INFO, 1, q.offset, q.maxResults, q.query)
  }

  lemma InfoConform(info: Info)
    requires |info.hostAddress| <= MAX_HOST_ADDRESS && TextFits(info.attributes.text130)
    ensures AllConform(INFO_KINDS, InfoFields(info))
  {
    assert AllConform(ATTRIBUTE_KINDS, AttributeFields(info.attributes));
    ConformAppend([KBlob(MAX_HOST_ADDRESS), KU32, KU32], [Blob(info.hostAddress), U32(info.gameType), U32(info.maxPlayers)],
                  ATTRIBUTE_KINDS, AttributeFields(info.attributes));
  }

  lemma ArgumentsConform(q: Request)
    requires InBounds(q)
    ensures AllConform(ArgumentKinds(q.task), ArgumentFields(q))
  {
    hide AllConform;
    if q.task == TASK_CREATE || q.task == TASK_UPDATE { InfoConform(q.info); }
    IDConforms(q.sessionID);
    if q.task == TASK_UPDATE { ConformAppend(ID_KINDS, [Blob(q.sessionID)], INFO_KINDS, InfoFields(q.info)); }
    if q.task == TASK_FIND { FindConforms(q); }
  }

  lemma IDConforms(id: SessionID)
    ensures AllConform(ID_KINDS, [Blob(id)])
  {}

  lemma FindConforms(q: Request)
    ensures AllConform(RANGE_KINDS + QUERY_KINDS,
                       [U32(q.numParams), U32(q.offset), U32(q.maxResults)] + [U32(q.query.key), I32(q.query.value)])
  {}

  lemma FieldsConform(q: Request)
    requires InBounds(q)
    ensures AllConform([KU8] + ArgumentKinds(q.task), Fields(q)) && AllWritable(Fields(q))
  {
    hide ArgumentFields, ArgumentKinds;
    ArgumentsConform(q);
    ConformAppend([KU8], [U8(q.task)], ArgumentKinds(q.task), ArgumentFields(q));
    WritableFields([KU8] + ArgumentKinds(q.task), Fields(q));
  }

  /** payload is the encoding of q and valid request padding. */
  ghost predicate Encodes(payload: seq<byte>, seed: u32, q: Request) {
    && InBounds(q) && AllWritable(Fields(q))
    && exists padding :: Envelope.ValidPadding(padding, seed) && payload == EncodeAll(true, Fields(q)) + padding
  }

  /** payload is the encoding of q and something accepted as padding. */
  ghost predicate Accepts(payload: seq<byte>, seed: u32, q: Request) {
    && InBounds(q) && AllWritable(Fields(q))
    && exists padding :: Envelope.AcceptedPadding(padding, seed) && payload == EncodeAll(true, Fields(q)) + padding
  }

  /** An accepted payload is canonical exactly when less than 4 GiB follow the fields. */
  lemma CanonicalExactly(payload: seq<byte>, seed: u32, q: Request)
    ensures Encodes(payload, seed, q)
            <==> Accepts(payload, seed, q) && |payload| < U32_LIMIT + |EncodeAll(true, Fields(q))|
  {
    hide Envelope.ValidPadding, Envelope.AcceptedPadding, EncodeAll, Fields, InBounds;
    forall padding
      ensures Envelope.ValidPadding(padding, seed) <==> Envelope.AcceptedPadding(padding, seed) && |padding| < U32_LIMIT
    {
      Envelope.AcceptedExactly(padding, seed);
    }
  }

  /** Such a payload: every request may be followed by 2^32 + 1 zero bytes. */
  lemma LongPayloadAccepted(q: Request, seed: u32)
    requires InBounds(q)
    ensures AllWritable(Fields(q))
    ensures var payload := EncodeAll(true, Fields(q)) + Repeat(0, U32_LIMIT + 1);
            Accepts(payload, seed, q) && !Encodes(payload, seed, q)
  {
    hide EncodeAll, Fields, InBounds, Encodes, Envelope.AcceptedPadding, Envelope.ValidPadding;
    FieldsConform(q);
    var rest := Repeat(0, U32_LIMIT + 1);
    Envelope.LongRestAccepted(seed);
    CanonicalExactly(EncodeAll(true, Fields(q)) + rest, seed, q);
  }

  // ---------- what a reader of an encoding finds ----------

  /** Everything but the padding decodes as the fields of q. */
  ghost predicate Reads(payload: seq<byte>, q: Request, padding: seq<byte>) {
    DecodeAll(true, [KU8] + ArgumentKinds(q.task), payload) == Some(Split(Fields(q), padding))
  }

  lemma KindsBounded(task: byte)
    ensures Bounded([KU8] + ArgumentKinds(task))
  {}

  lemma AcceptsReads(payload: seq<byte>, seed: u32, q: Request)
    ensures Accepts(payload, seed, q)
            <==> InBounds(q) && exists padding :: Envelope.AcceptedPadding(padding, seed) && Reads(payload, q, padding)
  {
    hide DecodeAll, EncodeAll, Fields, ArgumentKinds, Envelope.AcceptedPadding, Bounded, InBounds;
    if InBounds(q) {
      FieldsConform(q);
      KindsBounded(q.task);
      forall padding
        ensures Reads(payload, q, padding) <==> payload == EncodeAll(true, Fields(q)) + padding
      {
        DecodeAllExact(true, [KU8] + ArgumentKinds(q.task), payload, Fields(q), padding);
      }
    }
  }

  lemma FieldsInjective(q: Request, r: Request)
    requires InBounds(q) && InBounds(r) && Fields(q) == Fields(r)
    ensures q == r
  {
    assert Fields(q)[0] == Fields(r)[0];
    ArgumentsInjective(q, r) by {
      assert Fields(q)[1..] == ArgumentFields(q) && Fields(r)[1..] == ArgumentFields(r);
    }
  }

  lemma ArgumentsInjective(q: Request, r: Request)
    requires InBounds(q) && InBounds(r) && q.task == r.task && ArgumentFields(q) == ArgumentFields(r)
    ensures q == r
  {
    var fs, gs := ArgumentFields(q), ArgumentFields(r);
    hide InfoFields;
    if q.task == TASK_CREATE {
      InfoInjective(q.info, r.info);
    } else if q.task == TASK_UPDATE {
      assert fs[0] == gs[0];
      assert fs[1..] == InfoFields(q.info) && gs[1..] == InfoFields(r.info);
      InfoInjective(q.info, r.info);
    } else if q.task == TASK_DELETE {
      assert fs[0] == gs[0];
    } else {
      assert fs[1] == gs[1] && fs[2] == gs[2] && fs[3] == gs[3] && fs[4] == gs[4];
    }
  }

  lemma InfoInjective(a: Info, b: Info)
    requires RequestInfo(a) && RequestInfo(b) && InfoFields(a) == InfoFields(b)
    ensures a == b
  {
    var fs, gs := InfoFields(a), InfoFields(b);
    assert fs[0] == gs[0] && fs[1] == gs[1] && fs[2] == gs[2];
    assert fs[3..] == AttributeFields(a.attributes) && gs[3..] == AttributeFields(b.attributes);
    AttributesInjective(a.attributes, b.attributes);
  }

  lemma AttributesInjective(a: Attributes, b: Attributes)
    requires AttributeFields(a) == AttributeFields(b)
    ensures a == b
  {
    var fs, gs := AttributeFields(a), AttributeFields(b);
    assert fs[0] == gs[0] && fs[1] == gs[1] && fs[2] == gs[2] && fs[3] == gs[3];
    assert fs[4] == gs[4] && fs[5] == gs[5] && fs[6] == gs[6];
  }

  /** A payload is accepted as at most one request. */
  lemma AcceptsOnce(payload: seq<byte>, seed: u32, q: Request, r: Request)
    requires Accepts(payload, seed, q) && Accepts(payload, seed, r)
    ensures q == r
  {
    hide DecodeAll, EncodeAll, ArgumentFields, ArgumentKinds, Envelope.AcceptedPadding, InBounds;
    AcceptsReads(payload, seed, q);
    AcceptsReads(payload, seed, r);
    var a :| Envelope.AcceptedPadding(a, seed) && Reads(payload, q, a);
    var b :| Envelope.AcceptedPadding(b, seed) && Reads(payload, r, b);
    ReadsTask(payload, q, a);
    ReadsTask(payload, r, b);
    FieldsInjective(q, r);
  }

  lemma ReadsTask(payload: seq<byte>, q: Request, padding: seq<byte>)
    requires Reads(payload, q, padding)
    ensures Decode(true, KU8, payload).Got? && Decode(true, KU8, payload).field == U8(q.task)
    ensures var rest := Decode(true, KU8, payload).rest;
            DecodeAll(true, ArgumentKinds(q.task), rest) == Some(Split(ArgumentFields(q), padding))
  {
    hide Decode, DecodeAll, ArgumentFields, ArgumentKinds;
    DecodeAllAppend(true, [KU8], ArgumentKinds(q.task), payload);
    DecodeOne(true, KU8, payload);
    assert Fields(q)[0] == U8(q.task) && Fields(q)[1..] == ArgumentFields(q);
    var d := Decode(true, KU8, payload);
    var rest := DecodeAll(true, ArgumentKinds(q.task), d.rest).value;
    assert ([d.field] + rest.fields)[0] == d.field && ([d.field] + rest.fields)[1..] == rest.fields;
  }

  lemma TaskReads(payload: seq<byte>, q: Request, padding: seq<byte>)
    requires Decode(true, KU8, payload).Got? && Decode(true, KU8, payload).field == U8(q.task)
    requires var rest := Decode(true, KU8, payload).rest;
             DecodeAll(true, ArgumentKinds(q.task), rest) == Some(Split(ArgumentFields(q), padding))
    ensures Reads(payload, q, padding)
  {
    hide Decode, DecodeAll, ArgumentFields, ArgumentKinds;
    DecodeAllAppend(true, [KU8], ArgumentKinds(q.task), payload);
    DecodeOne(true, KU8, payload);
  }

  // ---------- readers ----------

  method ReadMatchmakingAttributes(reader: ByteReader) returns (r: Result<Attributes, Error>)
    requires reader.Valid() && reader.typeChecked
    modifies reader
    ensures reader.Valid()
    ensures var all := DecodeAll(true, ATTRIBUTE_KINDS, old(reader.Rest()));
            if r.Ok? then all == Some(Split(AttributeFields(r.value), reader.Rest())) else all == None
  {
    hide Decode, DecodeAll, Did, At, AllConform, ByteReader.Rest;
    ghost var whole := reader.Rest();
    Begin(true, ATTRIBUTE_KINDS, whole);
    ghost var done: seq<Field> := [];
    var u11c := reader.ReadUint32();
    ReadStep(true, ATTRIBUTE_KINDS, whole, done, KU32, whole, u11c, reader.Rest());
    if u11c.Err? {
      return Err(u11c.error);
    }
    done := done + [u11c.value];
    ghost var before := reader.Rest();
    var u120 := reader.ReadUint32();
    ReadStep(true, ATTRIBUTE_KINDS, whole, done, KU32, before, u120, reader.Rest());
    if u120.Err? {
      return Err(u120.error);
    }
    done := done + [u120.value];
    before := reader.Rest();
    var u128 := reader.ReadUint64();
    ReadStep(true, ATTRIBUTE_KINDS, whole, done, KU64, before, u128, reader.Rest());
    if u128.Err? {
      return Err(u128.error);
    }
    done := done + [u128.value];
    before := reader.Rest();
    var text130 := reader.ReadString(MAX_TEXT);
    ReadStep(true, ATTRIBUTE_KINDS, whole, done, KStr(MAX_TEXT), before, text130, reader.Rest());
    if text130.Err? {
      return Err(text130.error);
    }
    done := done + [text130.value];
    before := reader.Rest();
    var u154 := reader.ReadUint32();
    ReadStep(true, ATTRIBUTE_KINDS, whole, done, KU32, before, u154, reader.Rest());
    if u154.Err? {
      return Err(u154.error);
    }
    done := done + [u154.value];
    before := reader.Rest();
    var u158 := reader.ReadUint32();
    ReadStep(true, ATTRIBUTE_KINDS, whole, done, KU32, before, u158, reader.Rest());
    if u158.Err? {
      return Err(u158.error);
    }
    done := done + [u158.value];
    before := reader.Rest();
    var i15c := reader.ReadInt32();
    ReadStep(true, ATTRIBUTE_KINDS, whole, done, KI32, before, i15c, reader.Rest());
    if i15c.Err? {
      return Err(i15c.error);
    }
    done := done + [i15c.value];
    AttributesRead(whole, done, reader.Rest());
    assert done == [u11c.value, u120.value, u128.value, text130.value, u154.value, u158.value, i15c.value];
    r := Ok(AttributesOf([u11c.value, u120.value, u128.value, text130.value, u154.value, u158.value, i15c.value]));
  }

  lemma AttributesRead(whole: seq<byte>, done: seq<Field>, rest: seq<byte>)
    requires At(true, ATTRIBUTE_KINDS, whole, done, rest) && |done| == |ATTRIBUTE_KINDS|
    ensures DecodeAll(true, ATTRIBUTE_KINDS, whole) == Some(Split(done, rest)) && AllConform(ATTRIBUTE_KINDS, done)
  {
    hide At, DecodeAll, EncodeAll;
    ReadAll(true, ATTRIBUTE_KINDS, whole, done, rest);
    DecodeAllExact(true, ATTRIBUTE_KINDS, whole, done, rest);
  }

  /** The attributes with these fields. */
  function AttributesOf(fs: seq<Field>): (a: Attributes)
    requires AllConform(ATTRIBUTE_KINDS, fs)
    ensures AttributeFields(a) == fs
  {
    assert Conforms(KU32, fs[0]) && Conforms(KU32, fs[1]) && Conforms(KU64, fs[2]) && Conforms(KStr(MAX_TEXT), fs[3]);
    assert Conforms(KU32, fs[4]) && Conforms(KU32, fs[5]) && Conforms(KI32, fs[6]);
    Attributes(fs[0].u32, fs[1].u32, fs[2].u64, fs[3].str, fs[4].u32, fs[5].u32, fs[6].i32)
  }

  const HEAD_KINDS: seq<Kind> := [KBlob(MAX_HOST_ADDRESS), KU32, KU32]

  method ReadMatchmakingRequestInfo(reader: ByteReader) returns (r: Result<Info, Error>)
    requires reader.Valid() && reader.typeChecked
    modifies reader
    ensures reader.Valid()
    ensures var all := DecodeAll(true, INFO_KINDS, old(reader.Rest()));
            if r.Ok? then all == Some(Split(InfoFields(r.value), reader.Rest())) else all == None
    ensures r.Ok? ==> r.value.sessionID == NO_ID && r.value.numPlayers == 0
  {
    hide Decode, DecodeAll, At, ByteReader.Rest, ATTRIBUTE_KINDS;
    ghost var whole := reader.Rest();
    DecodeAllAppend(true, HEAD_KINDS, ATTRIBUTE_KINDS, whole);
    Begin(true, HEAD_KINDS, whole);
    ghost var done: seq<Field> := [];
    var hostAddress := reader.ReadBlob(MAX_HOST_ADDRESS);
    ReadStep(true, HEAD_KINDS, whole, done, KBlob(MAX_HOST_ADDRESS), whole, hostAddress, reader.Rest());
    if hostAddress.Err? {
      return Err(hostAddress.error);
    }
    done := done + [hostAddress.value];
    ghost var before := reader.Rest();
    var gameType := reader.ReadUint32();
    ReadStep(true, HEAD_KINDS, whole, done, KU32, before, gameType, reader.Rest());
    if gameType.Err? {
      return Err(gameType.error);
    }
    done := done + [gameType.value];
    before := reader.Rest();
    var maxPlayers := reader.ReadUint32();
    ReadStep(true, HEAD_KINDS, whole, done, KU32, before, maxPlayers, reader.Rest());
    if maxPlayers.Err? {
      return Err(maxPlayers.error);
    }
    done := done + [maxPlayers.value];
    ReadAll(true, HEAD_KINDS, whole, done, reader.Rest());
    var attributes := ReadMatchmakingAttributes(reader);
    if attributes.Err? {
      return Err(attributes.error);
    }
    var info := Info(hostAddress.value.blob, NO_ID, gameType.value.u32, maxPlayers.value.u32, 0, attributes.value);
    assert done == [Blob(info.hostAddress), U32(info.gameType), U32(info.maxPlayers)];
    r := Ok(info);
  }

  method ReadMatchmakingSessionID(reader: ByteReader) returns (r: Result<SessionID, Error>)
    requires reader.Valid() && reader.typeChecked
    modifies reader
    ensures reader.Valid()
    ensures r.Ok? ==> DecodeAll(true, ID_KINDS, old(reader.Rest())) == Some(Split([Blob(r.value)], reader.Rest()))
    ensures r.Err? ==> forall id: SessionID, rest ::
              DecodeAll(true, ID_KINDS, old(reader.Rest())) != Some(Split([Blob(id)], rest))
  {
    hide Decode, ByteReader.Rest;
    ghost var before := reader.Rest();
    DecodeOne(true, KBlob(SESSION_ID_SIZE), before);
    hide DecodeAll;
    var encoded := reader.ReadBlob(SESSION_ID_SIZE);
    if encoded.Err? {
      return Err(encoded.error);
    }
    if |encoded.value.blob| != SESSION_ID_SIZE {
      forall id: SessionID, rest ensures DecodeAll(true, ID_KINDS, before) != Some(Split([Blob(id)], rest)) {
        assert [Blob(id)][0] != [encoded.value][0];
      }
      return Err(ValueTooLarge);
    }
    r := Ok(encoded.value.blob);
  }

  // ---------- requests ----------

  /** The request the payload is accepted as, if any. */
  ghost function RequestOf(payload: seq<byte>, seed: u32): Option<Request> {
    if exists q :: Accepts(payload, seed, q) then
      var q :| Accepts(payload, seed, q);
      Some(q)
    else None
  }

  lemma RequestOfExact(payload: seq<byte>, seed: u32, q: Request)
    ensures RequestOf(payload, seed) == Some(q) <==> Accepts(payload, seed, q)
  {
    hide Accepts;
    if Accepts(payload, seed, q) {
      AcceptsOnce(payload, seed, q, RequestOf(payload, seed).value);
    }
  }

  /** The search arguments that start s have a parameter count or a limit the server refuses. */
  ghost predicate UnsupportedRange(s: seq<byte>) {
    exists n: u32, o: u32, m: u32, rest ::
      && DecodeAll(true, RANGE_KINDS, s) == Some(Split([U32(n), U32(o), U32(m)], rest))
      && (n != 1 || m > MAX_FIND_RESULTS)
  }

  /** What the arguments of an expected request decode to. */
  lemma ExpectedArguments(payload: seq<byte>, seed: u32, q: Request) returns (padding: seq<byte>)
    requires Accepts(payload, seed, q)
    ensures Envelope.AcceptedPadding(padding, seed) && InBounds(q)
    ensures Decode(true, KU8, payload).Got? && Decode(true, KU8, payload).field == U8(q.task)
    ensures var rest := Decode(true, KU8, payload).rest;
            DecodeAll(true, ArgumentKinds(q.task), rest) == Some(Split(ArgumentFields(q), padding))
  {
    hide Decode, DecodeAll, EncodeAll, ArgumentFields, ArgumentKinds, Envelope.AcceptedPadding, InBounds;
    AcceptsReads(payload, seed, q);
    padding :| Envelope.AcceptedPadding(padding, seed) && Reads(payload, q, padding);
    ReadsTask(payload, q, padding);
  }

  /** A request whose arguments and padding have been read is the one the payload is accepted as. */
  lemma Accepted(payload: seq<byte>, seed: u32, q: Request, padding: seq<byte>)
    requires InBounds(q) && Decode(true, KU8, payload).Got? && Decode(true, KU8, payload).field == U8(q.task)
    requires var rest := Decode(true, KU8, payload).rest;
             DecodeAll(true, ArgumentKinds(q.task), rest) == Some(Split(ArgumentFields(q), padding))
    ensures RequestOf(payload, seed) == if Envelope.AcceptedPadding(padding, seed) then Some(q) else None
  {
    hide Decode, DecodeAll, EncodeAll, ArgumentFields, ArgumentKinds, Envelope.AcceptedPadding, InBounds, RequestOf;
    TaskReads(payload, q, padding);
    AcceptsReads(payload, seed, q);
    RequestOfExact(payload, seed, q);
    if RequestOf(payload, seed).Some? {
      var p := RequestOf(payload, seed).value;
      RequestOfExact(payload, seed, p);
      var other := ExpectedArguments(payload, seed, p);
    }
  }

  lemma FindArguments(s: seq<byte>, q: Request, padding: seq<byte>)
    requires q.task == TASK_FIND
    ensures DecodeAll(true, ArgumentKinds(q.task), s) == Some(Split(ArgumentFields(q), padding))
            <==> var range := DecodeAll(true, RANGE_KINDS, s);
                 && range.Some? && range.value.fields == [U32(q.numParams), U32(q.offset), U32(q.maxResults)]
                 && DecodeAll(true, QUERY_KINDS, range.value.rest)
                    == Some(Split([U32(q.query.key), I32(q.query.value)], padding))
  {
    hide DecodeAll;
    DecodeAllSplit(true, RANGE_KINDS, QUERY_KINDS, s, [U32(q.numParams), U32(q.offset), U32(q.maxResults)],
                   [U32(q.query.key), I32(q.query.value)], padding);
  }

  lemma UpdateArguments(s: seq<byte>, q: Request, padding: seq<byte>)
    requires q.task == TASK_UPDATE
    ensures DecodeAll(true, ArgumentKinds(q.task), s) == Some(Split(ArgumentFields(q), padding))
            <==> var id := DecodeAll(true, ID_KINDS, s);
                 && id.Some? && id.value.fields == [Blob(q.sessionID)]
                 && DecodeAll(true, INFO_KINDS, id.value.rest) == Some(Split(InfoFields(q.info), padding))
  {
    hide DecodeAll;
    DecodeAllSplit(true, ID_KINDS, INFO_KINDS, s, [Blob(q.sessionID)], InfoFields(q.info), padding);
  }

  /** The arguments of a search, with the refusal of searches the server does not support. */
  method ReadFindArguments(reader: ByteReader) returns (r: Result<Request, RequestError>)
    requires reader.Valid() && reader.typeChecked
    modifies reader
    ensures reader.Valid()
    ensures r.Ok? ==> InBounds(r.value) && r.value.task == TASK_FIND
    ensures r.Ok? ==> DecodeAll(true, ArgumentKinds(TASK_FIND), old(reader.Rest()))
                      == Some(Split(ArgumentFields(r.value), reader.Rest()))
    ensures r.Err? ==> forall q, rest | InBounds(q) && q.task == TASK_FIND ::
              DecodeAll(true, ArgumentKinds(TASK_FIND), old(reader.Rest())) != Some(Split(ArgumentFields(q), rest))
    ensures r.Err? ==> r.error != UnsupportedTask
    ensures r == Err(UnsupportedQuery) <==> UnsupportedRange(old(reader.Rest()))
  {
    hide Decode, DecodeAll, At, ByteReader.Rest, ArgumentKinds, ArgumentFields;
    ghost var whole := reader.Rest();
    forall q, rest | InBounds(q) && q.task == TASK_FIND {
      FindArguments(whole, q, rest);
    }
    Begin(true, RANGE_KINDS, whole);
    ghost var done: seq<Field> := [];
    var numParams := reader.ReadUint32();
    ReadStep(true, RANGE_KINDS, whole, done, KU32, whole, numParams, reader.Rest());
    if numParams.Err? {
      return Err(MalformedRequest);
    }
    done := done + [numParams.value];
    ghost var before := reader.Rest();
    var offset := reader.ReadUint32();
    ReadStep(true, RANGE_KINDS, whole, done, KU32, before, offset, reader.Rest());
    if offset.Err? {
      return Err(MalformedRequest);
    }
    done := done + [offset.value];
    before := reader.Rest();
    var maxResults := reader.ReadUint32();
    ReadStep(true, RANGE_KINDS, whole, done, KU32, before, maxResults, reader.Rest());
    if maxResults.Err? {
      return Err(MalformedRequest);
    }
    done := done + [maxResults.value];
    ReadAll(true, RANGE_KINDS, whole, done, reader.Rest());
    assert done == [U32(numParams.value.u32), U32(offset.value.u32), U32(maxResults.value.u32)];
    if numParams.value.u32 != 1 || maxResults.value.u32 > MAX_FIND_RESULTS {
      return Err(UnsupportedQuery);
    }
    before := reader.Rest();
    ghost var middle := before;
    Begin(true, QUERY_KINDS, middle);
    done := [];
    var key := reader.ReadUint32();
    ReadStep(true, QUERY_KINDS, middle, done, KU32, middle, key, reader.Rest());
    if key.Err? {
      return Err(MalformedRequest);
    }
    done := done + [key.value];
    before := reader.Rest();
    var value := reader.ReadInt32();
    ReadStep(true, QUERY_KINDS, middle, done, KI32, before, value, reader.Rest());
    if value.Err? {
      return Err(MalformedRequest);
    }
    done := done + [value.value];
    ReadAll(true, QUERY_KINDS, middle, done, reader.Rest());
    assert done == [U32(key.value.u32), I32(value.value.i32)];
    r := Ok(Request(TASK_FIND, NO_ID, NO_INFO, 1, offset.value.u32, maxResults.value.u32, Query(key.value.u32, value.value.i32)));
  }

  lemma ArgumentsOf(q: Request)
    ensures q.task == TASK_CREATE ==> ArgumentFields(q) == InfoFields(q.info)
    ensures q.task == TASK_DELETE ==> ArgumentFields(q) == [Blob(q.sessionID)]
  {}

  lemma InfoRead(s: seq<byte>, info: Info, rest: seq<byte>)
    requires DecodeAll(true, INFO_KINDS, s) == Some(Split(InfoFields(info), rest))
    ensures |info.hostAddress| <= MAX_HOST_ADDRESS && TextFits(info.attributes.text130)
  {
    hide DecodeAll, EncodeAll;
    DecodeAllSound(true, INFO_KINDS, s);
    assert Conforms(INFO_KINDS[0], InfoFields(info)[0]);
    assert Conforms(INFO_KINDS[6], InfoFields(info)[6]);
  }

  /** The arguments of a task, if the task and its arguments are supported. */
  method ReadArguments(reader: ByteReader, task: byte) returns (r: Result<Request, RequestError>)
    requires reader.Valid() && reader.typeChecked
    modifies reader
    ensures reader.Valid()
    ensures r.Ok? ==> InBounds(r.value) && r.value.task == task
    ensures r.Ok? ==> DecodeAll(true, ArgumentKinds(task), old(reader.Rest()))
                      == Some(Split(ArgumentFields(r.value), reader.Rest()))
    ensures r.Err? ==> forall q, rest | InBounds(q) && q.task == task ::
              DecodeAll(true, ArgumentKinds(task), old(reader.Rest())) != Some(Split(ArgumentFields(q), rest))
    ensures r == Err(UnsupportedTask) <==> !Supported(task)
    ensures r == Err(UnsupportedQuery) <==> task == TASK_FIND && UnsupportedRange(old(reader.Rest()))
  {
    hide Decode, DecodeAll, ByteReader.Rest, ArgumentFields, INFO_KINDS, ID_KINDS, InfoFields;
    var request := Request(task, NO_ID, NO_INFO, 0, 0, 0, Query(0, 0));
    ghost var arguments := reader.Rest();
    forall q: Request ensures q.task == TASK_CREATE ==> ArgumentFields(q) == InfoFields(q.info)
             ensures q.task == TASK_DELETE ==> ArgumentFields(q) == [Blob(q.sessionID)] {
      ArgumentsOf(q);
    }
    if task == TASK_CREATE {
      var info := ReadMatchmakingRequestInfo(reader);
      if info.Err? {
        return Err(MalformedRequest);
      }
      request := request.(info := info.value);
      InfoRead(arguments, info.value, reader.Rest());
    } else if task == TASK_UPDATE {
      forall q: Request, rest | q.task == TASK_UPDATE {
        UpdateArguments(arguments, q, rest);
      }
      var id := ReadMatchmakingSessionID(reader);
      if id.Err? {
        return Err(MalformedRequest);
      }
      ghost var afterID := reader.Rest();
      var info := ReadMatchmakingRequestInfo(reader);
      if info.Err? {
        return Err(MalformedRequest);
      }
      request := request.(sessionID := id.value, info := info.value);
      InfoRead(afterID, info.value, reader.Rest());
    } else if task == TASK_DELETE {
      var id := ReadMatchmakingSessionID(reader);
      if id.Err? {
        return Err(MalformedRequest);
      }
      request := request.(sessionID := id.value);
    } else if task == TASK_FIND {
      var find := ReadFindArguments(reader);
      if find.Err? {
        return Err(find.error);
      }
      request := find.value;
    } else {
      return Err(UnsupportedTask);
    }
    r := Ok(request);
  }

  method ParseMatchmakingRequest(payload: seq<byte>, seed: u32) returns (r: Result<Request, RequestError>)
    ensures match RequestOf(payload, seed)
            case Some(q) => r == Ok(q)
            case None => r.Err?
    ensures r == Err(UnsupportedTask)
            <==> var d := Decode(true, KU8, payload);
                 d.Got? && d.field.U8? && !Supported(d.field.u8)
    ensures r == Err(UnsupportedQuery)
            <==> var d := Decode(true, KU8, payload);
                 d.Got? && d.field == U8(TASK_FIND) && UnsupportedRange(d.rest)
  {
    hide Decode, DecodeAll, ByteReader.Rest, ArgumentFields, ArgumentKinds, InBounds;
    hide Envelope.ValidPadding, Accepts, RequestOf, UnsupportedRange, Supported;
    ghost var expected := RequestOf(payload, seed);
    if expected.Some? {
      RequestOfExact(payload, seed, expected.value);
      ghost var suffix := ExpectedArguments(payload, seed, expected.value);
    }
    var reader := new ByteReader(payload, true);
    var task := reader.ReadUint8();
    if task.Err? {
      return Err(MalformedRequest);
    }
    var request := ReadArguments(reader, task.value.u8);
    if request.Err? {
      return Err(request.error);
    }
    ghost var rest := reader.Rest();
    Accepted(payload, seed, request.value, rest);
    var padding := reader.ReadRaw(reader.Remaining() % U32_LIMIT);
    if padding.Err? {
      return Err(MalformedRequest);
    }
    assert padding.value == Envelope.TakenAsPadding(rest);
    var valid := Envelope.ValidClientRequestPadding(padding.value, seed);
    if !valid {
      return Err(MalformedRequest);
    }
    r := request;
  }

  // ---------- results ----------

  const RESULT_HEAD_KINDS: seq<Kind> := [KBlob(MAX_HOST_ADDRESS), KBlob(SESSION_ID_SIZE), KU32, KU32, KU32]
  const RESULT_KINDS: seq<Kind> := RESULT_HEAD_KINDS + ATTRIBUTE_KINDS

  function ResultFields(info: Info): seq<Field> {
    [Blob(info.hostAddress), Blob(info.sessionID), U32(info.gameType), U32(info.maxPlayers), U32(info.numPlayers)]
    + AttributeFields(info.attributes)
  }

  lemma ResultConforms(info: Info)
    requires Outputs.ResultFits(info)
    ensures AllConform(RESULT_KINDS, ResultFields(info)) && AllWritable(ResultFields(info))
  {
    ConformAppend(RESULT_HEAD_KINDS,
                  [Blob(info.hostAddress), Blob(info.sessionID), U32(info.gameType), U32(info.maxPlayers), U32(info.numPlayers)],
                  ATTRIBUTE_KINDS, AttributeFields(info.attributes));
    WritableFields(RESULT_KINDS, ResultFields(info));
  }

  /** Fails exactly on a text that cannot be written. */
  method WriteAttributes(writer: ByteWriter, a: Attributes) returns (r: Result<(), Error>)
    requires writer.typeChecked && |a.text130| <= MAX_TEXT
    modifies writer
    ensures r.Ok? <==> TextFits(a.text130)
    ensures r.Ok? ==> AllWritable(AttributeFields(a)) && writer.data == old(writer.data) + EncodeAll(true, AttributeFields(a))
    ensures r.Err? ==> old(writer.data) <= writer.data
  {
    hide EncodeAll, Encode;
    ghost var start := writer.data;
    ghost var done: seq<Field> := [];
    Nothing(start);
    WroteNext(start, true, done, U32(a.u11c), writer.data);
    writer.WriteUint32(a.u11c);
    done := done + [U32(a.u11c)];
    WroteNext(start, true, done, U32(a.u120), writer.data);
    writer.WriteUint32(a.u120);
    done := done + [U32(a.u120)];
    WroteNext(start, true, done, U64(a.u128), writer.data);
    writer.WriteUint64(a.u128);
    done := done + [U64(a.u128)];
    ghost var before := writer.data;
    var text := writer.WriteString(a.text130);
    if text.Err? {
      return Err(text.error);
    }
    WroteNext(start, true, done, Str(a.text130), before);
    done := done + [Str(a.text130)];
    WroteNext(start, true, done, U32(a.u154), writer.data);
    writer.WriteUint32(a.u154);
    done := done + [U32(a.u154)];
    WroteNext(start, true, done, U32(a.u158), writer.data);
    writer.WriteUint32(a.u158);
    done := done + [U32(a.u158)];
    WroteNext(start, true, done, I32(a.i15c), writer.data);
    writer.WriteInt32(a.i15c);
    done := done + [I32(a.i15c)];
    assert done == AttributeFields(a);
    r := Ok(());
  }

  /** Fails exactly on a match whose address or text is out of bounds. */
  method WriteMatchmakingResult(writer: ByteWriter, info: Info) returns (r: Result<(), RequestError>)
    requires writer.typeChecked
    modifies writer
    ensures r.Ok? <==> Outputs.ResultFits(info)
    ensures r.Ok? ==> AllWritable(ResultFields(info)) && writer.data == old(writer.data) + EncodeAll(true, ResultFields(info))
    ensures r.Err? ==> old(writer.data) <= writer.data
  {
    hide EncodeAll, Encode, AttributeFields;
    if |info.hostAddress| > MAX_HOST_ADDRESS || |info.attributes.text130| > MAX_TEXT {
      return Err(MalformedRequest);
    }
    ghost var start := writer.data;
    ghost var done: seq<Field> := [];
    Nothing(start);
    ghost var before := writer.data;
    var wrote := writer.WriteBlob(info.hostAddress);
    if wrote.Err? {
      return Err(MalformedRequest);
    }
    WroteNext(start, true, done, Blob(info.hostAddress), before);
    done := done + [Blob(info.hostAddress)];
    before := writer.data;
    wrote := writer.WriteBlob(info.sessionID);
    if wrote.Err? {
      return Err(MalformedRequest);
    }
    WroteNext(start, true, done, Blob(info.sessionID), before);
    done := done + [Blob(info.sessionID)];
    WroteNext(start, true, done, U32(info.gameType), writer.data);
    writer.WriteUint32(info.gameType);
    done := done + [U32(info.gameType)];
    WroteNext(start, true, done, U32(info.maxPlayers), writer.data);
    writer.WriteUint32(info.maxPlayers);
    done := done + [U32(info.maxPlayers)];
    WroteNext(start, true, done, U32(info.numPlayers), writer.data);
    writer.WriteUint32(info.numPlayers);
    done := done + [U32(info.numPlayers)];
    before := writer.data;
    var attributes := WriteAttributes(writer, info.attributes);
    if attributes.Err? {
      return Err(MalformedRequest);
    }
    var fields := AttributeFields(info.attributes);
    EncodeAllAppend(true, done, fields);
    assert (start + EncodeAll(true, done)) + EncodeAll(true, fields) == start + (EncodeAll(true, done) + EncodeAll(true, fields));
    assert done + fields == ResultFields(info);
    r := Ok(());
  }

  lemma Nothing(start: seq<byte>)
    ensures start + EncodeAll(true, []) == start
  {}

  /** A result decodes field by field, wherever it stands, to the match it was written for. */
  lemma ResultDecodes(info: Info, rest: seq<byte>)
    requires Outputs.ResultFits(info)
    ensures AllWritable(ResultFields(info))
    ensures DecodeAll(true, RESULT_KINDS, EncodeAll(true, ResultFields(info)) + rest) == Some(Split(ResultFields(info), rest))
  {
    hide DecodeAll, EncodeAll, RESULT_KINDS, ResultFields;
    ResultConforms(info);
    DecodeAllComplete(true, RESULT_KINDS, ResultFields(info), rest);
  }

  /** So two matches whose written results start alike are the same match. */
  lemma ResultInjective(a: Info, b: Info, rest: seq<byte>, tail: seq<byte>)
    requires Outputs.ResultFits(a) && Outputs.ResultFits(b)
    requires EncodeAll(true, ResultFields(a)) + rest == EncodeAll(true, ResultFields(b)) + tail
    ensures a == b && rest == tail
  {
    ResultDecodes(a, rest);
    ResultDecodes(b, tail);
    ResultFieldsInjective(a, b);
  }

  lemma ResultFieldsInjective(a: Info, b: Info)
    requires ResultFields(a) == ResultFields(b)
    ensures a == b
  {
    var fs, gs := ResultFields(a), ResultFields(b);
    assert fs[0] == gs[0] && fs[1] == gs[1] && fs[2] == gs[2] && fs[3] == gs[3] && fs[4] == gs[4];
    assert fs[5..] == AttributeFields(a.attributes) && gs[5..] == AttributeFields(b.attributes);
    AttributesInjective(a.attributes, b.attributes);
  }

  // ---------- identity ----------

  function BindMatchmakingIdentity(q: Request, username: seq<byte>): Result<Request, RequestError> {
    if q.task != TASK_CREATE && q.task != TASK_UPDATE then Ok(q)
    else if |username| > MAX_TEXT then Err(IdentityTooLong)
    else Ok(q.(info := q.info.(attributes := q.info.attributes.(text130 := username))))
  }

  /**
    A match a client announces carries the client's own name, whatever the request said; every result
    is still within bounds for a name without zero bytes, and only a long name is refused.
   */
  lemma IdentityBound(q: Request, username: seq<byte>, claimed: seq<byte>)
    requires InBounds(q)
    ensures var r := BindMatchmakingIdentity(q, username);
            && (r.Err? <==> q.task in {TASK_CREATE, TASK_UPDATE} && |username| > MAX_TEXT)
            && (r.Ok? && q.task in {TASK_CREATE, TASK_UPDATE} ==>
                  r.value.info.attributes.text130 == username
                  && (0 !in username ==> Outputs.ResultFits(r.value.info))
                  && r == BindMatchmakingIdentity(q.(info := q.info.(attributes := q.info.attributes.(text130 := claimed))), username))
            && (q.task !in {TASK_CREATE, TASK_UPDATE} ==> r == Ok(q))
  {}
}
