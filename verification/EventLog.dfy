/** Task replies and event-log requests (internal/online/lobby/eventlog.go). */
module EventLog {
  import opened Bytes
  import opened ByteBuffer
  import opened PaddedFields
  import Envelope

  const TASK_LOG: byte := 0x02
  const MAX_EVENT_BLOB: u32 := 0x1_0000
  const TASK_REPLY_MESSAGE: byte := 0x01
  const STATUS_NO_ERROR: u32 := 0

  datatype EventLogRequest = EventLogRequest(task: byte, blob: seq<byte>, category: u32)

  datatype RequestError = MalformedRequest | UnsupportedTask

  const EVENT_KINDS: seq<Kind> := [KU8, KBlob(MAX_EVENT_BLOB), KU32]

  function EventFields(q: EventLogRequest): seq<Field> {
    [U8(q.task), Blob(q.blob), U32(q.category)]
  }

  /** payload is the encoding of q and something accepted as padding. */
  ghost predicate Accepts(payload: seq<byte>, seed: u32, q: EventLogRequest) {
    q.task == TASK_LOG && exists rest :: Envelope.AcceptedPadding(rest, seed) && Followed(payload, EVENT_KINDS, EventFields(q), rest)
  }

  /** payload is the encoding of q and valid request padding. */
  ghost predicate Encodes(payload: seq<byte>, seed: u32, q: EventLogRequest) {
    q.task == TASK_LOG && exists rest :: Envelope.ValidPadding(rest, seed) && Followed(payload, EVENT_KINDS, EventFields(q), rest)
  }

  /** The request the payload is accepted as, if any. */
  ghost function RequestOf(payload: seq<byte>, seed: u32): Option<EventLogRequest> {
    if exists q :: Accepts(payload, seed, q) then
      var q :| Accepts(payload, seed, q);
      Some(q)
    else None
  }

  /** A reader finds the fields of q and rest. */
  ghost predicate Reads(payload: seq<byte>, q: EventLogRequest, rest: seq<byte>) {
    ReadsThree(payload, KU8, KBlob(MAX_EVENT_BLOB), KU32, U8(q.task), Blob(q.blob), U32(q.category), rest)
  }

  lemma AcceptsReads(payload: seq<byte>, seed: u32, q: EventLogRequest)
    ensures Accepts(payload, seed, q)
            <==> q.task == TASK_LOG && exists rest :: Envelope.AcceptedPadding(rest, seed) && Reads(payload, q, rest)
  {
    hide Envelope.AcceptedPadding, ReadsThree, Followed;
    forall rest ensures Followed(payload, EVENT_KINDS, EventFields(q), rest) <==> Reads(payload, q, rest) {
      ThreeFollowed(payload, KU8, KBlob(MAX_EVENT_BLOB), KU32, U8(q.task), Blob(q.blob), U32(q.category), rest);
    }
  }

  /** An accepted payload is canonical exactly when less than 4 GiB follow the fields. */
  lemma CanonicalExactly(payload: seq<byte>, seed: u32, q: EventLogRequest)
    ensures Encodes(payload, seed, q)
            <==> Accepts(payload, seed, q) && |payload| < U32_LIMIT + |EncodeAll(true, EventFields(q))|
  {
    hide Envelope.ValidPadding, Envelope.AcceptedPadding, EncodeAll, AllConform;
    forall rest ensures Envelope.ValidPadding(rest, seed) <==> Envelope.AcceptedPadding(rest, seed) && |rest| < U32_LIMIT {
      Envelope.AcceptedExactly(rest, seed);
    }
  }

  /** A payload is accepted as at most one request. */
  lemma RequestOfExact(payload: seq<byte>, seed: u32, q: EventLogRequest)
    ensures RequestOf(payload, seed) == Some(q) <==> Accepts(payload, seed, q)
  {
    hide Accepts, Decode, Envelope.AcceptedPadding;
    if Accepts(payload, seed, q) {
      var r := RequestOf(payload, seed).value;
      AcceptsReads(payload, seed, q);
      AcceptsReads(payload, seed, r);
    }
  }

  /** What a reader of an expected request finds. */
  lemma Expected(payload: seq<byte>, seed: u32) returns (rest: seq<byte>)
    requires RequestOf(payload, seed).Some?
    ensures Reads(payload, RequestOf(payload, seed).value, rest) && Envelope.AcceptedPadding(rest, seed)
    ensures RequestOf(payload, seed).value.task == TASK_LOG
  {
    hide Reads, RequestOf, Accepts, Envelope.AcceptedPadding;
    var q := RequestOf(payload, seed).value;
    RequestOfExact(payload, seed, q);
    AcceptsReads(payload, seed, q);
    rest :| Envelope.AcceptedPadding(rest, seed) && Reads(payload, q, rest);
  }

  /** A request whose fields and padding have been read is the one the payload is accepted as. */
  lemma Accepted(payload: seq<byte>, seed: u32, q: EventLogRequest, rest: seq<byte>)
    requires q.task == TASK_LOG && Reads(payload, q, rest)
    ensures RequestOf(payload, seed) == if Envelope.AcceptedPadding(rest, seed) then Some(q) else None
  {
    hide Decode, RequestOf, Accepts, Envelope.AcceptedPadding;
    RequestOfExact(payload, seed, q);
    AcceptsReads(payload, seed, q);
    if RequestOf(payload, seed).Some? {
      var other := Expected(payload, seed);
    }
  }

  method ParseEventLogRequest(payload: seq<byte>, seed: u32) returns (r: Result<EventLogRequest, RequestError>)
    ensures match RequestOf(payload, seed)
            case Some(q) => r == Ok(q)
            case None => r.Err?
    ensures r == Err(UnsupportedTask)
            <==> var d := Decode(true, KU8, payload);
                 d.Got? && d.field != U8(TASK_LOG)
  {
    hide Decode, ByteReader.Rest, RequestOf, Envelope.ValidPadding;
    if RequestOf(payload, seed).Some? {
      ghost var suffix := Expected(payload, seed);
    }
    var reader := new ByteReader(payload, true);
    var task := reader.ReadUint8();
    if task.Err? {
      return Err(MalformedRequest);
    }
    if task.value.u8 != TASK_LOG {
      return Err(UnsupportedTask);
    }
    var blob := reader.ReadBlob(MAX_EVENT_BLOB);
    if blob.Err? {
      return Err(MalformedRequest);
    }
    var category := reader.ReadUint32();
    if category.Err? {
      return Err(MalformedRequest);
    }
    var q := EventLogRequest(task.value.u8, blob.value.blob, category.value.u32);
    ghost var rest := reader.Rest();
    Accepted(payload, seed, q, rest);
    var padding := reader.ReadRaw(reader.Remaining() % U32_LIMIT);
    if padding.Err? {
      return Err(MalformedRequest);
    }
    assert padding.value == Envelope.TakenAsPadding(rest);
    var valid := Envelope.ValidClientRequestPadding(padding.value, seed);
    if !valid {
      return Err(MalformedRequest);
    }
    r := Ok(q);
  }

  // ---------- task replies ----------

  function ReplyFields(tx: u64, task: byte, status: u32, count: u32, total: u32): seq<Field> {
    [U64(tx), U32(status), U8(task), U32(count)] + if count != 0 then [U32(total)] else []
  }

  lemma ReplyWritable(tx: u64, task: byte, status: u32, count: u32, total: u32)
    ensures AllWritable(ReplyFields(tx, task, status, count, total))
  {}

  function TaskReply(tx: u64, task: byte, status: u32, count: u32, total: u32): seq<byte> {
    ReplyWritable(tx, task, status, count, total);
    [TASK_REPLY_MESSAGE] + EncodeAll(true, ReplyFields(tx, task, status, count, total))
  }

  method MarshalTaskReply(tx: u64, task: byte, status: u32, count: u32, total: u32) returns (reply: seq<byte>)
    ensures reply == TaskReply(tx, task, status, count, total)
  {
    hide Encode, EncodeAll;
    var writer := new ByteWriter(true);
    writer.WriteRaw([TASK_REPLY_MESSAGE]);
    ghost var start := [TASK_REPLY_MESSAGE];
    ghost var done: seq<Field> := [];
    assert start + EncodeAll(true, []) == start by { NoFields(); }
    WroteNext(start, true, done, U64(tx), writer.data);
    writer.WriteUint64(tx);
    done := done + [U64(tx)];
    WroteNext(start, true, done, U32(status), writer.data);
    writer.WriteUint32(status);
    done := done + [U32(status)];
    WroteNext(start, true, done, U8(task), writer.data);
    writer.WriteUint8(task);
    done := done + [U8(task)];
    WroteNext(start, true, done, U32(count), writer.data);
    writer.WriteUint32(count);
    done := done + [U32(count)];
    if count != 0 {
      WroteNext(start, true, done, U32(total), writer.data);
      writer.WriteUint32(total);
      done := done + [U32(total)];
    }
    assert done == ReplyFields(tx, task, status, count, total);
    reply := writer.data;
  }
}
